/**
 * What the desktop backend reads back from AppleScript: the list of QQ windows
 * (`name:x|y|w|h` items joined by `;;;`), the geometry of one window (`x|y|w|h`) and the
 * unread badge of the Dock icon; and the choice of the chat window among the open ones.
 */
module WindowList {
  import opened Wrappers
  import opened Text
  import opened Decimal

  datatype Geometry = Geometry(x: int, y: int, width: int, height: int)

  /** One entry of the window list: its title and where it is on screen. */
  datatype Window = Window(name: string, frame: Geometry)

  const ItemSeparator: string := ";;;"
  const NameSeparator: string := ":"
  const FieldSeparator: string := "|"

  /** Window titles that are QQ's own panels rather than conversations. */
  predicate IsReserved(name: string) {
    name == "" || name == "QQ" || name == "全网搜索"
  }

  // ---------------------------------------------------------------------------
  // The producing side: what the AppleScript returns.

  /** `(x as text) & "|" & (y as text) & "|" & (ww as text) & "|" & (hh as text)` */
  function FormatGeometry(g: Geometry): string {
    Join([FormatInt(g.x), FormatInt(g.y), FormatInt(g.width), FormatInt(g.height)], FieldSeparator)
  }

  /** `wName & ":" & <geometry>` */
  function FormatItem(w: Window): string {
    w.name + NameSeparator + FormatGeometry(w.frame)
  }

  /** The items, in window order, as text with `;;;` as AppleScript's text item delimiter. */
  function FormatWindows(ws: seq<Window>): string {
    Join(FormatItems(ws), ItemSeparator)
  }

  /** The `set end of winInfo to ...` loop: one item per window, in window order. */
  function FormatItems(ws: seq<Window>): (items: seq<string>)
    ensures |items| == |ws|
    decreases |ws|
  {
    if ws == [] then [] else [FormatItem(ws[0])] + FormatItems(ws[1..])
  }

  lemma {:induction false} FormatItemsAt(ws: seq<Window>, k: nat)
    requires k < |ws|
    ensures FormatItems(ws)[k] == FormatItem(ws[k])
    decreases k
  {
    if k > 0 {
      FormatItemsAt(ws[1..], k - 1);
    }
  }

  // ---------------------------------------------------------------------------
  // The consuming side.

  /** Four `|`-separated fields, each parsed with `int()`. */
  datatype Fields = WrongFieldCount | NotAnInteger | Parsed(geometry: Geometry)

  function ParseFields(text: string): Fields {
    var parts := Split(text, FieldSeparator);
    if |parts| != 4 then WrongFieldCount
    else
      match (ParseInt(parts[0]), ParseInt(parts[1]), ParseInt(parts[2]), ParseInt(parts[3]))
      case (Some(x), Some(y), Some(w), Some(h)) => Parsed(Geometry(x, y, w, h))
      case _ => NotAnInteger
  }

  /**
   * `get_qq_window_info` after `run_applescript`: the stripped output is split on `|`; four
   * fields give a geometry, an empty output or another field count gives `None`, and a
   * field that is not an integer raises `ValueError`.
   */
  datatype GeometryReply = Found(geometry: Geometry) | NoGeometry | GeometryValueError

  function ParseGeometry(stdout: string): GeometryReply {
    var result := Strip(stdout);
    if result == "" then NoGeometry
    else
      match ParseFields(result)
      case WrongFieldCount => NoGeometry
      case NotAnInteger => GeometryValueError
      case Parsed(g) => Found(g)
  }

  /** What one `;;;`-separated item contributes to the list. */
  datatype ItemParse = Skipped | Malformed | Entry(window: Window)

  /**
   * Where an item is cut into title and fields: at its first `:`, as `item.split(":", 1)`
   * does, or at its last `:`, as `item.rsplit(":", 1)` would.
   */
  datatype NameCut = FirstColon | LastColon

  /** The last position of `c` in `s`. */
  function LastIndex(s: string, c: char): (r: Option<nat>)
    ensures r.Some? ==> r.value < |s| && s[r.value] == c && forall j :: r.value < j < |s| ==> s[j] != c
    ensures r.None? <==> c !in s
    decreases |s|
  {
    if s == [] then None
    else if s[|s| - 1] == c then Some(|s| - 1)
    else
      var r := LastIndex(s[..|s| - 1], c);
      assert c in s <==> c in s[..|s| - 1] by {
        assert s == s[..|s| - 1] + [s[|s| - 1]];
      }
      r
  }

  /** The position of the `:` that ends the title. */
  function CutPoint(item: string, cut: NameCut): (r: Option<nat>)
    ensures r.Some? ==> r.value < |item|
  {
    match cut
    case FirstColon => Find(item, NameSeparator)
    case LastColon => LastIndex(item, ':')
  }

  /** Either cut falls on a `:`, and there is a cut exactly when the item holds a `:`. */
  lemma CutIsColon(item: string, cut: NameCut)
    ensures var r := CutPoint(item, cut); r.Some? ==> item[r.value] == ':'
    ensures CutPoint(item, cut).None? <==> ':' !in item
  {
    var r := CutPoint(item, cut);
    if cut == FirstColon {
      assert r.Some? ==> item[r.value] == item[r.value..r.value + 1][0];
      ContainsChar(item, ':');
    }
  }

  /**
   * One item of `get_qq_windows`: stripped, cut at a `:`, the fields after it parsed and the
   * title before it stripped. An item without `:` or without four fields is skipped. The code
   * cuts at the first `:` (`FirstColon`).
   */
  function ParseItem(raw: string, cut: NameCut): ItemParse {
    ParseStrippedItem(Strip(raw), cut)
  }

  function ParseStrippedItem(item: string, cut: NameCut): ItemParse {
    match CutPoint(item, cut)
    case None => Skipped
    case Some(i) => NamedFields(item[..i], ParseFields(item[i + 1..]))
  }

  function NamedFields(name: string, fields: Fields): ItemParse {
    match fields
    case WrongFieldCount => Skipped
    case NotAnInteger => Malformed
    case Parsed(g) => Entry(Window(Strip(name), g))
  }

  /** The loop of `get_qq_windows` over the items; `None` is the uncaught `ValueError`. */
  function ParseItems(items: seq<string>, cut: NameCut): Option<seq<Window>> {
    Collect(items, ItemParser(cut))
  }

  function ItemParser(cut: NameCut): string -> ItemParse {
    raw => ParseItem(raw, cut)
  }

  /** The loop over the items with `parse` as its body for one item. */
  function Collect(items: seq<string>, parse: string -> ItemParse): Option<seq<Window>>
    decreases |items|
  {
    if items == [] then Some([])
    else
      var head := parse(items[0]);
      if head.Malformed? then None
      else
        match Collect(items[1..], parse)
        case None => None
        case Some(rest) => Some(if head.Entry? then [head.window] + rest else rest)
  }

  /** `get_qq_windows` on the raw standard output of its AppleScript. */
  function ParseWindows(stdout: string, cut: NameCut): Option<seq<Window>> {
    var result := Strip(stdout);
    if result == "" then Some([]) else ParseItems(Split(result, ItemSeparator), cut)
  }

  /** `get_dock_badge`: the stripped output read as an integer, and 0 when it is not one. */
  function ParseBadge(stdout: string): int {
    match ParseInt(Strip(stdout))
    case Some(n) => n
    case None => 0
  }

  // ---------------------------------------------------------------------------
  // Choosing the chat window.

  /**
   * `find_chat_window`: the first window, in enumeration order, whose title is not one of
   * QQ's own panels; `None` when every window is one of them.
   */
  function FindChatWindow(ws: seq<Window>): (r: Option<Window>)
    ensures r.None? <==> forall k :: 0 <= k < |ws| ==> IsReserved(ws[k].name)
    ensures r.Some? ==> exists i :: 0 <= i < |ws| && ws[i] == r.value && !IsReserved(ws[i].name)
                                      && forall k :: 0 <= k < i ==> IsReserved(ws[k].name)
    decreases |ws|
  {
    if ws == [] then None
    else if !IsReserved(ws[0].name) then Some(ws[0])
    else
      var r := FindChatWindow(ws[1..]);
      assert r.Some? ==> exists i :: 1 <= i < |ws| && ws[i] == r.value && !IsReserved(ws[i].name)
                                     && forall k :: 0 <= k < i ==> IsReserved(ws[k].name) by {
        if r.Some? {
          var i :| 0 <= i < |ws[1..]| && ws[1..][i] == r.value && !IsReserved(ws[1..][i].name)
                   && forall k :: 0 <= k < i ==> IsReserved(ws[1..][k].name);
          assert forall k :: 1 <= k < i + 1 ==> IsReserved(ws[k].name) by {
            forall k | 1 <= k < i + 1 ensures IsReserved(ws[k].name) {
              assert ws[k] == ws[1..][k - 1];
            }
          }
        }
      }
      r
  }

  // ---------------------------------------------------------------------------
  // Properties of the parsers.

  /** A title the list format can carry: no `;;;` and no surrounding whitespace. */
  predicate Listable(name: string) {
    !Contains(name, ItemSeparator) && (name == [] || (!IsSpace(name[0]) && !IsSpace(name[|name| - 1])))
  }

  /** A title that is read back: listable, and without `:` when the cut is at the first `:`. */
  predicate Carried(name: string, cut: NameCut) {
    Listable(name) && (cut == FirstColon ==> !Contains(name, NameSeparator))
  }

  lemma NotSpace(c: char)
    requires IsDigit(c) || c == '-' || c == ':'
    ensures !IsSpace(c)
  {
  }

  lemma FormatIntNoSeparators(n: int)
    ensures '|' !in FormatInt(n) && ';' !in FormatInt(n) && ':' !in FormatInt(n)
    ensures !IsSpace(FormatInt(n)[0]) && !IsSpace(FormatInt(n)[|FormatInt(n)| - 1])
  {
    var s := FormatInt(n);
    forall c | c in s ensures c != '|' && c != ';' && c != ':' {
      var k :| 0 <= k < |s| && s[k] == c;
    }
    NotSpace(s[0]);
    NotSpace(s[|s| - 1]);
  }

  lemma JoinFour(a: string, b: string, c: string, d: string, sep: string)
    ensures Join([a, b, c, d], sep) == a + sep + b + sep + c + sep + d
  {
    assert [c, d][1..] == [d];
    assert Join([c, d], sep) == c + sep + d;
    assert [b, c, d][1..] == [c, d];
    assert Join([b, c, d], sep) == b + sep + (c + sep + d);
    assert [a, b, c, d][1..] == [b, c, d];
    assert Join([a, b, c, d], sep) == a + sep + (b + sep + (c + sep + d));
    RegroupFour(a, b, c, d, sep);
  }

  lemma RegroupFour<T>(a: seq<T>, b: seq<T>, c: seq<T>, d: seq<T>, sep: seq<T>)
    ensures a + sep + (b + sep + (c + sep + d)) == a + sep + b + sep + c + sep + d
  {
  }

  lemma FormatGeometryShape(g: Geometry)
    ensures |FormatGeometry(g)| >= 1
    ensures ';' !in FormatGeometry(g) && ':' !in FormatGeometry(g)
    ensures IsDigit(FormatGeometry(g)[|FormatGeometry(g)| - 1])
    ensures !IsSpace(FormatGeometry(g)[0])
  {
    var parts := [FormatInt(g.x), FormatInt(g.y), FormatInt(g.width), FormatInt(g.height)];
    FormatIntNoSeparators(g.x);
    FormatIntNoSeparators(g.y);
    FormatIntNoSeparators(g.width);
    FormatIntNoSeparators(g.height);
    var s := FormatGeometry(g);
    JoinFour(parts[0], parts[1], parts[2], parts[3], FieldSeparator);
    assert s[0] == parts[0][0];
    assert s[|s| - 1] == parts[3][|parts[3]| - 1];
  }

  /** The fields written for a geometry are read back as that geometry. */
  lemma FieldsRoundTrip(g: Geometry)
    ensures ParseFields(FormatGeometry(g)) == Parsed(g)
  {
    var parts := [FormatInt(g.x), FormatInt(g.y), FormatInt(g.width), FormatInt(g.height)];
    forall k | 0 <= k < 4 ensures !Contains(parts[k], FieldSeparator) && parts[k][|parts[k]| - 1] !in FieldSeparator {
      FormatIntNoSeparators(if k == 0 then g.x else if k == 1 then g.y else if k == 2 then g.width else g.height);
      ContainsChar(parts[k], '|');
    }
    SplitJoin(parts, FieldSeparator);
    ParseFormat(g.x);
    ParseFormat(g.y);
    ParseFormat(g.width);
    ParseFormat(g.height);
  }

  /** `get_qq_window_info` reads back the geometry its AppleScript writes. */
  lemma GeometryRoundTrip(g: Geometry)
    ensures ParseGeometry(FormatGeometry(g)) == Found(g)
  {
    var s := FormatGeometry(g);
    FormatGeometryShape(g);
    assert !IsSpace(s[|s| - 1]);
    assert Strip(s) == s;
    FieldsRoundTrip(g);
  }

  /** An item written for a window whose title the cut carries is read back as that window. */
  lemma ItemRoundTrip(w: Window, cut: NameCut)
    requires Carried(w.name, cut)
    ensures ParseItem(FormatItem(w), cut) == Entry(w)
  {
    var geo := FormatGeometry(w.frame);
    FormatGeometryShape(w.frame);
    FieldsRoundTrip(w.frame);
    ItemParsesAs(w.name, geo, w.frame, cut);
  }

  /** `name:fields` with a title the cut carries and well-formed fields is read as that window. */
  lemma ItemParsesAs(name: string, geo: string, g: Geometry, cut: NameCut)
    requires Carried(name, cut) && ParseFields(geo) == Parsed(g) && ':' !in geo
    requires geo != [] && !IsSpace(geo[|geo| - 1])
    ensures ParseItem(name + NameSeparator + geo, cut) == Entry(Window(name, g))
  {
    ItemIsStripped(name, geo);
    ColonSplitsItem(name, geo, g, cut);
  }

  lemma ColonSplitsItem(name: string, geo: string, g: Geometry, cut: NameCut)
    requires Carried(name, cut) && ParseFields(geo) == Parsed(g) && ':' !in geo
    ensures ParseStrippedItem(name + NameSeparator + geo, cut) == Entry(Window(name, g))
  {
    var item := name + NameSeparator + geo;
    CutEndsName(name, geo, cut);
    assert item[|name| + 1..] == geo;
    assert item[..|name|] == name;
  }

  /** The cut falls right after the title when the title can be carried and the fields hold no `:`. */
  lemma CutEndsName(name: string, geo: string, cut: NameCut)
    requires Carried(name, cut) && ':' !in geo
    ensures CutPoint(name + NameSeparator + geo, cut) == Some(|name|)
  {
    match cut
    case FirstColon => FirstColonEndsName(name, geo);
    case LastColon => LastColonEndsName(name, geo);
  }

  lemma ItemIsStripped(name: string, geo: string)
    requires name == [] || !IsSpace(name[0])
    requires geo != [] && !IsSpace(geo[|geo| - 1])
    ensures Strip(name + NameSeparator + geo) == name + NameSeparator + geo
  {
    var item := name + NameSeparator + geo;
    assert item[0] == (if name == [] then ':' else name[0]);
    assert item[|item| - 1] == geo[|geo| - 1];
  }

  lemma FirstColonEndsName(name: string, geo: string)
    requires !Contains(name, NameSeparator)
    ensures Find(name + NameSeparator + geo, NameSeparator) == Some(|name|)
  {
    if name != [] {
      ContainsChar(name, ':');
    }
    FindAfterPrefix(name, NameSeparator, geo);
  }

  /** In `name:fields` with fields free of `:`, the last `:` is the one after the name. */
  lemma LastColonEndsName(name: string, geo: string)
    requires ':' !in geo
    ensures LastIndex(name + NameSeparator + geo, ':') == Some(|name|)
  {
    var item := name + NameSeparator + geo;
    assert item[|name|] == ':';
    assert item[|name| + 1..] == geo;
    LastOccurrence(item, ':', |name|);
  }

  /** A position holding `c` with no `c` after it is the one `LastIndex` reports. */
  lemma LastOccurrence(s: string, c: char, i: nat)
    requires i < |s| && s[i] == c && c !in s[i + 1..]
    ensures LastIndex(s, c) == Some(i)
  {
    var r := LastIndex(s, c);
    assert r.Some?;
  }

  /** An item carries `;;;` only if its title does, and ends in a digit. */
  lemma ItemShape(w: Window)
    requires Listable(w.name)
    ensures !Contains(FormatItem(w), ItemSeparator)
    ensures FormatItem(w) != [] && IsDigit(FormatItem(w)[|FormatItem(w)| - 1])
    ensures FormatItem(w)[|FormatItem(w)| - 1] !in ItemSeparator
    ensures !IsSpace(FormatItem(w)[0])
  {
    var geo := FormatGeometry(w.frame);
    FormatGeometryShape(w.frame);
    NotContainsConcat(w.name, NameSeparator + geo, ItemSeparator);
    assert FormatItem(w) == w.name + (NameSeparator + geo);
    var last := FormatItem(w)[|FormatItem(w)| - 1];
    assert last == geo[|geo| - 1];
    assert last != ';';
  }

  /** The items written for windows whose titles the cut carries are read back as those windows. */
  lemma {:induction false} ItemsRoundTrip(ws: seq<Window>, cut: NameCut)
    requires forall k :: 0 <= k < |ws| ==> Carried(ws[k].name, cut)
    ensures ParseItems(FormatItems(ws), cut) == Some(ws)
    decreases |ws|
  {
    if ws != [] {
      ItemsRoundTrip(ws[1..], cut);
      ItemThenRest(ws, cut);
    }
  }

  lemma ItemThenRest(ws: seq<Window>, cut: NameCut)
    requires ws != [] && Carried(ws[0].name, cut)
    ensures ParseItems(FormatItems(ws[1..]), cut) == Some(ws[1..]) ==> ParseItems(FormatItems(ws), cut) == Some(ws)
  {
    HeadAndTail(ws, cut);
    EntryThenRest(FormatItems(ws), ws, cut);
  }

  lemma HeadAndTail(ws: seq<Window>, cut: NameCut)
    requires ws != [] && Carried(ws[0].name, cut)
    ensures FormatItems(ws) != [] && ParseItem(FormatItems(ws)[0], cut) == Entry(ws[0])
    ensures FormatItems(ws)[1..] == FormatItems(ws[1..])
  {
    FirstItems(ws);
    ItemRoundTrip(ws[0], cut);
  }

  lemma FirstItems(ws: seq<Window>)
    requires ws != []
    ensures FormatItems(ws)[0] == FormatItem(ws[0]) && FormatItems(ws)[1..] == FormatItems(ws[1..])
  {
  }

  lemma EntryThenRest(items: seq<string>, ws: seq<Window>, cut: NameCut)
    requires items != [] && ws != []
    ensures ParseItem(items[0], cut) == Entry(ws[0]) && ParseItems(items[1..], cut) == Some(ws[1..])
            ==> ParseItems(items, cut) == Some(ws)
  {
    HeadThenTail(ws);
  }

  lemma HeadThenTail<T>(s: seq<T>)
    requires s != []
    ensures [s[0]] + s[1..] == s
  {
  }

  /** Splitting the written list on `;;;` gives back the written items. */
  lemma ItemsSplit(ws: seq<Window>)
    requires ws != [] && forall k :: 0 <= k < |ws| ==> Listable(ws[k].name)
    ensures Split(FormatWindows(ws), ItemSeparator) == FormatItems(ws)
  {
    ItemsShape(ws);
    SplitJoin(FormatItems(ws), ItemSeparator);
  }

  /** No written item holds `;;;` or ends in `;`, so the items are separable by `;;;`. */
  lemma ItemsShape(ws: seq<Window>)
    requires forall k :: 0 <= k < |ws| ==> Listable(ws[k].name)
    ensures Separable(FormatItems(ws), ItemSeparator)
  {
    ItemPieces(ws);
    SeparableByPieces(FormatItems(ws), ItemSeparator);
  }

  lemma ItemPieces(ws: seq<Window>)
    requires forall k :: 0 <= k < |ws| ==> Listable(ws[k].name)
    ensures forall k :: 0 <= k < |FormatItems(ws)| ==> !Contains(FormatItems(ws)[k], ItemSeparator)
    ensures forall k :: 0 <= k < |FormatItems(ws)| - 1 ==>
              FormatItems(ws)[k] == [] || FormatItems(ws)[k][|FormatItems(ws)[k]| - 1] !in ItemSeparator
  {
    var items := FormatItems(ws);
    forall k | 0 <= k < |items|
      ensures !Contains(items[k], ItemSeparator)
      ensures items[k] != [] && items[k][|items[k]| - 1] !in ItemSeparator
    {
      FormatItemsAt(ws, k);
      ItemShape(ws[k]);
    }
  }

  /** The written list neither starts nor ends with whitespace, so stripping keeps it. */
  lemma WindowsStripped(ws: seq<Window>)
    requires ws != [] && forall k :: 0 <= k < |ws| ==> Listable(ws[k].name)
    ensures Strip(FormatWindows(ws)) == FormatWindows(ws) && FormatWindows(ws) != ""
  {
    var items := FormatItems(ws);
    FormatItemsAt(ws, 0);
    FormatItemsAt(ws, |ws| - 1);
    ItemShape(ws[0]);
    ItemShape(ws[|ws| - 1]);
    JoinStripped(items, ItemSeparator);
  }

  lemma JoinStripped(parts: seq<string>, sep: string)
    requires |parts| >= 1 && parts[0] != [] && parts[|parts| - 1] != []
    requires !IsSpace(parts[0][0]) && !IsSpace(parts[|parts| - 1][|parts[|parts| - 1]| - 1])
    ensures Strip(Join(parts, sep)) == Join(parts, sep) && Join(parts, sep) != ""
  {
    JoinEnds(parts, sep);
    var out, last := Join(parts, sep), parts[|parts| - 1];
    assert out[0] == parts[0][0];
    assert out[|out| - 1] == last[|last| - 1];
  }

  /**
   * Round trip of the window list: for titles the cut carries, parsing what the AppleScript
   * produces yields the same windows in the same order.
   */
  lemma WindowsRoundTrip(ws: seq<Window>, cut: NameCut)
    requires forall k :: 0 <= k < |ws| ==> Carried(ws[k].name, cut)
    ensures ParseWindows(FormatWindows(ws), cut) == Some(ws)
  {
    if ws != [] {
      WindowsStripped(ws);
      ItemsSplit(ws);
      ItemsRoundTrip(ws, cut);
    }
  }

  /**
   * As written, the code cuts each item at its first `:`, so a title holding `:` never comes
   * back: what is read is at most the part of the title before its first `:`.
   */
  lemma ColonTitleNotReadBack(w: Window)
    requires Listable(w.name) && ':' in w.name
    ensures ParseItem(FormatItem(w), FirstColon) != Entry(w)
  {
    FormatGeometryShape(w.frame);
    FirstColonShortensName(w.name, FormatGeometry(w.frame));
  }

  lemma FirstColonShortensName(name: string, geo: string)
    requires Listable(name) && ':' in name
    requires geo != [] && !IsSpace(geo[|geo| - 1])
    ensures var p := ParseItem(name + NameSeparator + geo, FirstColon);
            p.Entry? ==> |p.window.name| < |name|
  {
    var item := name + NameSeparator + geo;
    ItemIsStripped(name, geo);
    var k :| 0 <= k < |name| && name[k] == ':';
    assert item[k] == name[k];
    assert item[k..k + 1] == NameSeparator;
    assert OccursAt(item, NameSeparator, k);
    var i := Find(item, NameSeparator).value;
    assert i <= k;
    NamedFieldsName(item[..i], ParseFields(item[i + 1..]));
  }

  lemma NamedFieldsName(name: string, fields: Fields)
    ensures var p := NamedFields(name, fields); p.Entry? ==> |p.window.name| <= |name|
  {
  }

  /**
   * As written, a title `p:q` whose part after its first `:` holds no `|` makes its item
   * malformed: cut at that `:`, the fields are `q:x`, `y`, `w` and `h`, and `int()` refuses `q:x`.
   */
  lemma ColonTitleMalformed(w: Window, p: string, q: string)
    requires w.name == p + NameSeparator + q
    requires Listable(w.name) && !Contains(p, NameSeparator) && '|' !in q
    ensures ParseItem(FormatItem(w), FirstColon) == Malformed
  {
    FormatGeometryShape(w.frame);
    ColonFieldsRefused(q, w.frame);
    FirstCutInTitle(p, q, FormatGeometry(w.frame));
  }

  lemma FirstCutInTitle(p: string, q: string, geo: string)
    requires Listable(p + NameSeparator + q) && geo != [] && !IsSpace(geo[|geo| - 1])
    requires !Contains(p, NameSeparator) && ParseFields(q + NameSeparator + geo) == NotAnInteger
    ensures ParseItem(p + NameSeparator + q + NameSeparator + geo, FirstColon) == Malformed
  {
    var rest := q + NameSeparator + geo;
    assert p == [] || p[0] == (p + NameSeparator + q)[0];
    assert rest[|rest| - 1] == geo[|geo| - 1];
    ItemIsStripped(p, rest);
    FirstCutMalformed(p, rest);
    Regroup(p, NameSeparator, q, geo);
  }

  lemma FirstCutMalformed(p: string, rest: string)
    requires Strip(p + NameSeparator + rest) == p + NameSeparator + rest
    requires !Contains(p, NameSeparator) && ParseFields(rest) == NotAnInteger
    ensures ParseItem(p + NameSeparator + rest, FirstColon) == Malformed
  {
    FirstColonEndsName(p, rest);
    AfterCut(p, NameSeparator, rest);
    CutGives(p + NameSeparator + rest, FirstColon, |p|, NotAnInteger);
  }

  lemma Regroup<T>(a: seq<T>, sep: seq<T>, b: seq<T>, c: seq<T>)
    ensures a + sep + b + sep + c == a + sep + (b + sep + c)
  {
  }

  lemma AfterCut<T>(a: seq<T>, sep: seq<T>, b: seq<T>)
    requires |sep| == 1
    ensures (a + sep + b)[|a| + 1..] == b
  {
  }

  /** A stripped item cut at `i` with the fields after the cut parsed as `fields`. */
  lemma CutGives(item: string, cut: NameCut, i: nat, fields: Fields)
    requires Strip(item) == item && CutPoint(item, cut) == Some(i)
    requires ParseFields(item[i + 1..]) == fields
    ensures ParseItem(item, cut) == NamedFields(item[..i], fields)
  {
  }

  /** `q:x|y|w|h` splits into four fields, and the first of them is not an integer. */
  lemma ColonFieldsRefused(q: string, g: Geometry)
    requires '|' !in q
    ensures ParseFields(q + NameSeparator + FormatGeometry(g)) == NotAnInteger
  {
    var x, y, w, h := FormatInt(g.x), FormatInt(g.y), FormatInt(g.width), FormatInt(g.height);
    FormatIntNoSeparators(g.x);
    FormatIntNoSeparators(g.y);
    FormatIntNoSeparators(g.width);
    FormatIntNoSeparators(g.height);
    var first := q + NameSeparator + x;
    var parts := [first, y, w, h];
    JoinFour(x, y, w, h, FieldSeparator);
    JoinFour(first, y, w, h, FieldSeparator);
    assert q + NameSeparator + FormatGeometry(g) == Join(parts, FieldSeparator);
    assert first[|first| - 1] == x[|x| - 1];
    forall k | 0 <= k < 4
      ensures !Contains(parts[k], FieldSeparator) && parts[k][|parts[k]| - 1] !in FieldSeparator
    {
      ContainsChar(parts[k], '|');
    }
    SplitJoin(parts, FieldSeparator);
    ColonNotInteger(first, |q|);
  }

  lemma Around<T>(s: seq<T>, k: nat)
    requires k < |s|
    ensures s == s[..k] + [s[k]] + s[k + 1..]
  {
  }

  /** A text with a `:` in it is not an integer for `int()`. */
  lemma ColonNotInteger(s: string, i: nat)
    requires i < |s| && s[i] == ':'
    ensures ParseInt(s) == None
  {
    assert !IsDigit(s[i]);
    if i >= 1 {
      assert s[1..][i - 1] == s[i];
    }
  }

  /**
   * As written, one such title anywhere in the window list makes `get_qq_windows` raise the
   * `ValueError`, which nothing catches.
   */
  lemma ColonTitleFailsList(ws: seq<Window>, k: nat, p: string, q: string)
    requires forall j :: 0 <= j < |ws| ==> Listable(ws[j].name)
    requires k < |ws| && ws[k].name == p + NameSeparator + q
    requires !Contains(p, NameSeparator) && '|' !in q
    ensures ParseWindows(FormatWindows(ws), FirstColon) == None
  {
    WindowsStripped(ws);
    ItemsSplit(ws);
    var items := FormatItems(ws);
    FormatItemsAt(ws, k);
    Around(items, k);
    ColonTitleMalformed(ws[k], p, q);
    MalformedItemFails(items[..k], items[k], items[k + 1..], FirstColon);
  }

  /** The window `a:b` at 1, 2, 3, 4 alone is enough: its item is `a:b:1|2|3|4` and `int("b:1")` fails. */
  lemma ColonTitleExample()
    ensures ParseWindows(FormatWindows([Window("a:b", Geometry(1, 2, 3, 4))]), FirstColon) == None
  {
    var name := "a:b";
    assert name == "a" + NameSeparator + "b";
    ContainsChar("a", ':');
    ContainsChar(name, ';');
    assert !Contains(name, ItemSeparator);
    ColonTitleFailsList([Window(name, Geometry(1, 2, 3, 4))], 0, "a", "b");
  }

  /**
   * Cut at the last `:` instead, every listable title comes back, `:` or not: the fields
   * after the cut never hold a `:`.
   */
  lemma TitlesWithColonRoundTrip(ws: seq<Window>)
    requires forall k :: 0 <= k < |ws| ==> Listable(ws[k].name)
    ensures ParseWindows(FormatWindows(ws), LastColon) == Some(ws)
  {
    WindowsRoundTrip(ws, LastColon);
  }

  /** An output that is empty or only whitespace is the empty window list. */
  lemma BlankOutputIsEmptyList(stdout: string, cut: NameCut)
    requires forall k :: 0 <= k < |stdout| ==> IsSpace(stdout[k])
    ensures ParseWindows(stdout, cut) == Some([])
  {
    StripBlank(stdout);
  }

  /** An item without `:` contributes nothing, wherever it stands in the list. */
  lemma ItemWithoutColonSkipped(raw: string, cut: NameCut)
    requires !Contains(raw, NameSeparator)
    ensures ParseItem(raw, cut) == Skipped
  {
    ContainsChar(raw, ':');
    StripKeepsOut(raw, ':');
  }

  /** An item whose fields after the cut are not exactly four contributes nothing. */
  lemma WrongFieldCountSkipped(raw: string, cut: NameCut, i: nat)
    requires CutPoint(Strip(raw), cut) == Some(i)
    requires |Split(Strip(raw)[i + 1..], FieldSeparator)| != 4
    ensures ParseItem(raw, cut) == Skipped
  {
  }

  /** One item with four fields of which one is not an integer makes the whole list fail. */
  lemma MalformedItemFails(before: seq<string>, raw: string, after: seq<string>, cut: NameCut)
    requires ParseItem(raw, cut) == Malformed
    ensures ParseItems(before + [raw] + after, cut) == None
  {
    MalformedEndsLoop(before, raw, after, ItemParser(cut));
  }

  /** Skipped items can be removed from anywhere in the list without changing the result. */
  lemma SkippedItemIgnored(before: seq<string>, raw: string, after: seq<string>, cut: NameCut)
    requires ParseItem(raw, cut) == Skipped
    ensures ParseItems(before + [raw] + after, cut) == ParseItems(before + after, cut)
  {
    SkippedLeavesLoop(before, raw, after, ItemParser(cut));
  }

  lemma {:induction false} MalformedEndsLoop(before: seq<string>, raw: string, after: seq<string>,
                                             parse: string -> ItemParse)
    requires parse(raw) == Malformed
    ensures Collect(before + [raw] + after, parse) == None
    decreases |before|
  {
    var whole := before + [raw] + after;
    if before == [] {
      assert whole[0] == raw;
    } else {
      assert whole[0] == before[0];
      assert whole[1..] == before[1..] + [raw] + after;
      MalformedEndsLoop(before[1..], raw, after, parse);
    }
  }

  lemma {:induction false} SkippedLeavesLoop(before: seq<string>, raw: string, after: seq<string>,
                                             parse: string -> ItemParse)
    requires parse(raw) == Skipped
    ensures Collect(before + [raw] + after, parse) == Collect(before + after, parse)
    decreases |before|
  {
    var whole, kept := before + [raw] + after, before + after;
    if before == [] {
      assert whole[0] == raw && whole[1..] == after && kept == after;
    } else {
      assert whole[0] == kept[0];
      assert whole[1..] == before[1..] + [raw] + after;
      assert kept[1..] == before[1..] + after;
      SkippedLeavesLoop(before[1..], raw, after, parse);
    }
  }


  /** The badge reads back the count written as text. */
  lemma BadgeRoundTrip(n: int)
    ensures ParseBadge(FormatInt(n)) == n
  {
    FormatIntNoSeparators(n);
    ParseFormat(n);
  }

  /** A badge text that is not an integer (such as an empty output) counts as 0. */
  lemma BadgeFallback(stdout: string)
    requires ParseInt(Strip(stdout)) == None
    ensures ParseBadge(stdout) == 0
  {
  }
}
