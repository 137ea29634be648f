/**
 * The text operations the window-list parser rests on: Python's `t in s`, `s.split(sep)`
 * and `s.strip()`; `Find`, the cut that `s.split(sep, 1)` makes at the first occurrence; and
 * `Join`, the text AppleScript builds from a list with its text item delimiters (the producer
 * side of the format).
 */
module Text {
  import opened Wrappers

  /** The characters Python's `str.strip()` removes (those for which `str.isspace()` holds). */
  predicate IsSpace(c: char) {
    c == ' ' || ('\t' <= c <= '\r') || ('\U{1C}' <= c <= '\U{1F}') || c == '\U{85}' || c == '\U{A0}'
    || c == '\U{1680}' || ('\U{2000}' <= c <= '\U{200A}') || c == '\U{2028}' || c == '\U{2029}'
    || c == '\U{202F}' || c == '\U{205F}' || c == '\U{3000}'
  }

  /** `t` occurs in `s` starting at position `i`. */
  predicate OccursAt(s: string, t: string, i: nat) {
    i + |t| <= |s| && s[i..i + |t|] == t
  }

  /** The least position at or after `start` where `t` occurs. */
  function FindFrom(s: string, t: string, start: nat): (r: Option<nat>)
    ensures r.Some? ==> start <= r.value && OccursAt(s, t, r.value)
    ensures r.Some? ==> forall j :: start <= j < r.value ==> !OccursAt(s, t, j)
    ensures r.None? ==> forall j :: start <= j ==> !OccursAt(s, t, j)
    decreases |s| - start
  {
    if start + |t| > |s| then None
    else if s[start..start + |t|] == t then Some(start)
    else FindFrom(s, t, start + 1)
  }

  /** The least position where `t` occurs in `s` (Python's `s.find(t)`, with `None` for -1). */
  function Find(s: string, t: string): (r: Option<nat>)
    ensures r.Some? ==> OccursAt(s, t, r.value) && forall j :: 0 <= j < r.value ==> !OccursAt(s, t, j)
    ensures r.None? ==> forall j :: !OccursAt(s, t, j)
  {
    FindFrom(s, t, 0)
  }

  /** Python's substring test `t in s`. */
  function Contains(s: string, t: string): (b: bool)
    ensures b <==> exists i :: OccursAt(s, t, i)
  {
    var r := Find(s, t);
    assert r.Some? ==> OccursAt(s, t, r.value);
    r.Some?
  }

  /** A one-character needle occurs exactly when that character is an element. */
  lemma ContainsChar(s: string, c: char)
    ensures Contains(s, [c]) <==> c in s
  {
    if c in s {
      var i: nat :| i < |s| && s[i] == c;
      assert OccursAt(s, [c], i);
    }
    if Contains(s, [c]) {
      var i: nat :| OccursAt(s, [c], i);
      assert s[i] == s[i..i + 1][0];
    }
  }

  /** If the last character of `t` never occurs in `b`, no occurrence of `t` in `a + b` reaches into `b`. */
  lemma NotContainsConcat(a: string, b: string, t: string)
    requires t != [] && !Contains(a, t) && t[|t| - 1] !in b
    ensures !Contains(a + b, t)
  {
    forall i: nat ensures !OccursAt(a + b, t, i) {
      if i + |t| <= |a| {
        assert (a + b)[i..i + |t|] == a[i..i + |t|];
        assert !OccursAt(a, t, i);
      } else if i + |t| <= |a + b| {
        assert (a + b)[i + |t| - 1] == b[i + |t| - 1 - |a|];
      }
    }
  }

  /**
   * The first occurrence of `sep` in `p + sep + rest` is the one right after `p`, provided `p`
   * has none of its own and does not end in a character of `sep` (which could start an earlier match).
   */
  lemma FindAfterPrefix(p: string, sep: string, rest: string)
    requires sep != [] && !Contains(p, sep)
    requires p == [] || p[|p| - 1] !in sep
    ensures Find(p + sep + rest, sep) == Some(|p|)
  {
    var s := p + sep + rest;
    assert s[|p|..|p| + |sep|] == sep;
    assert OccursAt(s, sep, |p|);
    forall j: nat | j < |p| ensures !OccursAt(s, sep, j) {
      if j + |sep| <= |p| {
        assert s[j..j + |sep|] == p[j..j + |sep|];
        assert !OccursAt(p, sep, j);
      } else {
        assert s[|p| - 1] == p[|p| - 1];
      }
    }
  }

  /** The pieces with `sep` between neighbours, as AppleScript's text item delimiters join a list. */
  function Join(parts: seq<string>, sep: string): string
  {
    if |parts| == 0 then ""
    else if |parts| == 1 then parts[0]
    else parts[0] + sep + Join(parts[1..], sep)
  }

  /**
   * Python's `s.split(sep)` for a non-empty separator: the pieces between successive leftmost
   * occurrences; joining them back with `sep` gives `s`, no piece contains `sep`, and each cut
   * is at the first occurrence of `sep` after the previous one.
   */
  function Split(s: string, sep: string): (parts: seq<string>)
    requires sep != []
    ensures |parts| >= 1
    ensures Join(parts, sep) == s
    ensures forall k :: 0 <= k < |parts| ==> !Contains(parts[k], sep)
    ensures forall k :: 0 <= k < |parts| - 1 ==> Find(parts[k] + sep, sep) == Some(|parts[k]|)
    decreases |s|
  {
    match Find(s, sep)
    case None => [s]
    case Some(i) =>
      var head, tail := s[..i], s[i + |sep|..];
      CutAtFirst(s, sep, i);
      [head] + Split(tail, sep)
  }

  /** At the first occurrence of `sep`, `s` is a piece free of `sep`, then `sep`, then the rest. */
  lemma CutAtFirst(s: string, sep: string, i: nat)
    requires sep != [] && Find(s, sep) == Some(i)
    ensures !Contains(s[..i], sep)
    ensures s == s[..i] + sep + s[i + |sep|..]
    ensures Find(s[..i] + sep, sep) == Some(i)
  {
    var head := s[..i];
    assert s[i..i + |sep|] == sep;
    forall j: nat | OccursAt(head, sep, j) ensures false {
      assert s[j..j + |sep|] == head[j..j + |sep|];
      assert OccursAt(s, sep, j);
    }
    FirstCutIsFirst(s, sep, i);
  }

  lemma FirstCutIsFirst(s: string, sep: string, i: nat)
    requires sep != [] && Find(s, sep) == Some(i)
    ensures Find(s[..i] + sep, sep) == Some(i)
  {
    var t := s[..i] + s[i..i + |sep|];
    assert t == s[..i + |sep|];
    forall j: nat | j < i ensures !OccursAt(t, sep, j) {
      assert !OccursAt(s, sep, j);
      assert t[j..j + |sep|] == s[j..j + |sep|];
    }
    assert t[i..i + |sep|] == sep;
    FirstOccurrence(t, sep, i);
  }

  /** An occurrence with none before it is the one `Find` reports. */
  lemma FirstOccurrence(s: string, t: string, i: nat)
    requires OccursAt(s, t, i) && forall j: nat :: j < i ==> !OccursAt(s, t, j)
    ensures Find(s, t) == Some(i)
  {
    var r := Find(s, t);
    assert r.Some?;
    assert !(r.value < i) && !(i < r.value);
  }

  /** No piece contains the separator, and no piece but the last ends in one of its characters. */
  predicate Separable(parts: seq<string>, sep: string)
  {
    && (forall k :: 0 <= k < |parts| ==> !Contains(parts[k], sep))
    && (forall k :: 0 <= k < |parts| - 1 ==> parts[k] == [] || parts[k][|parts[k]| - 1] !in sep)
  }

  lemma SeparableByPieces(parts: seq<string>, sep: string)
    requires forall k :: 0 <= k < |parts| ==> !Contains(parts[k], sep)
    requires forall k :: 0 <= k < |parts| - 1 ==> parts[k] == [] || parts[k][|parts[k]| - 1] !in sep
    ensures Separable(parts, sep)
  {
  }

  /** Splitting undoes joining when no piece contains the separator or can run into it. */
  lemma {:induction false} SplitJoin(parts: seq<string>, sep: string)
    requires sep != [] && |parts| >= 1
    requires Separable(parts, sep)
    ensures Split(Join(parts, sep), sep) == parts
    decreases |parts|
  {
    if |parts| == 1 {
      assert Find(parts[0], sep).None?;
    } else {
      var p, rest := parts[0], Join(parts[1..], sep);
      FindAfterPrefix(p, sep, rest);
      assert (p + sep + rest)[|p| + |sep|..] == rest;
      assert (p + sep + rest)[..|p|] == p;
      SplitJoin(parts[1..], sep);
      assert [p] + parts[1..] == parts;
    }
  }

  /** The first piece starts the joined text and the last piece ends it. */
  lemma {:induction false} JoinEnds(parts: seq<string>, sep: string)
    requires |parts| >= 1
    ensures |Join(parts, sep)| >= |parts[0]| && Join(parts, sep)[..|parts[0]|] == parts[0]
    ensures |Join(parts, sep)| >= |parts[|parts| - 1]|
    ensures Join(parts, sep)[|Join(parts, sep)| - |parts[|parts| - 1]|..] == parts[|parts| - 1]
    decreases |parts|
  {
    if |parts| > 1 {
      JoinEnds(parts[1..], sep);
      var j := Join(parts[1..], sep);
      var whole := parts[0] + sep + j;
      assert whole[..|parts[0]|] == parts[0];
      assert whole[|whole| - |j|..] == j;
      var last := parts[|parts| - 1];
      assert last == parts[1..][|parts[1..]| - 1];
      assert whole[|whole| - |last|..] == j[|j| - |last|..];
    }
  }

  /** Python's `s.lstrip()`: drops the leading whitespace and nothing else. */
  function TrimLeft(s: string): (r: string)
    ensures |r| <= |s| && r == s[|s| - |r|..]
    ensures r == [] || !IsSpace(r[0])
    ensures forall k :: 0 <= k < |s| - |r| ==> IsSpace(s[k])
    decreases |s|
  {
    if s != [] && IsSpace(s[0]) then
      var r := TrimLeft(s[1..]);
      assert s[1..][|s| - 1 - |r|..] == s[|s| - |r|..];
      assert forall k :: 0 <= k < |s| - 1 - |r| ==> s[1..][k] == s[k + 1];
      r
    else s
  }

  /** Python's `s.rstrip()`: drops the trailing whitespace and nothing else. */
  function TrimRight(s: string): (r: string)
    ensures |r| <= |s| && r == s[..|r|]
    ensures r == [] || !IsSpace(r[|r| - 1])
    ensures forall k :: |r| <= k < |s| ==> IsSpace(s[k])
    decreases |s|
  {
    if s != [] && IsSpace(s[|s| - 1]) then
      var r := TrimRight(s[..|s| - 1]);
      assert s[..|s| - 1][..|r|] == s[..|r|];
      assert forall k :: |r| <= k < |s| - 1 ==> s[..|s| - 1][k] == s[k];
      r
    else s
  }

  /**
   * Python's `s.strip()`: the middle part of `s` left once the whitespace at both ends is
   * removed; it neither starts nor ends with whitespace, and a text already of that shape is
   * returned unchanged.
   */
  function Strip(s: string): (r: string)
    ensures exists i: nat :: TrimmedAt(s, r, i)
    ensures r == [] || (!IsSpace(r[0]) && !IsSpace(r[|r| - 1]))
    ensures (s == [] || (!IsSpace(s[0]) && !IsSpace(s[|s| - 1]))) ==> r == s
  {
    TrimBothEnds(s);
    TrimRight(TrimLeft(s))
  }

  lemma TrimBothEnds(s: string)
    ensures TrimmedAt(s, TrimRight(TrimLeft(s)), |s| - |TrimLeft(s)|)
  {
    var l := TrimLeft(s);
    PrefixOfSuffix(s, l, TrimRight(l));
  }

  /** A prefix `r` of a suffix `l` of `s` sits in `s` right where `l` starts. */
  lemma PrefixOfSuffix(s: string, l: string, r: string)
    requires |l| <= |s| && l == s[|s| - |l|..] && |r| <= |l| && r == l[..|r|]
    requires forall k :: 0 <= k < |s| - |l| ==> IsSpace(s[k])
    requires forall k :: |r| <= k < |l| ==> IsSpace(l[k])
    ensures TrimmedAt(s, r, |s| - |l|)
  {
    var i := |s| - |l|;
    SliceOfSuffix(s, i, |r|);
    forall k | i + |r| <= k < |s| ensures IsSpace(s[k]) {
      assert s[k] == l[k - i];
    }
  }

  /** `r` is what is left of `s` once whitespace is cut off before position `i` and after `r`. */
  predicate TrimmedAt(s: string, r: string, i: nat) {
    && i + |r| <= |s| && r == s[i..i + |r|]
    && (forall k :: 0 <= k < i ==> IsSpace(s[k]))
    && (forall k :: i + |r| <= k < |s| ==> IsSpace(s[k]))
  }

  lemma SliceOfSuffix(s: string, i: nat, n: nat)
    requires i + n <= |s|
    ensures s[i..][..n] == s[i..i + n]
  {
  }

  /** A character that does not occur in `s` does not occur in `Strip(s)`. */
  lemma StripKeepsOut(s: string, c: char)
    requires c !in s
    ensures c !in Strip(s)
  {
    var l := TrimLeft(s);
    NotInSlice(s, |s| - |l|, |s|, c);
    NotInSlice(l, 0, |TrimRight(l)|, c);
  }

  lemma NotInSlice(s: string, i: nat, j: nat, c: char)
    requires i <= j <= |s| && c !in s
    ensures c !in s[i..j]
  {
    forall x | x in s[i..j] ensures x != c {
      var k :| 0 <= k < j - i && s[i..j][k] == x;
      assert x == s[i + k];
    }
  }

  /** A text made only of whitespace strips to the empty text. */
  lemma StripBlank(s: string)
    requires forall k :: 0 <= k < |s| ==> IsSpace(s[k])
    ensures Strip(s) == []
  {
  }
}
