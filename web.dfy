/**
 * The web backend (`QQWebAutomation`): a browser page whose address and whose history of
 * lookups and input actions change as the operations run. Which selectors match on the page,
 * and whether a click on a match goes through, are inputs.
 */
module Web {
  import opened Wrappers
  import opened Reports
  import opened Text
  import opened Locator

  const QQWebUrl: string := "https://im.qq.com/index/"
  const QQHost: string := "qq.com"

  const LoginSelectors: seq<string> := [".recent-chat-list", ".chat-list", ".sidebar",
                                         "[class*='avatar']", "[class*='contact']", "[class*='session']"]
  const SearchSelectors: seq<string> := ["input[placeholder*='搜索']", "input[type='search']",
                                          ".search-input input", "[class*='search'] input",
                                          "input[placeholder*='Search']"]
  const InputSelectors: seq<string> := ["[contenteditable='true']", ".chat-input [contenteditable]",
                                         "[class*='editor'] [contenteditable]", "div[role='textbox']",
                                         ".ql-editor", "textarea"]

  /** The selectors tried for the first search result of `name`. */
  function ResultSelectors(name: string): seq<string> {
    ["text=" + name, ".search-result-item:first-child", "[class*='search-result'] >> nth=0"]
  }

  const NoSearchBoxError: string := "未找到搜索框"
  const NoResultError: string := "未找到搜索结果"
  const NoInputError: string := "未找到消息输入框"

  /** What the page is asked to do. */
  datatype WebAction =
    | Goto(url: string)                 // `page.goto`
    | Lookup(selector: string)          // `page.wait_for_selector`
    | Click(selector: string)           // `click` on the element found for the selector
    | Fill(selector: string, text: string)
    | Type(text: string)                // `page.keyboard.type`
    | Press(key: string)                // `page.keyboard.press`

  function Lookups(selectors: seq<string>): (r: seq<WebAction>)
    ensures |r| == |selectors|
    ensures forall k :: 0 <= k < |r| ==> r[k] == Lookup(selectors[k])
    decreases |selectors|
  {
    if selectors == [] then [] else [Lookup(selectors[0])] + Lookups(selectors[1..])
  }

  /** The selectors looked up in `trace`, in the order of the lookups. */
  function LookedUp(trace: seq<WebAction>): seq<string>
    decreases |trace|
  {
    if trace == [] then []
    else (if trace[0].Lookup? then [trace[0].selector] else []) + LookedUp(trace[1..])
  }

  lemma {:induction false} LookedUpAppend(a: seq<WebAction>, b: seq<WebAction>)
    ensures LookedUp(a + b) == LookedUp(a) + LookedUp(b)
    decreases |a|
  {
    if a != [] {
      assert (a + b)[0] == a[0];
      assert (a + b)[1..] == a[1..] + b;
      LookedUpAppend(a[1..], b);
      var h := if a[0].Lookup? then [a[0].selector] else [];
      assert h + (LookedUp(a[1..]) + LookedUp(b)) == (h + LookedUp(a[1..])) + LookedUp(b);
    } else {
      assert a + b == b;
    }
  }

  /** The actions for one tried result selector: its lookup, then a click when it matched. */
  function TryResult(selector: string, present: string -> bool): seq<WebAction> {
    [Lookup(selector)] + (if present(selector) then [Click(selector)] else [])
  }

  /** The result loop: every tried selector is looked up, in order, and only lookups and clicks happen. */
  function ResultAttempts(selectors: seq<string>, present: string -> bool): (r: seq<WebAction>)
    ensures LookedUp(r) == selectors
    ensures forall a :: a in r ==> a.Lookup? || a.Click?
    ensures r != [] ==> r[0].Lookup?
    decreases |selectors|
  {
    if selectors == [] then []
    else
      var head := TryResult(selectors[0], present);
      var rest := ResultAttempts(selectors[1..], present);
      LookedUpAppend(head, rest);
      assert LookedUp(head) == [selectors[0]] by {
        assert head[1..] == [] || head[1..] == [Click(selectors[0])];
      }
      head + rest
  }

  /** Every click in `trace` comes right after the lookup of its own selector. */
  predicate ClicksFollowLookups(trace: seq<WebAction>) {
    forall k :: 0 < k < |trace| && trace[k].Click? ==> trace[k - 1] == Lookup(trace[k].selector)
  }

  /** A lookup in `trace` is followed by a click on its selector exactly when `present` holds of it. */
  predicate ClickedWhenPresent(trace: seq<WebAction>, present: string -> bool) {
    forall k :: 0 <= k < |trace| ==> ClickedAt(trace, present, k)
  }

  predicate ClickedAt(trace: seq<WebAction>, present: string -> bool, k: nat)
    requires k < |trace|
  {
    trace[k].Lookup? ==>
      (present(trace[k].selector) <==> k + 1 < |trace| && trace[k + 1] == Click(trace[k].selector))
  }

  /** In the result loop every click comes right after the lookup of its own selector. */
  lemma {:induction false} ClickFollowsLookup(selectors: seq<string>, present: string -> bool)
    ensures ClicksFollowLookups(ResultAttempts(selectors, present))
    decreases |selectors|
  {
    if selectors != [] {
      var head := TryResult(selectors[0], present);
      var rest := ResultAttempts(selectors[1..], present);
      ClickFollowsLookup(selectors[1..], present);
      assert ClicksFollowLookups(rest);
      var r := head + rest;
      assert r == ResultAttempts(selectors, present);
      forall k | 0 < k < |r| && r[k].Click? ensures r[k - 1] == Lookup(r[k].selector) {
        if k > |head| {
          var j := k - |head|;
          assert r[k - 1] == rest[j - 1] && r[k] == rest[j];
        } else if k < |head| {
          assert r[0] == head[0] && r[1] == head[1];
        }
      }
    }
  }

  /** In the result loop a lookup is followed by a click on its selector exactly when that selector matched. */
  lemma {:induction false} ClickExactlyWhenPresent(selectors: seq<string>, present: string -> bool)
    ensures ClickedWhenPresent(ResultAttempts(selectors, present), present)
    decreases |selectors|
  {
    if selectors != [] {
      var head := TryResult(selectors[0], present);
      var rest := ResultAttempts(selectors[1..], present);
      ClickExactlyWhenPresent(selectors[1..], present);
      assert ClickedWhenPresent(rest, present);
      var r := head + rest;
      assert r == ResultAttempts(selectors, present);
      forall k | 0 <= k < |r| ensures ClickedAt(r, present, k) {
        if k >= |head| {
          var j := k - |head|;
          assert r[k] == rest[j] && ClickedAt(rest, present, j);
          assert k + 1 < |r| ==> r[k + 1] == rest[j + 1];
        } else {
          assert r[k] == head[k];
          if k == 1 {
            assert r[1] == head[1];
          } else if present(selectors[0]) {
            assert r[1] == head[1] == Click(selectors[0]);
          } else if 1 < |r| {
            assert r[1] == rest[0] && rest[0].Lookup?;
          }
        }
      }
    }
  }

  /** A result counts as opened when it matches and its click goes through. */
  function Both(present: string -> bool, clicks: string -> bool): string -> bool {
    s => present(s) && clicks(s)
  }

  /** The landing address is on the QQ host, so navigating there settles the navigation check. */
  lemma LandingIsQQ()
    ensures Contains(QQWebUrl, QQHost)
  {
    assert OccursAt(QQWebUrl, QQHost, 11);
  }

  datatype WebSearchResult = WebSearchResult(success: bool, name: string, error: Option<string>)

  datatype WebSendResult = WebSendResult(success: bool, message: string, dryRun: bool,
                                         status: Option<Status>, error: Option<string>)

  /** The navigation `navigate_to_qq` issues from a page at `url`. */
  function Navigation(url: string): seq<WebAction> {
    if Contains(url, QQHost) then [] else [Goto(QQWebUrl)]
  }

  class Browser {
    /** `self.page.url` */
    var url: string
    /** Everything asked of the page so far, oldest first. */
    var trace: seq<WebAction>

    constructor(start: string)
      ensures url == start && trace == []
    {
      url := start;
      trace := [];
    }

    /** `navigate_to_qq`: go to the landing page unless the page is already on the QQ host. */
    method NavigateToQQ()
      modifies this
      ensures trace == old(trace) + Navigation(old(url))
      ensures url == (if Contains(old(url), QQHost) then old(url) else QQWebUrl)
      ensures Contains(url, QQHost)
    {
      if !Contains(url, QQHost) {
        trace := trace + [Goto(QQWebUrl)];
        url := QQWebUrl;
        LandingIsQQ();
      }
    }

    /**
     * `check_login`: logged in exactly when one of the markers matches; they are tried in
     * order and the first match ends the search. Nothing is raised.
     */
    method CheckLogin(present: string -> bool) returns (loggedIn: bool)
      modifies this
      ensures loggedIn <==> exists k :: 0 <= k < |LoginSelectors| && present(LoginSelectors[k])
      ensures trace == old(trace) + Lookups(Tried(LoginSelectors, FirstHit(LoginSelectors, present)))
      ensures url == old(url)
    {
      var hit, tried := Resolve(LoginSelectors, present);
      trace := trace + Lookups(tried);
      loggedIn := hit.Some?;
    }

    /**
     * `search_contact` (web). `searchPage` tells which selectors match before typing,
     * `resultPage` which match once the name is typed, and `clicks` which of those accept a click.
     */
    method SearchContact(name: string, searchPage: string -> bool, resultPage: string -> bool,
                         clicks: string -> bool)
      returns (result: WebSearchResult)
      modifies this
      ensures result.name == name
      ensures Contains(url, QQHost)
      ensures var box := FirstHit(SearchSelectors, searchPage);
              var pick := FirstHit(ResultSelectors(name), Both(resultPage, clicks));
              && (box.None? ==> result == WebSearchResult(false, name, Some(NoSearchBoxError))
                                && trace == old(trace) + Navigation(old(url)) + Lookups(SearchSelectors))
              && (box.Some? ==>
                    var sel := SearchSelectors[box.value];
                    && trace == old(trace) + Navigation(old(url)) + Lookups(Tried(SearchSelectors, box))
                                + [Click(sel), Fill(sel, name)]
                                + ResultAttempts(Tried(ResultSelectors(name), pick), resultPage)
                    && (result.success <==> pick.Some?)
                    && (pick.None? ==> result.error == Some(NoResultError)))
      ensures result.success <==> result.error.None?
    {
      result := WebSearchResult(false, name, None);
      NavigateToQQ();
      var box, triedBoxes := Resolve(SearchSelectors, searchPage);
      trace := trace + Lookups(triedBoxes);
      if box.None? {
        result := result.(error := Some(NoSearchBoxError));
        return;
      }
      var sel := SearchSelectors[box.value];
      trace := trace + [Click(sel), Fill(sel, name)];
      var pick, triedResults := Resolve(ResultSelectors(name), Both(resultPage, clicks));
      trace := trace + ResultAttempts(triedResults, resultPage);
      if pick.Some? {
        result := result.(success := true);
      } else {
        result := result.(error := Some(NoResultError));
      }
    }

    /**
     * `send_message` (web): find the input, click it, clear it, type the message, and press
     * Enter unless this is a dry run. `page` tells which input selectors match.
     */
    method SendMessage(message: string, dryRun: bool, page: string -> bool) returns (result: WebSendResult)
      modifies this
      ensures result.message == message && result.dryRun == dryRun
      ensures Contains(url, QQHost)
      ensures var input := FirstHit(InputSelectors, page);
              && (input.None? ==> result == WebSendResult(false, message, dryRun, None, Some(NoInputError))
                                  && trace == old(trace) + Navigation(old(url)) + Lookups(InputSelectors))
              && (input.Some? ==>
                    var sel := InputSelectors[input.value];
                    && trace == old(trace) + Navigation(old(url)) + Lookups(Tried(InputSelectors, input))
                                + [Click(sel), Fill(sel, ""), Type(message)]
                                + (if dryRun then [] else [Press("Enter")])
                    && result.success && result.error.None?
                    && result.status == Some(if dryRun then TypedNotSent else Sent))
    {
      result := WebSendResult(false, message, dryRun, None, None);
      NavigateToQQ();
      var input, tried := Resolve(InputSelectors, page);
      trace := trace + Lookups(tried);
      if input.None? {
        result := result.(error := Some(NoInputError));
        return;
      }
      var sel := InputSelectors[input.value];
      trace := trace + [Click(sel), Fill(sel, ""), Type(message)];
      if dryRun {
        result := result.(success := true, status := Some(TypedNotSent));
        return;
      }
      trace := trace + [Press("Enter")];
      result := result.(success := true, status := Some(Sent));
    }
  }
}
