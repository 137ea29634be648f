# qq-auto-reply, modelled in Dafny

qq-auto-reply drives the QQ desktop client on macOS: AppleScript, the clipboard and
synthetic key presses. A second backend drives QQ's web page through a browser. This
project models the deterministic core under that plumbing and proves properties of it.

- `text.dfy` (module `Text`): the text operations the parsers rest on. These are
  Python's `t in s`, `s.split(sep)` and `s.strip()` with Python's whitespace set;
  `Find`, the cut `s.split(sep, 1)` makes at the first occurrence of `sep`; and `Join`,
  the text AppleScript builds from a list with its text item delimiters.
- `decimal.dfy` (module `Decimal`): integers written as decimal text by AppleScript's
  `as text`, and read back by `int()`.
- `windows.dfy` (module `WindowList`): three parsers and one choice.
  - The window-list parser of `get_qq_windows` and its AppleScript producer
    (`name:x|y|w|h` items joined by `;;;`). The parser takes where it cuts an item into
    title and fields as a parameter: `FirstColon` is what the code does, `LastColon` the
    correction recorded under "Findings".
  - The geometry parser of `get_qq_window_info`.
  - The badge parser of `get_dock_badge`.
  - The choice of `find_chat_window`.
- `reports.dfy` (module `Reports`): the `status` both backends' `send_message` report.
- `keystroke.dfy` (module `Keystroke`): the AppleScript `send_keystroke` writes, and
  how it classifies the exit status of `osascript`.
- `desktop.dfy` (module `Desktop`): the desktop `send_message` and `search_contact`.
  Every adapter result is an input. Every effect on the desktop is recorded, in order,
  in an action trace.
- `monitor.dfy` (module `Monitor`): `monitor_chat`.
  - One poll is a function `Cycle` over the loop variables `known_windows`,
    `last_badge`, `reply_count` and `replied_windows`. It is built from `Process` (the
    loop over the new windows) and `Handle` (one window), and its properties are lemmas.
  - The class `Monitor` runs the same loop imperatively. Each of its methods is proved
    against those functions, and the class keeps a session invariant.
  - Python leaves the iteration order of the set of new windows unspecified. The
    methods pick names from the set with `:|` and report the order they used. Every
    lemma holds for any duplicate-free order.
- `locator.dfy` (module `Locator`): the ordered selector fallback of the web backend.
  Candidates are tried in list order, and only the first hit counts.
- `web.dfy` (module `Web`): the class `Browser`. It models the web backend's
  `navigate_to_qq`, `check_login`, `search_contact` and `send_message` over the page
  address and a trace of page operations.

Which selectors match, which clicks go through, which windows exist, what the badge says,
the exit status of every key press and the random jitter sample are all parameters.

## Model

| member | source | states |
|---|---|---|
| Text.Contains | qq_auto.py:399 | `t in s` holds exactly when `t` occurs in `s` at some position |
| Text.Find | qq_auto.py:400 | the position found is an occurrence with no occurrence before it, and there is none exactly when the text does not occur; this is where `split(":", 1)` cuts |
| Text.Split | qq_auto.py:397 | `split` on a non-empty separator gives at least one piece; joining the pieces with the separator gives back the input; no piece contains the separator; each cut is at the leftmost occurrence of the separator after the previous cut |
| Text.SplitJoin | qq_auto.py:397 | splitting a join gives the pieces back when no piece contains the separator and none can run into it at its end |
| Text.Strip | qq_auto.py:398 | `strip` removes only whitespace: what it leaves is a contiguous part of the input with nothing but whitespace before and after it; it leaves neither leading nor trailing whitespace; and it returns a text unchanged when neither its first nor its last character is whitespace |
| Text.StripKeepsOut | qq_auto.py:398-399 | a character absent from the item stays absent after `strip` |
| Text.StripBlank | qq_auto.py:83 | an all-whitespace output strips to the empty text |
| Decimal.FormatInt | qq_auto.py:387 | `n as text` is non-empty; it starts with `-` exactly when `n` is negative; every other character is a digit, and it ends in a digit |
| Decimal.ParseInt | qq_auto.py:405-408 | `int()` on a field: an optional sign and decimal digits give their value, anything else is the `ValueError`; `ParseFormat` states that it reads back what `FormatInt` writes |
| Decimal.ParseFormat | qq_auto.py:405-408 | `int()` reads back exactly the integer written as text, negative values included |
| WindowList.FieldsRoundTrip | qq_auto.py:401-408 | the four `|`-separated fields written for a geometry split into exactly four integers, which are that geometry |
| WindowList.ParseGeometry | qq_auto.py:161-171 | `get_qq_window_info` on the script output: nothing for an empty output or another field count than four, the `ValueError` for a field that is not an integer; `GeometryRoundTrip` states that it reads back what the script writes |
| WindowList.GeometryRoundTrip | qq_auto.py:161-171 | `get_qq_window_info` reads back the geometry its AppleScript returns |
| WindowList.FormatItems | qq_auto.py:379-388 | one `name:x|y|w|h` item per window, in window order; `ItemShape` and `ItemsSplit` state what the parser needs of them |
| WindowList.FormatWindows | qq_auto.py:389-390 | the items joined with `;;;`; `WindowsRoundTrip` states that the parser reads them back |
| WindowList.ParseWindows | qq_auto.py:394-410 | `get_qq_windows` on the script output, with `None` for the uncaught `ValueError`; its properties are the round-trip, skipping and failure lemmas below |
| WindowList.CutIsColon | qq_auto.py:399-400 | either cut falls on a `:`, and an item is cut exactly when it contains a `:` |
| WindowList.LastIndex | qq_auto.py:400 | the position found holds the character and no later position does; there is none exactly when the character does not occur |
| WindowList.FirstColonEndsName | qq_auto.py:400 | in `name:fields`, the first `:` is the one after a name without `:` |
| WindowList.LastColonEndsName | qq_auto.py:400 | in `name:fields` with fields free of `:`, the last `:` is the one after the name, whatever the name holds |
| WindowList.CutEndsName | qq_auto.py:400 | for a title the cut carries, the item is cut right after the title |
| WindowList.ItemShape | qq_auto.py:387 | an item for a title without `;;;` or surrounding whitespace contains no `;;;`, starts with no whitespace and ends in a digit, so neighbouring items cannot run into the separator |
| WindowList.ItemParsesAs | qq_auto.py:398-409 | a stripped `name:fields` item with a name the cut carries and four integer fields is read as that window |
| WindowList.ItemRoundTrip | qq_auto.py:398-409 | the item written for a window whose title the cut carries is read back as that window |
| WindowList.ItemsRoundTrip | qq_auto.py:397-410 | the items written for a list of such windows are read back as the same list, in the same order |
| WindowList.ItemsSplit | qq_auto.py:387-397 | splitting the joined output on `;;;` gives back exactly the items the producer wrote |
| WindowList.WindowsStripped | qq_auto.py:83 | a non-empty list output has nothing for `strip` to remove and is not empty |
| WindowList.WindowsRoundTrip | qq_auto.py:379-410 | for titles without `;;;` or surrounding whitespace, and without `:` when the cut is at the first `:` as in the code, `get_qq_windows` parses its producer's output back to the same windows in the same order; the empty list included |
| WindowList.BlankOutputIsEmptyList | qq_auto.py:394-396 | an empty or all-whitespace output is the empty window list |
| WindowList.ItemWithoutColonSkipped | qq_auto.py:398-399 | an item without `:` is skipped |
| WindowList.WrongFieldCountSkipped | qq_auto.py:401-402 | an item whose text after the cut does not split into exactly four fields is skipped |
| WindowList.MalformedItemFails | qq_auto.py:403-410 | an item with four fields of which one is not an integer makes the whole list fail, whatever surrounds it, because the `ValueError` is not caught |
| WindowList.ColonTitleNotReadBack | qq_auto.py:400 | with the cut at the first `:`, a window whose title contains `:` is never read back as itself |
| WindowList.ColonTitleMalformed | qq_auto.py:400-408 | with the cut at the first `:`, the item of a window titled `p:q`, with `p` free of `:` and `q` free of `|`, is cut inside the title; its first field is `q:x` and `int()` refuses it |
| WindowList.ColonTitleFailsList | qq_auto.py:394-410 | with the cut at the first `:`, one such window anywhere in a list of listable titles makes `get_qq_windows` fail on the output written for that list |
| WindowList.ColonTitleExample | qq_auto.py:394-410 | the list holding only the window `a:b` at 1, 2, 3, 4, written as `a:b:1|2|3|4`, fails to parse |
| WindowList.TitlesWithColonRoundTrip | qq_auto.py:379-410 | with the cut at the last `:`, every title without `;;;` or surrounding whitespace is read back, `:` included |
| WindowList.SkippedItemIgnored | qq_auto.py:397-402 | a skipped item can be removed from anywhere in the list without changing the parsed result |
| WindowList.BadgeRoundTrip | qq_auto.py:532-536 | the badge reads back the count written as text |
| WindowList.BadgeFallback | qq_auto.py:532-536 | a badge text that `int()` rejects counts as 0 |
| WindowList.ParseBadge | qq_auto.py:532-536 | `get_dock_badge` on the script output: its integer, or 0 when `int()` refuses it; `BadgeRoundTrip` and `BadgeFallback` state both cases |
| WindowList.FindChatWindow | qq_auto.py:413-420 | `None` exactly when every title is `""`, `"QQ"` or `"全网搜索"`; otherwise the first window in enumeration order whose title is none of them |
| Keystroke.Build | qq_auto.py:260-266 | the press is the return key exactly when the key is `return`; any other press keeps its key; command-down exactly when `command` is among the modifiers, other modifiers having no effect |
| Keystroke.ScriptLine | qq_auto.py:266-281 | the line of the script that performs the press; `KeyCodeExactlyForReturn` and `CommandDownExactlyForCommand` state its two choices |
| Keystroke.KeyCodeExactlyForReturn | qq_auto.py:266-281 | the script line starts with `key code 36` exactly when the key is `return` |
| Keystroke.CommandDownExactlyForCommand | qq_auto.py:260-281 | the script line ends with ` using command down` exactly when `command` is among the modifiers |
| Keystroke.Classify | qq_auto.py:287-290 | `PermissionError` exactly when the exit code is non-zero and `1002` occurs in the error output; otherwise the call returns whether the exit code is 0 |
| Desktop.InputFocus | qq_auto.py:323-342 | with a chat window found: raise that window, then click its input area; with none but a front-window geometry: one click in that geometry; with neither: no action; never a paste or return press |
| Desktop.PasteActions | qq_auto.py:293-298 | `paste_text`: the clipboard is set, then command-V is pressed; `SendMessage` states the order of these among the other actions |
| Desktop.SendMessage | qq_auto.py:301-370 | not running: no action and the error `QQ 未运行`; otherwise activate, focus, clipboard, command-V, in that order; return is pressed, as the last action, exactly when the paste went through outside a dry run; success exactly when the paste (and outside a dry run the return press) went through; `typed_not_sent` exactly for a successful dry run, `sent` exactly for a successful real send; each failure carries its own error; `chat_window` names the chat window when one was found |
| Desktop.SearchPoint | qq_auto.py:465-466 | the search click is horizontally centred in the panel (floor division) and 70 points below its top |
| Desktop.SearchContact | qq_auto.py:436-499 | the exact action sequence for each outcome; no panel geometry stops after activation with `无法获取 QQ 窗口信息`; success exactly when both key presses went through, whether or not a chat window then shows up; `chat_window` or the note `操作已执行但未检测到聊天窗口` on success, never both; a failure carries no note |
| Locator.FirstHit | qq_web.py:205-213 | the position returned is a hit with no hit before it; `None` exactly when no candidate hits |
| Locator.Resolve | qq_web.py:205-213 | the `for sel ... break` loop finds exactly the first hit, and the lookups it makes are the candidates up to and including that hit, or all candidates on a miss |
| Locator.FirstHitIsLeast | qq_web.py:206-211 | a hit with no hit before it is the first hit |
| Locator.LaterCandidatesIrrelevant | qq_web.py:206-211 | candidates after the first hit cannot change the outcome |
| Web.ResultAttempts | qq_web.py:233-244 | the result loop looks up every tried result selector, in order, and nothing else is looked up; it only looks up and clicks; it starts with a lookup |
| Web.ClickFollowsLookup | qq_web.py:235-237 | in the result loop every click comes right after the lookup of its own selector |
| Web.ClickExactlyWhenPresent | qq_web.py:235-237 | in the result loop a lookup is followed by a click on its selector exactly when that selector matched |
| Web.LandingIsQQ | qq_web.py:51 | the landing address `QQ_WEB_URL` that `navigate_to_qq` goes to (qq_web.py line 117) is on the `qq.com` host, so after the navigation the check of line 115 holds |
| Web.Navigation | qq_web.py:112-118 | the navigation `navigate_to_qq` issues: none when the address already contains `qq.com`, one `goto` to the landing page otherwise; `Browser.NavigateToQQ` states the address afterwards |
| Web.Browser.NavigateToQQ | qq_web.py:112-118 | a navigation to the landing page is issued exactly when `qq.com` is not in the current address; afterwards the address is on `qq.com` |
| Web.Browser.CheckLogin | qq_web.py:120-143 | logged in exactly when some login marker matches; the markers are looked up in order up to the first match; nothing is raised |
| Web.Browser.SearchContact | qq_web.py:189-248 | no search box: error `未找到搜索框` with only the lookups made and no click on a result; otherwise click and fill the first search box that matched, then try the result selectors in order, clicking each one that matches, until a click goes through; success exactly when one did; `未找到搜索结果` otherwise |
| Web.Browser.SendMessage | qq_web.py:250-308 | no input box: error `未找到消息输入框` and nothing typed; otherwise click, clear, then type into the first input that matched; Enter is pressed exactly when not a dry run; `typed_not_sent` for a dry run and `sent` otherwise |
| Monitor.ReplyDelay | qq_auto.py:633 | the wait is at least 1 and at least `delay + u`, and equal to one of them |
| Monitor.ReplyDelayBounds | qq_auto.py:633 | for `u` between `-jitter` and `jitter` the wait lies between `max(1, delay - jitter)` and `max(1, delay + jitter)` |
| Monitor.DefaultReplyDelay | qq_auto.py:542-543 | with the default delay 15 and jitter 5 a reply waits between 10 and 20 seconds |
| Monitor.NewWindows | qq_auto.py:592-596 | a name is new exactly when it is a current title, not known, and not `""`, `"QQ"` or `"全网搜索"` |
| Monitor.FirstNamed | qq_auto.py:641-645 | the window found for a name is an enumerated window with that title, and `None` exactly when no window has it |
| Monitor.FindNamed | qq_auto.py:641-645 | the `for ... break` loop finds exactly that window |
| Monitor.Attempt | qq_auto.py:631-678 | the reply attempt for one window: its event, its actions and whether it counts; `AttemptFacts` states its properties |
| Monitor.Handle | qq_auto.py:607-686 | one new window through the filters, the attempt and the stop check; `HandleFacts` and `HandleKeepsInv` state its properties |
| Monitor.Process | qq_auto.py:607-686 | the new windows in a given order until the loop returns; the `Process…` lemmas state its properties |
| Monitor.Cycle | qq_auto.py:584-690 | one pass of `while True`; the `Cycle…` lemmas state its properties |
| Monitor.AttemptFacts | qq_auto.py:631-678 | one attempt: the event is for the window; a reply is counted exactly when an automatic reply is set and no error was recorded, which is exactly when the event records a paste; `replied` exactly when an automatic reply is set outside a dry run, a window has the title, and neither the paste nor the return press raised `PermissionError`, and then return is the last action; return is pressed exactly when an automatic reply is set outside a dry run, a window has the title and the paste raised no `PermissionError`; no automatic reply means no action and a plain event; a closed window is reported exactly when no window has the title |
| Monitor.HandleFacts | qq_auto.py:607-686 | one window: `known_windows` and `last_badge` untouched; one event exactly when the window passes the target filter and was not replied to; `replied_windows` gains the name exactly when the event records a paste; the count grows by the names added; the loop returns only after an event that meets the stop condition |
| Monitor.HandleEvent | qq_auto.py:612-629 | at most one event per window, for that window, and only when it passes the filters |
| Monitor.ProcessFrame | qq_auto.py:607-686 | the loop over the new windows leaves `known_windows` and `last_badge` alone; it only adds names from the order to `replied_windows` and counts one reply per added name; it returns only right after an event that met the stop condition |
| Monitor.ProcessEvents | qq_auto.py:607-682 | every event is for a name of the order that contains the target and was not replied to before |
| Monitor.ProcessDryRun | qq_auto.py:659-668 | in a dry run no event says `replied` and return is never pressed |
| Monitor.ProcessBudget | qq_auto.py:670-686 | with a positive `max_replies` not yet reached, the count never passes it and the loop returns exactly when the count reaches it |
| Monitor.ProcessStoppedExtension | qq_auto.py:684-686 | once the loop has returned, the windows still to come make no difference |
| Monitor.NegativeLimitStopsAtFirstEvent | qq_auto.py:684-686 | a negative `max_replies` (truthy, and always reached) returns right after the first event |
| Monitor.WantedSpec | qq_auto.py:607-619 | the reference filter keeps exactly the names of the order that pass the target and already-replied checks, without duplicates |
| Monitor.ProcessSenders | qq_auto.py:607-682 | over a duplicate-free order the events are written exactly for the wanted names, in order; only a first part of them if the loop returned early |
| Monitor.EventKeepsInv | qq_auto.py:655-682 | writing an event keeps `replied_windows` equal to the names with a recorded paste, keeps every such name to one event, and keeps `reply_count` equal to their number |
| Monitor.HandleKeepsInv | qq_auto.py:607-686 | handling one window keeps that session invariant |
| Monitor.ProcessKeepsInv | qq_auto.py:607-686 | the loop over the new windows keeps it, whatever the order |
| Monitor.CycleNotRunning | qq_auto.py:587-589 | while QQ is not running a poll changes no state, writes nothing and does nothing |
| Monitor.CycleRefresh | qq_auto.py:602-690 | a poll that does not return leaves `known_windows` equal to the current titles and `last_badge` equal to the current badge, whatever the replies did; a poll that returns does so right after an event meeting the stop condition, and before `known_windows` is updated |
| Monitor.CycleBadgeOnly | qq_auto.py:596-605 | a badge increase without a new window writes no event, takes no action and only refreshes `known_windows` and `last_badge` |
| Monitor.CycleEvents | qq_auto.py:596-682 | exactly one event per new window that passes the target filter and was not replied to, in enumeration order (a first part of them when the loop returns early); all for distinct names |
| Monitor.CycleDryRun | qq_auto.py:659-668 | in a dry run no event of a poll says `replied` and return is never pressed |
| Monitor.CycleReplied | qq_auto.py:670-671 | `replied_windows` only grows, and only by new windows of the poll; `reply_count` grows by the number of names added; with `max_replies` 0 the loop never returns |
| Monitor.CycleBudget | qq_auto.py:684-686 | with a positive `max_replies` not yet reached, one poll never takes the count past it, and the loop returns exactly when the count reaches it |
| Monitor.CycleKeepsInv | qq_auto.py:584-690 | a poll keeps the session invariant: no name is ever pasted to twice, and `reply_count` is the number of names in `replied_windows` |
| Monitor.Session | qq_auto.py:583-690 | `monitor_chat` over a sequence of polls: one `Cycle` per poll, in order, until a poll returns |
| Monitor.CycleSenders | qq_auto.py:592-682 | when a pass takes its new windows in an order it can take (each at most once, only new windows, all of them unless the loop returned, none while QQ is not running), every event is for a new window of that pass |
| Monitor.SessionOrdersAt | qq_auto.py:583-690 | in a session whose every poll is taken in such an order, poll `k` is taken in an order its pass can take from the state the first `k` polls leave |
| Monitor.SessionSenders | qq_auto.py:583-690 | over such orders, every event of a whole session is for a title some poll enumerated, and never for `""`, `"QQ"` or `"全网搜索"` |
| Monitor.SessionKeepsInv | qq_auto.py:583-690 | a whole session keeps the session invariant: no name is ever pasted to twice, and `reply_count` is the number of names in `replied_windows` |
| Monitor.SessionBudget | qq_auto.py:670-686 | with a positive `max_replies` not yet reached, a whole session never takes the count past it, and the session has returned exactly when the count reached it |
| Monitor.Monitor.constructor | qq_auto.py:574-581 | the start of `monitor_chat`: the initial titles are known, the initial badge is recorded, and nothing has been counted, replied to or written |
| Monitor.Monitor.AttemptReply | qq_auto.py:631-678 | the step-by-step reply attempt computes exactly the event, actions and count of `Attempt` |
| Monitor.Monitor.HandleWindow | qq_auto.py:607-686 | the loop body changes the loop variables, the event file and the action trace exactly as `Handle` says |
| Monitor.Monitor.ProcessPending | qq_auto.py:607-686 | the loop takes the new windows one by one in an order of its choosing. It ends in the state `Process` gives for that order. The order has no duplicates and comes from the new windows. If the loop did not return, the order covers every new window |
| Monitor.Monitor.PollOnce | qq_auto.py:584-690 | one pass of `while True` ends in the state `Cycle` gives for the order used; it keeps the session invariant and the reply budget |
| Monitor.Monitor.NextPoll | qq_auto.py:584-690 | one more poll extends the session: the state, events and actions are those of `Session` over the polls so far and this one; the order it used is one its pass can take from the state before it: each new window at most once, only new windows, all of them unless the loop returned, none while QQ is not running |
| Monitor.Monitor.Run | qq_auto.py:583-690 | over a sequence of polls the class ends in exactly the state, the event file and the action trace of `Session` for the orders it used, one per poll it ran; each order is one its pass can take from where the earlier polls left off; every event written is for a title some poll enumerated and never for a reserved title; it stops before the last poll only by a return; the session invariant holds; `replied_windows` and the event file only grow |

## Left out

- I/O is not modelled: running `osascript`, `pbcopy`, `pyautogui`, `screencapture` and Playwright. Their results are parameters (exit statuses, window lists, matching selectors, click outcomes). Their effects are trace entries.
- Clock-based waiting is not modelled: every `time.sleep` and `wait_for_timeout`, the `poll_interval` wait, and the `wait_for_login` timeout loop. The reply delay appears only as a `Wait` action carrying its length.
- `random.uniform(-jitter, jitter)` is not modelled: the sample is a parameter of each reply.
- `delay`, `jitter`, the jitter sample and the wait are Python floats; the model takes them as exact `real` values, without floating-point rounding.
- The floating-point input point `int(height * 0.85)` is not computed: the action `ClickInputArea` carries the window geometry. The integer search point `x + width // 2`, `y + 70` is computed.
- Decimal.ParseInt: accepts only an optional sign followed by ASCII digits. Python's `int()` also accepts surrounding whitespace, `_` between digits and non-ASCII digits.
- Desktop.SendMessage: the window list and the front-window geometry are given as already parsed. The `ValueError` that `get_qq_windows` raises on a malformed item (see "Findings") is not propagated out of `find_chat_window`, `send_message`, `search_contact` or `monitor_chat`. The parser itself models it as `None`.
- Desktop.SendMessage: the Boolean that `send_keystroke` returns for a failed non-permission run is ignored, as in the code; only the `PermissionError` path is modelled.
- Keystroke.ScriptLine: only the line that performs the press is modelled, not the `tell` blocks around it or its embedding in `osascript -e`. A key containing `"` is not escaped in the code, and such a script is not analysed.
- Web.Browser.SearchContact: in the result loop (qq_web.py:234-244) a timed-out lookup counts as no match, and an exception from the `click`, the `wait_for_timeout` or the screenshot after it counts as a failed click, because the code catches all of them in the same `except`. Exceptions from clicking or filling the search box and the input box are not modelled.
- Web.Browser.NavigateToQQ: after `goto` the page address is taken to be the landing address. Redirects are not modelled.
- Not modelled: the browser lifecycle (`start`, `stop`), screenshots, `login`, `read_chat` and `read_list`. They only combine the modelled operations with I/O.
- Monitor: an event's timestamp and its constant `type` field are not modelled, nor is the JSON encoding of the event file, which is a sequence of events. Log output and `KeyboardInterrupt` handling are not modelled either.
- Monitor: a badge increase without any new window writes no event. That is what the code does, although the tool's documentation presents the badge as a second trigger for events.

## Findings

| source | as written | input that shows it | evidently intended | confidence | as-written member | corrected member |
|---|---|---|---|---|---|---|
| qq_auto.py:400-408 | each item is cut into title and fields at its first `:` (`item.split(":", 1)`), although the title comes first and may itself contain `:` | a window titled `a:b` at 1, 2, 3, 4 gives the item `a:b:1|2|3|4`; its fields are `b:1|2|3|4` and `int("b:1")` raises a `ValueError` that nothing catches, so `get_qq_windows` fails (the same holds for any title `p:q` with `p` free of `:` and `q` free of `|`, anywhere in the list), and with it `find_chat_window`, `send_message`, `search_contact` and `monitor_chat` | cut at the last `:` (`item.rsplit(":", 1)`), since the four fields never contain one | not executed | WindowList.ColonTitleFailsList | WindowList.TitlesWithColonRoundTrip |
