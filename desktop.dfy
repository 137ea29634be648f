/**
 * The desktop backend's two user actions, `send_message` and `search_contact`, with every
 * adapter (process check, window enumeration, window geometry, clipboard, key presses) turned
 * into an input and every user-interface effect recorded, in order, in an action trace.
 */
module Desktop {
  import opened Wrappers
  import opened Reports
  import opened WindowList
  import opened Keystroke

  /** One effect on the desktop, in the order the backend performs them. */
  datatype Action =
    | Activate                        // `activate_qq`: bring QQ to the front
    | Raise(window: string)           // `raise_window`: AXRaise on the titled window
    | ClickAt(x: int, y: int)         // `pyautogui.click` at a point computed in integers
    | ClickInputArea(frame: Geometry) // a click at 85% of the height of `frame`, centred
    | SetClipboard(text: string)      // `set_clipboard` through `pbcopy`
    | Press(key: KeyCommand)          // `send_keystroke`
    | Wait(seconds: real)             // a `time.sleep` the logic depends on

  const NotRunningError: string := "QQ 未运行"
  const NoPermissionError: string := "缺少辅助功能权限"
  const NotSentError: string := "缺少辅助功能权限，消息已输入但无法发送"
  const NoWindowInfoError: string := "无法获取 QQ 窗口信息"
  const NoChatWindowNote: string := "操作已执行但未检测到聊天窗口"

  function PastePress(): Action {
    Press(Build("v", ["command"]))
  }

  function ReturnPress(): Action {
    Press(Build("return", []))
  }

  /** `paste_text`: the clipboard is set, then command-V is pressed. */
  function PasteActions(text: string): seq<Action> {
    [SetClipboard(text), PastePress()]
  }

  predicate Denied(e: ExitStatus) {
    Classify(e).PermissionDenied?
  }

  /** The `result` dictionary of `send_message`; an absent key is `None`. */
  datatype SendResult = SendResult(success: bool, message: string, dryRun: bool, status: Option<Status>,
                                   error: Option<string>, chatWindow: Option<string>)

  /**
   * Where `send_message` clicks before typing: into the first chat window (raised first),
   * otherwise into the front window when its geometry is known, otherwise nowhere.
   */
  function InputFocus(windows: seq<Window>, front: Option<Geometry>): (r: seq<Action>)
    ensures FindChatWindow(windows).Some? ==>
              var w := FindChatWindow(windows).value; r == [Raise(w.name), ClickInputArea(w.frame)]
    ensures FindChatWindow(windows).None? && front.Some? ==> r == [ClickInputArea(front.value)]
    ensures FindChatWindow(windows).None? && front.None? ==> r == []
    ensures ReturnPress() !in r && PastePress() !in r
  {
    match FindChatWindow(windows)
    case Some(w) => [Raise(w.name), ClickInputArea(w.frame)]
    case None => if front.Some? then [ClickInputArea(front.value)] else []
  }

  /**
   * `send_message` (desktop). `running` is `is_qq_running()`, `windows` what
   * `find_chat_window` enumerates, `front` what `get_qq_window_info()` reads, and `paste` and
   * `enter` the exit statuses of the command-V and return key presses.
   */
  method SendMessage(message: string, dryRun: bool, running: bool, windows: seq<Window>,
                     front: Option<Geometry>, paste: ExitStatus, enter: ExitStatus)
    returns (result: SendResult, trace: seq<Action>)
    ensures result.message == message && result.dryRun == dryRun
    // QQ not running: nothing is touched.
    ensures !running ==> trace == [] && !result.success && result.error == Some(NotRunningError)
    // Otherwise focus, click and paste come first, and return is pressed only outside a dry run.
    ensures running ==> |trace| >= 3 && trace[..|trace| - (if !Denied(paste) && !dryRun then 1 else 0)]
                        == [Activate] + InputFocus(windows, front) + PasteActions(message)
    ensures ReturnPress() in trace <==> running && !Denied(paste) && !dryRun
    ensures ReturnPress() in trace ==> trace[|trace| - 1] == ReturnPress()
    ensures dryRun ==> ReturnPress() !in trace
    // The outcome.
    ensures result.success <==> running && !Denied(paste) && (dryRun || !Denied(enter))
    ensures result.success <==> result.status.Some?
    ensures result.success <==> result.error.None?
    ensures result.status == Some(TypedNotSent) <==> result.success && dryRun
    ensures result.status == Some(Sent) <==> result.success && !dryRun
    ensures running && Denied(paste) ==> result.error == Some(NoPermissionError)
    ensures running && !Denied(paste) && !dryRun && Denied(enter) ==> result.error == Some(NotSentError)
    ensures result.chatWindow == (if running && FindChatWindow(windows).Some?
                                  then Some(FindChatWindow(windows).value.name) else None)
  {
    result := SendResult(false, message, dryRun, None, None, None);
    trace := [];
    if !running {
      result := result.(error := Some(NotRunningError));
      return;
    }
    trace := [Activate];
    var chat := FindChatWindow(windows);
    if chat.Some? {
      trace := trace + [Raise(chat.value.name), ClickInputArea(chat.value.frame)];
      result := result.(chatWindow := Some(chat.value.name));
    } else if front.Some? {
      trace := trace + [ClickInputArea(front.value)];
    }
    trace := trace + PasteActions(message);
    if Denied(paste) {
      result := result.(error := Some(NoPermissionError));
      return;
    }
    if dryRun {
      result := result.(success := true, status := Some(TypedNotSent));
      return;
    }
    trace := trace + [ReturnPress()];
    if Denied(enter) {
      result := result.(error := Some(NotSentError));
      return;
    }
    result := result.(success := true, status := Some(Sent));
  }

  /** The `result` dictionary of `search_contact`. */
  datatype SearchResult = SearchResult(success: bool, name: string, error: Option<string>,
                                       chatWindow: Option<string>, note: Option<string>)

  /** The search field of the main panel: centred, 70 points below the top (`//` floors). */
  function SearchPoint(g: Geometry): (p: (int, int))
    ensures g.width >= 0 ==> g.x <= p.0 <= g.x + g.width
    ensures p.0 * 2 <= g.x * 2 + g.width < p.0 * 2 + 2
    ensures p.1 == g.y + 70
  {
    (g.x + g.width / 2, g.y + 70)
  }

  /**
   * `search_contact` (desktop). `front` is the main panel's geometry, `paste` and `enter` the
   * exit statuses of the two key presses, and `after` the windows enumerated once return has
   * been pressed.
   */
  method SearchContact(name: string, running: bool, front: Option<Geometry>, paste: ExitStatus,
                       enter: ExitStatus, after: seq<Window>)
    returns (result: SearchResult, trace: seq<Action>)
    ensures result.name == name
    ensures !running ==> trace == [] && result.error == Some(NotRunningError)
    ensures running && front.None? ==> trace == [Activate] && result.error == Some(NoWindowInfoError)
    ensures running && front.Some? ==>
      var p := SearchPoint(front.value);
      trace == [Activate, ClickAt(p.0, p.1)] + PasteActions(name) + (if Denied(paste) then [] else [ReturnPress()])
    ensures running && front.Some? && (Denied(paste) || Denied(enter)) ==> result.error == Some(NoPermissionError)
    // Success means the keys went through, whether or not a chat window showed up.
    ensures result.success <==> running && front.Some? && !Denied(paste) && !Denied(enter)
    ensures result.success <==> result.error.None?
    ensures result.success ==> (result.chatWindow.Some? <==> result.note.None?)
    ensures result.chatWindow.Some? <==> result.success && FindChatWindow(after).Some?
    ensures result.chatWindow.Some? ==> result.chatWindow.value == FindChatWindow(after).value.name
    ensures result.note.Some? <==> result.success && result.chatWindow.None?
    ensures result.note.Some? ==> result.note.value == NoChatWindowNote
  {
    result := SearchResult(false, name, None, None, None);
    trace := [];
    if !running {
      result := result.(error := Some(NotRunningError));
      return;
    }
    trace := [Activate];
    if front.None? {
      result := result.(error := Some(NoWindowInfoError));
      return;
    }
    var p := SearchPoint(front.value);
    trace := trace + [ClickAt(p.0, p.1)];
    trace := trace + PasteActions(name);
    if Denied(paste) {
      result := result.(error := Some(NoPermissionError));
      return;
    }
    trace := trace + [ReturnPress()];
    if Denied(enter) {
      result := result.(error := Some(NoPermissionError));
      return;
    }
    var chat := FindChatWindow(after);
    if chat.Some? {
      result := result.(success := true, chatWindow := Some(chat.value.name));
    } else {
      result := result.(success := true, note := Some(NoChatWindowNote));
    }
  }
}
