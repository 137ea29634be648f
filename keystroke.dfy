/**
 * `send_keystroke`: the AppleScript it writes for one key press and what it makes of the
 * exit status of `osascript`.
 */
module Keystroke {
  import opened Text

  const CommandDown: string := " using command down"
  const ReturnKeyCode: string := "key code 36"

  /** A key press as the script will perform it: the return key by key code, any other by name. */
  datatype KeyCommand = ReturnKey(command: bool) | Stroke(key: string, command: bool)

  /**
   * The key and modifier list of a call: `return` becomes key code 36, and only `command`
   * among the modifiers has an effect (an absent list behaves as an empty one).
   */
  function Build(key: string, modifiers: seq<string>): (c: KeyCommand)
    ensures c.ReturnKey? <==> key == "return"
    ensures c.Stroke? ==> c.key == key
    ensures c.command <==> "command" in modifiers
  {
    var command := "command" in modifiers;
    if key == "return" then ReturnKey(command) else Stroke(key, command)
  }

  function ModifierText(command: bool): string {
    if command then CommandDown else ""
  }

  /** The line inside `tell process "QQ"` that performs the press. */
  function ScriptLine(c: KeyCommand): string {
    match c
    case ReturnKey(command) => ReturnKeyCode + ModifierText(command)
    case Stroke(key, command) => "keystroke \"" + key + "\"" + ModifierText(command)
  }

  predicate StartsWith(s: string, p: string) {
    |p| <= |s| && s[..|p|] == p
  }

  predicate EndsWith(s: string, p: string) {
    |p| <= |s| && s[|s| - |p|..] == p
  }

  /** The script presses key code 36 exactly when the key is `return`. */
  lemma KeyCodeExactlyForReturn(key: string, modifiers: seq<string>)
    ensures StartsWith(ScriptLine(Build(key, modifiers)), ReturnKeyCode) <==> key == "return"
  {
    var line := ScriptLine(Build(key, modifiers));
    if key != "return" {
      assert line[3] == 's';
    }
  }

  /** ` using command down` ends the line exactly when `command` is among the modifiers. */
  lemma CommandDownExactlyForCommand(key: string, modifiers: seq<string>)
    ensures EndsWith(ScriptLine(Build(key, modifiers)), CommandDown) <==> "command" in modifiers
  {
    var c := Build(key, modifiers);
    var line := ScriptLine(c);
    if "command" in modifiers {
      assert line[|line| - |CommandDown|..] == CommandDown;
    } else {
      assert line[|line| - 1] != 'n';
    }
  }

  /** What `subprocess.run` reports back. */
  datatype ExitStatus = ExitStatus(code: int, stderr: string)

  /** `PermissionError` raised, or the boolean returned. */
  datatype KeyOutcome = PermissionDenied | Returned(ok: bool)

  /**
   * Exit code and error output of `osascript`: error 1002 (no accessibility permission) on a
   * failed run raises `PermissionError`; otherwise the call returns whether the run succeeded.
   */
  function Classify(e: ExitStatus): (r: KeyOutcome)
    ensures r.PermissionDenied? <==> e.code != 0 && Contains(e.stderr, "1002")
    ensures r.Returned? ==> (r.ok <==> e.code == 0)
  {
    if e.code != 0 && Contains(e.stderr, "1002") then PermissionDenied else Returned(e.code == 0)
  }
}
