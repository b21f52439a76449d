/**
 * The inline hint shown after the cursor (`ShellHelper::hint`) and the
 * padding arithmetic of the prompt's first line.
 */
module Hints {
  import opened Common
  import opened Text

  /**
   * The command branch of the hint: the first cached command that starts with
   * the typed prefix, given as the text still to type.
   */
  function CommandHint(prefix: string, commands: seq<string>): (r: Option<string>)
    ensures r.None? <==> forall k :: 0 <= k < |commands| ==> !StartsWith(commands[k], prefix)
    ensures r.Some? ==> exists k :: 0 <= k < |commands| && commands[k] == prefix + r.value
                                   && forall j :: 0 <= j < k ==> !StartsWith(commands[j], prefix)
  {
    if commands == [] then None
    else if StartsWith(commands[0], prefix) then
      assert commands[0] == prefix + commands[0][|prefix|..];
      Some(commands[0][|prefix|..])
    else
      var r := CommandHint(prefix, commands[1..]);
      assert r.Some? ==> exists k :: 1 <= k < |commands| && commands[k] == prefix + r.value
                                    && forall j :: 0 <= j < k ==> !StartsWith(commands[j], prefix) by {
        if r.Some? {
          var k :| 0 <= k < |commands[1..]| && commands[1..][k] == prefix + r.value
                   && forall j :: 0 <= j < k ==> !StartsWith(commands[1..][j], prefix);
          assert commands[k + 1] == prefix + r.value;
          assert forall j :: 0 <= j < k + 1 ==> !StartsWith(commands[j], prefix) by {
            forall j | 0 <= j < k + 1 ensures !StartsWith(commands[j], prefix) {
              if j > 0 {
                assert commands[j] == commands[1..][j - 1];
              }
            }
          }
        }
      }
      r
  }

  /** The typed line cut at its last space: the text before it and the word after it. */
  function LastWord(t: string): (r: (string, string))
    requires t != [] && !IsSpace(t[0]) && !IsSpace(t[|t| - 1])
    ensures r.1 != []
    ensures r.0 == [] <==> ' ' !in t
    ensures r.0 == [] ==> r.1 == t
    ensures ' ' in t ==> t == r.0 + " " + r.1 && ' ' !in r.1
  {
    match RFind(t, ' ')
    case Some(p) =>
      assert p != 0 && p != |t| - 1;
      assert t[..p][0] == t[0];
      assert t == t[..p] + " " + t[p + 1..];
      (t[..p], t[p + 1..])
    case None => ([], t)
  }

  /**
   * `ShellHelper::hint`: a history hint wins; otherwise a single typed word is
   * completed from the command cache, and a later word from the file listing
   * (given here as `fileHint`).
   */
  function Hint(line: string, historyHint: Option<string>, commands: seq<string>,
                fileHint: string -> Option<string>): (r: Option<string>)
    ensures historyHint.Some? ==> r == historyHint
    ensures historyHint.None? && AllSpace(line) ==> r.None?
    ensures historyHint.None? && !AllSpace(line) && ' ' !in Trim(line) ==> r == CommandHint(Trim(line), commands)
    ensures historyHint.None? && ' ' !in Trim(line) && r.Some? ==>
              exists k :: 0 <= k < |commands| && commands[k] == Trim(line) + r.value
    ensures historyHint.None? && ' ' in Trim(line) ==> r == fileHint(LastWord(Trim(line)).1)
  {
    if historyHint.Some? then historyHint
    else
      var t := Trim(line);
      if t == [] then None
      else
        var (before, after) := LastWord(t);
        if after == [] then None
        else if before == [] then CommandHint(after, commands)
        else fileHint(after)
  }

  /**
   * The spaces between the left and the right part of the prompt's first
   * line: the line fills the terminal exactly when both parts fit, and no
   * space is added when they do not.
   */
  function Padding(termWidth: nat, leftLen: nat, rightLen: nat): (spaces: nat)
    ensures termWidth > leftLen + rightLen ==> leftLen + spaces + rightLen == termWidth
    ensures termWidth <= leftLen + rightLen ==> spaces == 0
    ensures leftLen + spaces + rightLen >= termWidth
  {
    if termWidth > leftLen + rightLen then termWidth - leftLen - rightLen else 0
  }
}
