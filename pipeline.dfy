/**
 * The decisions of `execute_command` and of the read loop, as functions of
 * the session state: alias expansion, `source`, the builtins, auto-sudo,
 * `export`, the `.sh`/`.hl` rewriting and the final hand-over to `sh -c`.
 * The class `Shell.Session` runs these steps imperatively and is proved to
 * agree with them.
 */
module Pipeline {
  import opened Common
  import opened Text
  import Highlighter

  /** How a child `sh -c` ended: it could not be spawned or waited for, or it exited with a code (none if killed by a signal). */
  datatype ChildExit = SpawnFailed | Exited(code: Option<int>)

  /** Everything the pipeline asks of the operating system and the user. */
  datatype World = World(
    split: string -> Option<seq<string>>,             // shlex::split
    chdir: (string, string) -> Option<string>,         // from a cwd, set_current_dir(target): the new current_dir, or failure
    readFile: string -> Option<string>,                // read_to_string
    answer: string -> string,                          // what the user types at the sudo prompt for a command
    isRoot: bool,                                      // getuid() == 0
    run: (string, string, map<string, string>) -> ChildExit  // `sh -c command` in a cwd with an environment
  )

  /** The session's state: the process's cwd and environment, `prev_dir`, the history, the files' permission bits, `last_exit_code`. */
  datatype SessionState = SessionState(
    cwd: string,
    prevDir: Option<string>,
    env: map<string, string>,
    history: seq<string>,
    fileModes: map<string, bv32>,
    lastStatus: int
  )

  /** What one dispatched line did. */
  datatype Outcome =
    | Builtin(messages: seq<string>)        // cd, history, hsh-help; the lines printed
    | Exit                                  // `exit`: the process ends with status 0
    | Sourced(status: int)                  // `source F` / `. F`: status of the last line run
    | EnvSet(name: string, value: string)   // `export NAME=VALUE`
    | Delegate(command: string, status: int)  // handed to `sh -c`
    | Panicked(name: string, value: string) // `export`: `env::set_var` refused the pair; the process aborts
  {
    /** The process does not return to the read loop after this outcome. */
    predicate Ends() {
      Exit? || Panicked?
    }
  }

  datatype Failure = ReadFailed(path: string) | SpawnError | DepthExhausted

  datatype Result = Ok(outcome: Outcome) | Err(failure: Failure)

  datatype Step = Step(result: Result, state: SessionState)

  datatype CdResult = CdResult(messages: seq<string>, state: SessionState)

  datatype BuiltinResult = BuiltinResult(handled: Option<Outcome>, state: SessionState)

  /**
   * The exit status an outcome reports: 0 for what the shell handles itself
   * (builtins, `exit`, `export`), the sourced file's or the child's status
   * otherwise, and 101 for a panic.
   */
  function Status(o: Outcome): (r: int)
    ensures o.Builtin? || o.Exit? || o.EnvSet? ==> r == 0
    ensures r != 0 ==> o.Sourced? || o.Delegate? || o.Panicked?
    ensures o.Delegate? || o.Sourced? ==> r == o.status
    ensures o.Panicked? ==> r == 101
  {
    match o
    case Builtin(_) => 0
    case Exit => 0
    case Sourced(n) => n
    case EnvSet(_, _) => 0
    case Delegate(_, n) => n
    case Panicked(_, _) => 101
  }

  function Home(env: map<string, string>): Option<string> {
    if "HOME" in env then Some(env["HOME"]) else None
  }

  // Stage 1: alias expansion.

  /**
   * One level of alias expansion: when the line splits and its first token is
   * an alias name, the line becomes the alias value, a space, and the other
   * tokens joined by spaces; otherwise it is left as it is.
   */
  function ExpandAlias(line: string, aliases: map<string, string>, split: string -> Option<seq<string>>): (r: string)
    ensures (split(line).None? || split(line).value == [] || split(line).value[0] !in aliases) ==> r == line
    ensures split(line).Some? && split(line).value != [] && split(line).value[0] in aliases ==>
              StartsWith(r, aliases[split(line).value[0]] + " ")
  {
    match split(line)
    case Some(parts) =>
      if parts != [] && parts[0] in aliases then aliases[parts[0]] + " " + Join(parts[1..]) else line
    case None => line
  }

  /**
   * Expansion is one level: the result depends on the alias table only
   * through the entry of the line's first token, so the value's own first
   * token is never looked up, even when it names an alias.
   */
  lemma AliasOneLevel(line: string, aliases: map<string, string>, split: string -> Option<seq<string>>)
    requires split(line).Some? && split(line).value != [] && split(line).value[0] in aliases
    ensures var key := split(line).value[0];
            ExpandAlias(line, aliases, split) == ExpandAlias(line, map[key := aliases[key]], split)
            && ExpandAlias(line, aliases, split) == aliases[key] + " " + Join(split(line).value[1..])
  {
  }

  /** An alias used without arguments leaves a trailing space. */
  lemma AliasWithoutArguments(line: string, aliases: map<string, string>, split: string -> Option<seq<string>>, key: string)
    requires split(line) == Some([key]) && key in aliases
    ensures ExpandAlias(line, aliases, split) == aliases[key] + " "
  {
    assert [key][1..] == [];
  }

  // Stage 2: `source F` and `. F`.

  /** The file a `source F` or `. F` line names, trimmed; `source ` is tested first. */
  function SourcePath(line: string): (r: Option<string>)
    ensures r.Some? <==> StartsWith(line, "source ") || StartsWith(line, ". ")
    ensures StartsWith(line, "source ") ==> r == Some(Trim(line[7..]))
    ensures !StartsWith(line, "source ") && StartsWith(line, ". ") ==> r == Some(Trim(line[2..]))
  {
    if StartsWith(line, "source ") then Some(Trim(line[7..]))
    else if StartsWith(line, ". ") then Some(Trim(line[2..]))
    else None
  }

  /**
   * A line of a sourced file is run when its trim is non-empty and does not
   * start with `!`.
   */
  predicate Eligible(line: string) {
    Trim(line) != [] && Trim(line)[0] != '!'
  }

  /** A line is eligible exactly when its first character that is not whitespace exists and is not `!`. */
  lemma EligibleFirstChar(line: string)
    ensures Eligible(line) <==> exists i :: FirstNonSpace(line, i) && line[i] != '!'
  {
    FirstNonSpaceOfTrim(line);
  }

  /** `i` is the index of the first character of `line` that is not whitespace. */
  predicate FirstNonSpace(line: string, i: int) {
    0 <= i < |line| && !IsSpace(line[i]) && AllSpace(line[..i])
  }

  /** A line's trim starts with its first non-whitespace character, and is empty when it has none. */
  lemma FirstNonSpaceOfTrim(line: string)
    ensures Trim(line) == [] <==> forall i :: !FirstNonSpace(line, i)
    ensures forall i :: FirstNonSpace(line, i) ==> Trim(line) != [] && Trim(line)[0] == line[i]
  {
    var r := Trim(line);
    TrimIsSlice(line);
    var j :| TrimmedAt(line, j, r);
    forall k | 0 <= k < j ensures IsSpace(line[k]) {
      assert line[..j][k] == line[k];
    }
    forall i | FirstNonSpace(line, i) ensures r != [] && r[0] == line[i] {
      assert !AllSpace(line) by {
        assert !IsSpace(line[i]);
      }
      assert r != [];
      assert line[j] == r[0];
      forall k | 0 <= k < i ensures IsSpace(line[k]) {
        assert line[..i][k] == line[k];
      }
      assert i == j;
    }
    if r != [] {
      assert FirstNonSpace(line, j) by {
        assert line[j] == r[0];
      }
    }
  }

  // Stage 3: builtins.

  /** Where `cd ARG` goes: $HOME (or `/`) for no argument, the previous directory for `-` (none if unset), else ARG with `~` expanded. */
  function CdTarget(s: SessionState, arg: string): (r: Option<string>)
    ensures r.None? <==> arg == "-" && s.prevDir.None?
    ensures arg == "-" ==> r == s.prevDir
    ensures arg == [] ==> r == Some(if "HOME" in s.env then s.env["HOME"] else "/")
    ensures arg != [] && arg != "-" && !StartsWith(arg, "~") ==> r == Some(arg)
    ensures arg != "-" && StartsWith(arg, "~") && "HOME" in s.env ==> r == Some(s.env["HOME"] + arg[1..])
    ensures arg != [] && arg != "-" && "HOME" !in s.env ==> r == Some(arg)
  {
    if arg == [] then Some(Home(s.env).GetOr("/"))
    else if arg == "-" then s.prevDir
    else Some(Highlighter.ExpandTilde(arg, Home(s.env)))
  }

  /**
   * `cd ARG`: a successful change records the directory left as the previous
   * one; a failed change keeps the cwd and reports the argument; `cd -`
   * consumes the previous directory even when the change then fails, and
   * without one changes nothing.
   */
  function CdStep(chdir: (string, string) -> Option<string>, s: SessionState, arg: string): (r: CdResult)
    ensures r.state.env == s.env && r.state.history == s.history
    ensures r.state.fileModes == s.fileModes && r.state.lastStatus == s.lastStatus
    ensures CdTarget(s, arg).None? ==> r == CdResult(["No previous directory"], s)
    ensures CdTarget(s, arg).Some? && chdir(s.cwd, CdTarget(s, arg).value).Some? ==>
              r.state.cwd == chdir(s.cwd, CdTarget(s, arg).value).value
              && r.state.prevDir == Some(s.cwd) && r.messages == []
    ensures CdTarget(s, arg).Some? && chdir(s.cwd, CdTarget(s, arg).value).None? ==>
              r.state.cwd == s.cwd
              && r.state.prevDir == (if arg == "-" then None else s.prevDir)
              && r.messages == ["cd: no such file or directory: " + arg]
  {
    match CdTarget(s, arg)
    case None => CdResult(["No previous directory"], s)
    case Some(target) =>
      var s1 := if arg == "-" then s.(prevDir := None) else s;
      match chdir(s.cwd, target)
      case Some(dir) => CdResult([], s1.(cwd := dir, prevDir := Some(s.cwd)))
      case None => CdResult(["cd: no such file or directory: " + arg], s1)
  }

  /** From A, `cd B` and then `cd -` end in A, with B as the previous directory. */
  lemma CdRoundTrip(chdir: (string, string) -> Option<string>, s: SessionState, arg: string, dir: string)
    requires arg != [] && arg != "-"
    requires chdir(s.cwd, Highlighter.ExpandTilde(arg, Home(s.env))) == Some(dir)
    requires chdir(dir, s.cwd) == Some(s.cwd)
    ensures var s1 := CdStep(chdir, s, arg).state;
            var s2 := CdStep(chdir, s1, "-").state;
            s1.cwd == dir && s2.cwd == s.cwd && s2.prevDir == Some(dir)
  {
    var s1 := CdStep(chdir, s, arg).state;
    assert s1.prevDir == Some(s.cwd);
    assert CdTarget(s1, "-") == Some(s.cwd);
  }

  /** Repeated `cd -` toggles between the two directories. */
  lemma CdDashToggles(chdir: (string, string) -> Option<string>, s: SessionState, a: string)
    requires s.prevDir == Some(a)
    requires chdir(s.cwd, a) == Some(a) && chdir(a, s.cwd) == Some(s.cwd)
    ensures var s1 := CdStep(chdir, s, "-").state;
            var s2 := CdStep(chdir, s1, "-").state;
            s1.cwd == a && s1.prevDir == Some(s.cwd) && s2.cwd == s.cwd && s2.prevDir == Some(a)
  {
    var s1 := CdStep(chdir, s, "-").state;
    assert CdTarget(s1, "-") == Some(s.cwd);
  }

  /** `history`: the entries newest first, numbered from 1 (`N: entry`). */
  function HistoryListing(history: seq<string>): (r: seq<string>)
    ensures |r| == |history|
    ensures forall k :: 0 <= k < |r| ==> r[k] == Decimal(k + 1) + ": " + history[|history| - 1 - k]
  {
    Numbered(seq(|history|, k requires 0 <= k < |history| => history[|history| - 1 - k]), 1)
  }

  function Numbered(entries: seq<string>, n: nat): (r: seq<string>)
    ensures |r| == |entries|
    ensures forall k :: 0 <= k < |r| ==> r[k] == Decimal(n + k) + ": " + entries[k]
  {
    if entries == [] then [] else [Decimal(n) + ": " + entries[0]] + Numbered(entries[1..], n + 1)
  }

  /**
   * `handle_builtin`: any trimmed line starting with `cd` is a `cd` whose
   * argument is the trimmed rest; `exit`, `history` and `hsh-help` match
   * exactly; nothing else is handled and nothing changes then.
   */
  function Builtins(chdir: (string, string) -> Option<string>, s: SessionState, line: string): (r: BuiltinResult)
    ensures r.handled.None? <==>
              !StartsWith(Trim(line), "cd") && Trim(line) != "exit" && Trim(line) != "history" && Trim(line) != "hsh-help"
    ensures r.handled.None? ==> r.state == s
    ensures StartsWith(Trim(line), "cd") ==> r.handled.Some? && r.handled.value.Builtin?
    ensures r.handled == Some(Exit) <==> Trim(line) == "exit"
    ensures r.state.history == s.history && r.state.lastStatus == s.lastStatus
    ensures r.state.env == s.env && r.state.fileModes == s.fileModes
    ensures StartsWith(Trim(line), "cd") ==>
              r == BuiltinResult(Some(Builtin(CdStep(chdir, s, Trim(Trim(line)[2..])).messages)),
                                 CdStep(chdir, s, Trim(Trim(line)[2..])).state)
    ensures Trim(line) == "history" ==> r == BuiltinResult(Some(Builtin(HistoryListing(s.history))), s)
    ensures Trim(line) == "hsh-help" ==> r == BuiltinResult(Some(Builtin([])), s)
    ensures !StartsWith(Trim(line), "cd") ==> r.state == s
  {
    var t := Trim(line);
    if StartsWith(t, "cd") then
      assert t[0] == t[..2][0] == 'c';
      var c := CdStep(chdir, s, Trim(t[2..]));
      BuiltinResult(Some(Builtin(c.messages)), c.state)
    else if t == "exit" then BuiltinResult(Some(Exit), s)
    else if t == "history" then BuiltinResult(Some(Builtin(HistoryListing(s.history))), s)
    else if t == "hsh-help" then BuiltinResult(Some(Builtin([])), s)
    else BuiltinResult(None, s)
  }

  /**
   * A command merely starting with `cd` is a `cd` of the rest: no space is
   * needed, so `cdrom` changes to `rom`.
   */
  lemma CdPrefixQuirk(chdir: (string, string) -> Option<string>, s: SessionState, rest: string)
    requires Trim(rest) == rest
    ensures var c := CdStep(chdir, s, rest);
            Builtins(chdir, s, "cd" + rest) == BuiltinResult(Some(Builtin(c.messages)), c.state)
  {
    var line := "cd" + rest;
    assert Trim(line) == line by {
      assert line[0] == 'c';
      assert line[|line| - 1] == (if rest == [] then 'd' else rest[|rest| - 1]);
      TrimNoop(line);
    }
    assert StartsWith(line, "cd") && line[2..] == rest;
  }

  /** An ordinary `cd DIR` line, however it is padded, is the `cd` step to DIR. */
  lemma CdLine(chdir: (string, string) -> Option<string>, s: SessionState, arg: string, pad: string)
    requires IsTrimmed(arg) && arg != [] && pad != [] && AllSpace(pad)
    ensures var c := CdStep(chdir, s, arg);
            Builtins(chdir, s, "cd" + pad + arg) == BuiltinResult(Some(Builtin(c.messages)), c.state)
  {
    var line := "cd" + pad + arg;
    assert Trim(line) == line by {
      assert line[0] == 'c';
      assert line[|line| - 1] == arg[|arg| - 1];
      TrimNoop(line);
    }
    assert StartsWith(line, "cd") && line[2..] == pad + arg;
    assert Trim(pad + arg) == arg by {
      PaddedTrim(pad, arg);
    }
  }

  // Stage 4: auto-sudo.

  const Editors: set<string> := {"vi", "vim", "nano"}

  /** All the conditions under which `check_auto_sudo` rewrites a line. */
  predicate WantsSudo(parts: seq<string>, isRoot: bool, answer: string) {
    && |parts| > 1
    && parts[0] in Editors
    && (StartsWith(parts[1], "/etc/") || StartsWith(parts[1], "/usr/bin/"))
    && !isRoot
    && ToLower(Trim(answer)) == "y"
  }

  /** Every editor name is at most four characters long. */
  lemma NotAnEditor(word: string)
    requires |word| > 4
    ensures word !in Editors
  {
    assert |"vi"| == 2 && |"vim"| == 3 && |"nano"| == 4;
  }

  /**
   * `check_auto_sudo`: `sudo` and the re-joined tokens exactly when an editor
   * is opened on a file under `/etc/` or `/usr/bin/` by a non-root user who
   * answers `y`; the trimmed line in every other case.
   */
  function CheckAutoSudo(input: string, split: string -> Option<seq<string>>, isRoot: bool, answer: string): (r: string)
    ensures split(Trim(input)).Some? && WantsSudo(split(Trim(input)).value, isRoot, answer) ==>
              r == "sudo " + Join(split(Trim(input)).value)
    ensures !(split(Trim(input)).Some? && WantsSudo(split(Trim(input)).value, isRoot, answer)) ==>
              r == Trim(input)
  {
    var line := Trim(input);
    match split(line)
    case None => line
    case Some(parts) =>
      if parts == [] then line
      else if parts[0] in Editors && |parts| > 1 then
        if (StartsWith(parts[1], "/etc/") || StartsWith(parts[1], "/usr/bin/")) && !isRoot then
          if ToLower(Trim(answer)) == "y" then "sudo " + Join(parts) else line
        else line
      else line
  }

  /**
   * The prompt's answer counts only through its trimmed, lower-cased form:
   * any other answer than `y` (such as `yes`) declines, ` Y ` is `y`; and
   * root is never given `sudo`.
   */
  lemma SudoNeedsConsent(input: string, w: World, a: string, b: string)
    ensures ToLower(Trim(a)) != "y" ==> CheckAutoSudo(input, w.split, w.isRoot, a) == Trim(input)
    ensures ToLower(Trim(a)) == ToLower(Trim(b)) ==>
              CheckAutoSudo(input, w.split, w.isRoot, a) == CheckAutoSudo(input, w.split, w.isRoot, b)
    ensures CheckAutoSudo(input, w.split, true, a) == Trim(input)
  {
  }

  // Stage 5: `export NAME=VALUE`.

  /**
   * The text after `export `, already trimmed, split at its first `=`: the
   * name and the value, each trimmed; none when there is no `=`.
   */
  function SplitAssignment(e: string): (r: Option<(string, string)>)
    ensures r.None? <==> '=' !in e
    ensures r.Some? ==> '=' !in r.value.0 && Trim(r.value.0) == r.value.0 && Trim(r.value.1) == r.value.1
  {
    var at := Find(e, '=');
    if at.None? then None
    else
      var k := at.value;
      TrimTwice(e[..k]);
      TrimTwice(e[k + 1..]);
      TrimKeepsOut(e[..k], '=');
      Some((Trim(e[..k]), Trim(e[k + 1..])))
  }

  /** `export NAME=VALUE`: none unless the line starts with `export ` and its trimmed rest has an `=`. */
  function SplitExport(line: string): (r: Option<(string, string)>)
    ensures r.None? <==> !StartsWith(line, "export ") || '=' !in Trim(line[7..])
    ensures r.Some? ==> '=' !in r.value.0 && Trim(r.value.0) == r.value.0 && Trim(r.value.1) == r.value.1
  {
    if StartsWith(line, "export ") then SplitAssignment(Trim(line[7..])) else None
  }

  /**
   * Round trip of the split: a trimmed name free of `=`, then `=`, then a
   * trimmed value gives back that name and that value; the value may itself
   * contain `=`.
   */
  lemma AssignmentRoundTrip(name: string, value: string)
    requires '=' !in name && IsTrimmed(name) && IsTrimmed(value)
    ensures SplitAssignment(name + "=" + value) == Some((name, value))
  {
    TrimNoop(name);
    TrimNoop(value);
    SplitUntrimmable(name, value);
  }

  lemma SplitUntrimmable(name: string, value: string)
    requires '=' !in name && Trim(name) == name && Trim(value) == value
    ensures SplitAssignment(name + "=" + value) == Some((name, value))
  {
    var e := name + "=" + value;
    FindAfter(name, '=', value);
    SliceAround(name, '=', value);
    SplitAssignmentAt(e, |name|, name, value);
  }

  lemma SliceAround(prefix: string, c: char, rest: string)
    ensures (prefix + [c] + rest)[..|prefix|] == prefix
    ensures (prefix + [c] + rest)[|prefix| + 1..] == rest
  {
  }

  lemma SplitAssignmentAt(e: string, k: nat, name: string, value: string)
    requires Find(e, '=') == Some(k) && k < |e|
    requires e[..k] == name && e[k + 1..] == value && Trim(name) == name && Trim(value) == value
    ensures SplitAssignment(e) == Some((name, value))
  {
    assert SplitAssignment(e) == Some((Trim(e[..k]), Trim(e[k + 1..])));
  }

  /** Round trip: `export NAME=VALUE` built from such a name and value gives them back. */
  lemma ExportRoundTrip(name: string, value: string)
    requires '=' !in name && IsTrimmed(name) && IsTrimmed(value)
    ensures SplitExport("export " + name + "=" + value) == Some((name, value))
  {
    var line := "export " + name + "=" + value;
    var e := name + "=" + value;
    assert StartsWith(line, "export ") && line[7..] == e by {
      assert line[..7] == "export ";
    }
    assert Trim(e) == e by {
      assert e[0] == (if name == [] then '=' else name[0]);
      assert e[|e| - 1] == (if value == [] then '=' else value[|value| - 1]);
      TrimNoop(e);
    }
    AssignmentRoundTrip(name, value);
  }

  /**
   * The text after `export ` is cut at its FIRST `=` whatever surrounds it:
   * the name is what precedes it and the value all that follows, each trimmed.
   */
  lemma SplitAtFirstEquals(name: string, value: string)
    requires '=' !in name
    ensures SplitAssignment(name + "=" + value) == Some((Trim(name), Trim(value)))
  {
    var e := name + "=" + value;
    FindAfter(name, '=', value);
    SliceAround(name, '=', value);
    assert SplitAssignment(e) == Some((Trim(e[..|name|]), Trim(e[|name| + 1..])));
  }

  const Nul: char := '\0'

  /**
   * `std::env::set_var` panics when the platform refuses the pair: an empty
   * name, a name with `=`, or a NUL byte in the name or the value.
   */
  predicate SetVarPanics(name: string, value: string)
    ensures !SetVarPanics(name, value) <==>
              name != [] && (forall k :: 0 <= k < |name| ==> name[k] != '=' && name[k] != Nul)
              && forall k :: 0 <= k < |value| ==> value[k] != Nul
  {
    name == [] || '=' in name || Nul in name || Nul in value
  }

  /** `export =VALUE` has an empty name, so it never sets anything: `set_var` panics on it. */
  lemma ExportWithoutNamePanics(value: string)
    requires IsTrimmed(value)
    ensures SplitExport("export =" + value) == Some(([], value))
    ensures SetVarPanics([], value)
  {
    TrimNoop(value);
    ExportEmptyName(value);
  }

  lemma ExportEmptyName(value: string)
    requires Trim(value) == value
    ensures SplitExport("export =" + value) == Some(([], value))
  {
    var line := "export =" + value;
    var empty: string := [];
    var e := empty + "=" + value;
    assert e == "=" + value;
    assert StartsWith(line, "export ") && line[7..] == e by {
      assert line[..7] == "export ";
    }
    assert Trim(e) == e by {
      assert e[|e| - 1] == (if value == [] then '=' else value[|value| - 1]);
      TrimNoop(e);
    }
    assert SplitAssignment(e) == Some(([], value)) by {
      TrimNoop(empty);
      SplitUntrimmable(empty, value);
    }
  }

  // Stage 6: `.sh` and `.hl`.

  const ExecBits: bv32 := 0x49  // 0o111

  /**
   * `ensure_executable`'s new mode: all three execute bits are added when none
   * is set; a mode with any execute bit is left alone. Other bits never change.
   */
  function EnsureExecutable(mode: bv32): (r: bv32)
    ensures r & ExecBits != 0
    ensures r & !ExecBits == mode & !ExecBits
    ensures mode & ExecBits != 0 ==> r == mode
    ensures mode & ExecBits == 0 ==> r & ExecBits == ExecBits
  {
    if mode & ExecBits == 0 then mode | ExecBits else mode
  }


  /** The permission update of `ensure_executable(path)`: nothing when the file's metadata cannot be read. */
  function MakeExecutable(modes: map<string, bv32>, path: string): (r: map<string, bv32>)
    ensures r.Keys == modes.Keys
    ensures forall p :: p in modes && p != path ==> r[p] == modes[p]
    ensures path in modes ==> r[path] == EnsureExecutable(modes[path])
  {
    if path in modes then modes[path := EnsureExecutable(modes[path])] else modes
  }

  /** The command finally handed to `sh -c`: `.hl` lines run through `hl run`. */
  function FinalCommand(line: string): (r: string)
    ensures EndsWith(line, ".sh") || !EndsWith(line, ".hl") ==> r == line
    ensures !EndsWith(line, ".sh") && EndsWith(line, ".hl") ==> r == "hl run " + line
  {
    if EndsWith(line, ".sh") then line
    else if EndsWith(line, ".hl") then "hl run " + line
    else line
  }

  // The whole pipeline.

  /** The end of `execute_command`: `ensure_executable` for `.sh` lines, then `sh -c` with the final command. */
  function Launch(w: World, s: SessionState, cmd: string): (r: Step)
    ensures r.state == s.(fileModes := r.state.fileModes)
    ensures r.state.fileModes == if EndsWith(cmd, ".sh") then MakeExecutable(s.fileModes, cmd) else s.fileModes
    ensures w.run(FinalCommand(cmd), s.cwd, s.env).SpawnFailed? <==> r.result == Err(SpawnError)
    ensures r.result.Ok? ==> r.result.outcome.Delegate? && r.result.outcome.command == FinalCommand(cmd)
    ensures w.run(FinalCommand(cmd), s.cwd, s.env) == Exited(None) ==> r.result == Ok(Delegate(FinalCommand(cmd), 1))
    ensures w.run(FinalCommand(cmd), s.cwd, s.env).Exited? && w.run(FinalCommand(cmd), s.cwd, s.env).code.Some? ==>
              r.result == Ok(Delegate(FinalCommand(cmd), w.run(FinalCommand(cmd), s.cwd, s.env).code.value))
  {
    var s1 := if EndsWith(cmd, ".sh") then s.(fileModes := MakeExecutable(s.fileModes, cmd)) else s;
    var final := FinalCommand(cmd);
    match w.run(final, s1.cwd, s1.env)
    case SpawnFailed => Step(Err(SpawnError), s1)
    case Exited(code) => Step(Ok(Delegate(final, code.GetOr(1))), s1)
  }

  /**
   * The stages after the builtins: auto-sudo, `export`, `.sh`/`.hl`, and
   * `sh -c`. An `export` whose pair `set_var` refuses aborts the process.
   */
  function Delegation(w: World, s: SessionState, line: string): (r: Step)
    ensures r.state.history == s.history && r.state.lastStatus == s.lastStatus
    ensures r.state.cwd == s.cwd && r.state.prevDir == s.prevDir
    ensures r.result.Ok? && r.result.outcome.Panicked? ==>
              r.state == s && SetVarPanics(r.result.outcome.name, r.result.outcome.value)
    ensures r.result.Ok? && r.result.outcome.EnvSet? ==>
              !SetVarPanics(r.result.outcome.name, r.result.outcome.value)
              && r.state == s.(env := s.env[r.result.outcome.name := r.result.outcome.value])
    ensures var cmd := CheckAutoSudo(line, w.split, w.isRoot, w.answer(Trim(line)));
            SplitExport(cmd).None? ==> r == Launch(w, s, cmd)
    ensures var cmd := CheckAutoSudo(line, w.split, w.isRoot, w.answer(Trim(line)));
            SplitExport(cmd).Some? ==>
              r.result.Ok? && (r.result.outcome.EnvSet? || r.result.outcome.Panicked?)
              && (r.result.outcome.name, r.result.outcome.value) == SplitExport(cmd).value
  {
    var cmd := CheckAutoSudo(line, w.split, w.isRoot, w.answer(Trim(line)));
    var assignment := SplitExport(cmd);
    if assignment.None? then Launch(w, s, cmd)
    else
      var (name, value) := assignment.value;
      if SetVarPanics(name, value) then Step(Ok(Panicked(name, value)), s)
      else Step(Ok(EnvSet(name, value)), s.(env := s.env[name := value]))
  }

  /**
   * `execute_command(input)`: trim, expand an alias, then `source`, the
   * builtins and the later stages, in that order. `fuel` bounds the nesting
   * of `source`. Dispatching never touches the history or the last status.
   */
  function Dispatch(w: World, aliases: map<string, string>, s: SessionState, input: string, fuel: nat): (r: Step)
    ensures r.state.history == s.history && r.state.lastStatus == s.lastStatus
    decreases fuel, 3
  {
    Route(w, aliases, s, ExpandAlias(Trim(input), aliases, w.split), fuel)
  }

  /** Where an alias-expanded line goes: `source`, a builtin, or the delegation to a program. */
  function Route(w: World, aliases: map<string, string>, s: SessionState, line: string, fuel: nat): (r: Step)
    ensures r.state.history == s.history && r.state.lastStatus == s.lastStatus
    decreases fuel, 2
  {
    match SourcePath(line)
    case Some(path) => SourceFile(w, aliases, s, path, fuel)
    case None =>
      var b := Builtins(w.chdir, s, line);
      if b.handled.Some? then Step(Ok(b.handled.value), b.state)
      else Delegation(w, s, line)
  }

  /** `source PATH`: the file, with `~` expanded, is read whole and its lines run; a file that cannot be read is an error. */
  function SourceFile(w: World, aliases: map<string, string>, s: SessionState, path: string, fuel: nat): (r: Step)
    ensures r.state.history == s.history && r.state.lastStatus == s.lastStatus
    ensures w.readFile(Highlighter.ExpandTilde(path, Home(s.env))).None? ==>
              r == Step(Err(ReadFailed(Highlighter.ExpandTilde(path, Home(s.env)))), s)
    ensures w.readFile(Highlighter.ExpandTilde(path, Home(s.env))).Some? ==>
              r == RunScript(w, aliases, s, Lines(w.readFile(Highlighter.ExpandTilde(path, Home(s.env))).value), 0, fuel)
    decreases fuel, 1
  {
    var file := Highlighter.ExpandTilde(path, Home(s.env));
    match w.readFile(file)
    case None => Step(Err(ReadFailed(file)), s)
    case Some(contents) => RunScript(w, aliases, s, Lines(contents), 0, fuel)
  }

  /**
   * The loop over a sourced file's lines: eligible lines are dispatched in
   * order, `last` holds the status of the latest one, an error, `exit` or a panic
   * stops the file at once.
   */
  function RunScript(w: World, aliases: map<string, string>, s: SessionState, lines: seq<string>,
                     last: int, fuel: nat): (r: Step)
    ensures r.state.history == s.history && r.state.lastStatus == s.lastStatus
    ensures r.result.Ok? && !r.result.outcome.Ends() ==> r.result.outcome.Sourced?
    decreases fuel, 0, |lines|
  {
    if lines == [] then Step(Ok(Sourced(last)), s)
    else if !Eligible(lines[0]) then RunScript(w, aliases, s, lines[1..], last, fuel)
    else if fuel == 0 then Step(Err(DepthExhausted), s)
    else
      var st := Dispatch(w, aliases, s, lines[0], fuel - 1);
      if st.result.Err? || st.result.outcome.Ends() then st
      else RunScript(w, aliases, st.state, lines[1..], Status(st.result.outcome), fuel)
  }

  /** One step of the loop over a sourced file: a blank or `!` line is skipped. */
  lemma RunScriptSkips(w: World, aliases: map<string, string>, s: SessionState, lines: seq<string>, last: int, fuel: nat)
    requires lines != [] && !Eligible(lines[0])
    ensures RunScript(w, aliases, s, lines, last, fuel) == RunScript(w, aliases, s, lines[1..], last, fuel)
  {
  }

  /**
   * One step of the loop over a sourced file: an eligible line runs; its
   * error, `exit` or panic is the file's result, otherwise the loop goes on from its
   * state with its status as the last one.
   */
  lemma RunScriptRuns(w: World, aliases: map<string, string>, s: SessionState, lines: seq<string>,
                      last: int, fuel: nat, st: Step)
    requires lines != [] && Eligible(lines[0]) && fuel > 0
    requires st == Dispatch(w, aliases, s, lines[0], fuel - 1)
    ensures RunScript(w, aliases, s, lines, last, fuel)
            == if st.result.Err? || st.result.outcome.Ends() then st
               else RunScript(w, aliases, st.state, lines[1..], Status(st.result.outcome), fuel)
  {
  }

  function EligibleLines(lines: seq<string>): (r: seq<string>)
    ensures |r| <= |lines|
    ensures forall k :: 0 <= k < |r| ==> Eligible(r[k])
  {
    if lines == [] then []
    else if Eligible(lines[0]) then [lines[0]] + EligibleLines(lines[1..])
    else EligibleLines(lines[1..])
  }

  /** `source` runs exactly the eligible lines: blank and `!` lines can be dropped without effect. */
  lemma {:induction false} SourceRunsEligibleLines(w: World, aliases: map<string, string>, s: SessionState,
                                                   lines: seq<string>, last: int, fuel: nat)
    ensures RunScript(w, aliases, s, lines, last, fuel) == RunScript(w, aliases, s, EligibleLines(lines), last, fuel)
    decreases |lines|
  {
    if lines != [] {
      var el := EligibleLines(lines[1..]);
      if Eligible(lines[0]) {
        assert EligibleLines(lines) == [lines[0]] + el;
        assert ([lines[0]] + el)[1..] == el;
        if fuel > 0 {
          var st := Dispatch(w, aliases, s, lines[0], fuel - 1);
          if !(st.result.Err? || st.result.outcome.Ends()) {
            SourceRunsEligibleLines(w, aliases, st.state, lines[1..], Status(st.result.outcome), fuel);
          }
        }
      } else {
        SourceRunsEligibleLines(w, aliases, s, lines[1..], last, fuel);
      }
    }
  }

  /** A file without eligible lines sources to status 0 and changes nothing. */
  lemma {:induction false} SourceNothingToRun(w: World, aliases: map<string, string>, s: SessionState,
                                              lines: seq<string>, fuel: nat)
    requires EligibleLines(lines) == []
    ensures RunScript(w, aliases, s, lines, 0, fuel) == Step(Ok(Sourced(0)), s)
  {
    SourceRunsEligibleLines(w, aliases, s, lines, 0, fuel);
  }

  /**
   * Sequencing: running `first + rest` is running `first`, then — only if
   * that finished normally — running `rest` from where it left off, starting
   * from its status. An error, `exit` or a panic in `first` skips `rest` entirely.
   */
  lemma {:induction false} SourceSequence(w: World, aliases: map<string, string>, s: SessionState,
                                          first: seq<string>, rest: seq<string>, last: int, fuel: nat)
    ensures var st := RunScript(w, aliases, s, first, last, fuel);
            RunScript(w, aliases, s, first + rest, last, fuel)
            == if st.result.Ok? && st.result.outcome.Sourced?
               then RunScript(w, aliases, st.state, rest, st.result.outcome.status, fuel)
               else st
    decreases |first|
  {
    if first == [] {
      assert first + rest == rest;
    } else {
      assert (first + rest)[0] == first[0];
      assert (first + rest)[1..] == first[1..] + rest;
      if !Eligible(first[0]) {
        SourceSequence(w, aliases, s, first[1..], rest, last, fuel);
      } else if fuel > 0 {
        var st := Dispatch(w, aliases, s, first[0], fuel - 1);
        if !(st.result.Err? || st.result.outcome.Ends()) {
          SourceSequence(w, aliases, st.state, first[1..], rest, Status(st.result.outcome), fuel);
        }
      }
    }
  }

  /**
   * The status of `source` is that of its last line: when the lines before
   * `final` finish normally in state `mid`, the file's result is the status of
   * dispatching `final` alone from `mid`.
   */
  lemma SourceLastStatus(w: World, aliases: map<string, string>, s: SessionState, first: seq<string>,
                         final: string, fuel: nat, mid: SessionState, n: int)
    requires Eligible(final) && fuel > 0
    requires RunScript(w, aliases, s, first, 0, fuel) == Step(Ok(Sourced(n)), mid)
    ensures var st := Dispatch(w, aliases, mid, final, fuel - 1);
            RunScript(w, aliases, s, first + [final], 0, fuel)
            == if st.result.Ok? && !st.result.outcome.Ends()
               then Step(Ok(Sourced(Status(st.result.outcome))), st.state)
               else st
  {
    SourceSequence(w, aliases, s, first, [final], 0, fuel);
    assert [final][1..] == [];
  }

  /** An error in one line of a sourced file is the file's result; no later line runs. */
  lemma SourceAbortsOnError(w: World, aliases: map<string, string>, s: SessionState, first: seq<string>,
                            bad: string, rest: seq<string>, fuel: nat, mid: SessionState, n: int)
    requires Eligible(bad) && fuel > 0
    requires RunScript(w, aliases, s, first, 0, fuel) == Step(Ok(Sourced(n)), mid)
    requires Dispatch(w, aliases, mid, bad, fuel - 1).result.Err?
    ensures RunScript(w, aliases, s, first + [bad] + rest, 0, fuel) == Dispatch(w, aliases, mid, bad, fuel - 1)
  {
    var tail := [bad] + rest;
    assert first + [bad] + rest == first + tail;
    assert tail[0] == bad && tail[1..] == rest;
    SourceSequence(w, aliases, s, first, tail, 0, fuel);
  }

  /**
   * A `source F` line, after alias expansion, is the `source` of F: an
   * unreadable F (with `~` expanded) is an error naming it, and a readable
   * one has its lines run from status 0, as the lemmas about `RunScript`
   * state.
   */
  lemma DispatchSources(w: World, aliases: map<string, string>, s: SessionState, input: string, fuel: nat,
                        path: string)
    requires SourcePath(ExpandAlias(Trim(input), aliases, w.split)) == Some(path)
    ensures Dispatch(w, aliases, s, input, fuel) == SourceFile(w, aliases, s, path, fuel)
    ensures w.readFile(Highlighter.ExpandTilde(path, Home(s.env))).None? ==>
              Dispatch(w, aliases, s, input, fuel)
              == Step(Err(ReadFailed(Highlighter.ExpandTilde(path, Home(s.env)))), s)
    ensures w.readFile(Highlighter.ExpandTilde(path, Home(s.env))).Some? ==>
              Dispatch(w, aliases, s, input, fuel)
              == RunScript(w, aliases, s, Lines(w.readFile(Highlighter.ExpandTilde(path, Home(s.env))).value), 0, fuel)
  {
  }

  /** A line that is not `source` but is a builtin, after alias expansion, has the builtin's outcome and state. */
  lemma DispatchBuiltin(w: World, aliases: map<string, string>, s: SessionState, input: string, fuel: nat)
    requires SourcePath(ExpandAlias(Trim(input), aliases, w.split)).None?
    requires Builtins(w.chdir, s, ExpandAlias(Trim(input), aliases, w.split)).handled.Some?
    ensures var b := Builtins(w.chdir, s, ExpandAlias(Trim(input), aliases, w.split));
            Dispatch(w, aliases, s, input, fuel) == Step(Ok(b.handled.value), b.state)
  {
  }

  /** A line that is neither `source` nor a builtin goes to the later stages unchanged in state. */
  lemma DispatchDelegates(w: World, aliases: map<string, string>, s: SessionState, input: string, fuel: nat)
    requires SourcePath(ExpandAlias(Trim(input), aliases, w.split)).None?
    requires Builtins(w.chdir, s, ExpandAlias(Trim(input), aliases, w.split)).handled.None?
    ensures Dispatch(w, aliases, s, input, fuel) == Delegation(w, s, ExpandAlias(Trim(input), aliases, w.split))
  {
  }

  /** A line starting with `export ` is neither `source` nor a builtin. */
  lemma ExportLineNotBuiltin(line: string)
    requires StartsWith(line, "export ")
    ensures SourcePath(line).None?
    ensures !StartsWith(line, "cd") && line != "exit" && line != "history" && line != "hsh-help"
  {
    assert line[..7] == "export ";
    assert !StartsWith(line, "source ") by {
      assert line[..7][0] == 'e';
    }
    assert !StartsWith(line, ". ") && !StartsWith(line, "cd") by {
      assert line[..2][0] == line[0] == 'e';
    }
    assert line != "history" && line != "hsh-help" by {
      assert line[0] == 'e' && "history"[0] == 'h' && "hsh-help"[0] == 'h';
    }
    assert line != "exit" by {
      assert |line| >= 7;
    }
  }

  /**
   * A trimmed `export NAME=VALUE` line, not shadowed by an alias and not
   * rewritten by auto-sudo, sets exactly the entry `SplitExport` finds (with
   * status 0), so the next command handed to `sh -c` runs with the new
   * environment; a pair `set_var` refuses aborts the process instead.
   */
  lemma ExportSetsEnvironment(w: World, aliases: map<string, string>, s: SessionState, line: string,
                              name: string, value: string, fuel: nat)
    requires Trim(line) == line && SplitExport(line) == Some((name, value))
    requires w.split(line).None? || (w.split(line).value != [] && w.split(line).value[0] == "export")
    requires "export" !in aliases
    ensures Dispatch(w, aliases, s, line, fuel)
            == if SetVarPanics(name, value) then Step(Ok(Panicked(name, value)), s)
               else Step(Ok(EnvSet(name, value)), s.(env := s.env[name := value]))
  {
    assert Dispatch(w, aliases, s, line, fuel) == Delegation(w, s, line) by {
      ExportLineNotBuiltin(line);
      assert ExpandAlias(Trim(line), aliases, w.split) == line;
      DispatchDelegates(w, aliases, s, line, fuel);
    }
    ExportDelegation(w, s, line, name, value);
  }

  /** Past the builtins, an `export` line that auto-sudo leaves alone sets the variable `SplitExport` finds, or aborts. */
  lemma ExportDelegation(w: World, s: SessionState, line: string, name: string, value: string)
    requires Trim(line) == line && SplitExport(line) == Some((name, value))
    requires w.split(line).None? || (w.split(line).value != [] && w.split(line).value[0] == "export")
    ensures Delegation(w, s, line)
            == if SetVarPanics(name, value) then Step(Ok(Panicked(name, value)), s)
               else Step(Ok(EnvSet(name, value)), s.(env := s.env[name := value]))
  {
    assert CheckAutoSudo(line, w.split, w.isRoot, w.answer(line)) == line by {
      if w.split(line).Some? {
        NotAnEditor(w.split(line).value[0]);
      }
    }
  }

  /** The history after a line is read: the raw line is added unless it is blank. */
  function Remember(s: SessionState, line: string): (r: SessionState)
    ensures r.history == s.history + (if AllSpace(line) then [] else [line])
    ensures r == s.(history := r.history)
  {
    if Trim(line) != [] then s.(history := s.history + [line]) else s
  }

  /** The last status after a line ran: its outcome's status, 1 on an error, unchanged when the process ends (`exit`, a panic). */
  function Settle(st: Step): (r: Step)
    ensures r.result == st.result
    ensures r.result.Err? ==> r.state.lastStatus == 1
    ensures r.result.Ok? && !r.result.outcome.Ends() ==> r.state.lastStatus == Status(r.result.outcome)
    ensures r.result.Ok? && r.result.outcome.Ends() ==> r.state.lastStatus == st.state.lastStatus
    ensures r.state == st.state.(lastStatus := r.state.lastStatus)
  {
    match st.result
    case Ok(o) => if o.Ends() then st else Step(st.result, st.state.(lastStatus := Status(o)))
    case Err(_) => Step(st.result, st.state.(lastStatus := 1))
  }

  /**
   * The read loop's handling of one submitted line: the raw line joins the
   * history when its trim is non-empty, then it is dispatched; the last status
   * becomes the outcome's status, or 1 on an error. `exit` or a panic ends the process
   * before the status is stored.
   */
  function SubmitStep(w: World, aliases: map<string, string>, s: SessionState, line: string, fuel: nat): (r: Step)
    ensures r.state.history == s.history + (if AllSpace(line) then [] else [line])
    ensures r.result.Err? ==> r.state.lastStatus == 1
    ensures r.result.Ok? && !r.result.outcome.Ends() ==> r.state.lastStatus == Status(r.result.outcome)
    ensures r.result.Ok? && r.result.outcome.Ends() ==> r.state.lastStatus == s.lastStatus
    ensures var st := Dispatch(w, aliases, Remember(s, line), line, fuel);
            r.result == st.result && r.state == st.state.(lastStatus := r.state.lastStatus)
  {
    Settle(Dispatch(w, aliases, Remember(s, line), line, fuel))
  }
}
