/**
 * The running shell: the state `main` keeps across iterations of its read
 * loop (the process's cwd and environment, `prev_dir`, rustyline's history,
 * the files' permission bits, `last_exit_code`) as the fields of one object,
 * updated in place by `handle_builtin`, `execute_command` and the loop body.
 * Each method is proved to leave the object in the state the corresponding
 * function of `Pipeline` computes.
 */
module Shell {
  import opened Common
  import opened Text
  import opened Pipeline
  import Highlighter

  class Session {
    var cwd: string
    var prevDir: Option<string>
    var env: map<string, string>
    var history: seq<string>
    var fileModes: map<string, bv32>
    var lastStatus: int

    /** The object's fields as a value. */
    function State(): SessionState
      reads this
    {
      SessionState(cwd, prevDir, env, history, fileModes, lastStatus)
    }

    /** The shell at start-up: no previous directory, status 0, the history loaded from the history file. */
    constructor(cwd: string, env: map<string, string>, history: seq<string>, fileModes: map<string, bv32>)
      ensures State() == SessionState(cwd, None, env, history, fileModes, 0)
    {
      this.cwd := cwd;
      this.prevDir := None;
      this.env := env;
      this.history := history;
      this.fileModes := fileModes;
      this.lastStatus := 0;
    }

    /** The `cd` branch of `handle_builtin`. */
    method ChangeDirectory(chdir: (string, string) -> Option<string>, arg: string) returns (messages: seq<string>)
      modifies this
      ensures CdResult(messages, State()) == CdStep(chdir, old(State()), arg)
    {
      var target: string;
      if arg == [] {
        target := Home(env).GetOr("/");
      } else if arg == "-" {
        if prevDir.None? {
          return ["No previous directory"];
        }
        target := prevDir.value;
        prevDir := None;
      } else {
        target := Highlighter.ExpandTilde(arg, Home(env));
      }
      var current := cwd;
      match chdir(current, target)
      case Some(dir) =>
        cwd := dir;
        prevDir := Some(current);
        messages := [];
      case None =>
        messages := ["cd: no such file or directory: " + arg];
    }

    /** The `history` builtin: the entries from the newest, numbered from 1. */
    method ListHistory() returns (listing: seq<string>)
      ensures listing == HistoryListing(history)
    {
      listing := [];
      var i := 0;
      while i < |history|
        invariant 0 <= i <= |history|
        invariant |listing| == i
        invariant forall k :: 0 <= k < i ==> listing[k] == Decimal(k + 1) + ": " + history[|history| - 1 - k]
      {
        listing := listing + [Decimal(i + 1) + ": " + history[|history| - 1 - i]];
        i := i + 1;
      }
    }

    /** `handle_builtin`: the outcome when the line is a builtin, none otherwise. */
    method HandleBuiltin(chdir: (string, string) -> Option<string>, line: string) returns (handled: Option<Outcome>)
      modifies this
      ensures BuiltinResult(handled, State()) == Builtins(chdir, old(State()), line)
    {
      var t := Trim(line);
      if StartsWith(t, "cd") {
        var messages := ChangeDirectory(chdir, Trim(t[2..]));
        return Some(Builtin(messages));
      }
      if t == "exit" {
        return Some(Exit);
      }
      if t == "history" {
        var listing := ListHistory();
        return Some(Builtin(listing));
      }
      if t == "hsh-help" {
        return Some(Builtin([]));
      }
      return None;
    }

    /** `execute_command`: `fuel` bounds how deeply `source` may nest. */
    method Execute(w: World, aliases: map<string, string>, input: string, fuel: nat) returns (result: Result)
      modifies this
      ensures Step(result, State()) == Dispatch(w, aliases, old(State()), input, fuel)
      decreases fuel, 5
    {
      var line := ExpandAlias(Trim(input), aliases, w.split);

      if StartsWith(line, "source ") || StartsWith(line, ". ") {
        var offset := if StartsWith(line, "source ") then 7 else 2;
        result := Source(w, aliases, Trim(line[offset..]), fuel);
        return;
      }

      var handled := HandleBuiltin(w.chdir, line);
      if handled.Some? {
        return Ok(handled.value);
      }
      result := HandOver(w, line);
    }

    /** The `source` branch of `execute_command`: read the file, then run its lines. */
    method Source(w: World, aliases: map<string, string>, path: string, fuel: nat) returns (result: Result)
      modifies this
      ensures Step(result, State()) == SourceFile(w, aliases, old(State()), path, fuel)
      decreases fuel, 3
    {
      var file := Highlighter.ExpandTilde(path, Home(env));
      var contents := w.readFile(file);
      if contents.None? {
        return Err(ReadFailed(file));
      }
      result := RunSourced(w, aliases, Lines(contents.value), fuel);
    }

    /** The loop of `execute_command` over the lines of a sourced file. */
    method RunSourced(w: World, aliases: map<string, string>, lines: seq<string>, fuel: nat) returns (result: Result)
      modifies this
      ensures Step(result, State()) == RunScript(w, aliases, old(State()), lines, 0, fuel)
      decreases fuel, 2
    {
      ghost var start := old(State());
      var last := 0;
      var k := 0;
      while k < |lines|
        invariant 0 <= k <= |lines|
        invariant RunScript(w, aliases, start, lines, 0, fuel) == RunScript(w, aliases, State(), lines[k..], last, fuel)
      {
        var stop;
        stop, last := SourceLine(w, aliases, lines[k..], last, fuel);
        if stop.Some? {
          return stop.value;
        }
        k := k + 1;
      }
      assert lines[k..] == [];
      return Ok(Sourced(last));
    }

    /**
     * The body of that loop for the first of `lines`: run it if it is
     * eligible; stop with the result on an error, `exit` or a panic, otherwise go on
     * with the new last status.
     */
    method SourceLine(w: World, aliases: map<string, string>, lines: seq<string>, last: int, fuel: nat)
      returns (stop: Option<Result>, last': int)
      requires lines != []
      modifies this
      ensures stop.Some? ==> Step(stop.value, State()) == RunScript(w, aliases, old(State()), lines, last, fuel)
      ensures stop.None? ==>
                RunScript(w, aliases, old(State()), lines, last, fuel) == RunScript(w, aliases, State(), lines[1..], last', fuel)
      decreases fuel, 1
    {
      if !Eligible(lines[0]) {
        RunScriptSkips(w, aliases, State(), lines, last, fuel);
        return None, last;
      }
      if fuel == 0 {
        return Some(Err(DepthExhausted)), last;
      }
      stop, last' := RunLine(w, aliases, lines, last, fuel);
    }

    /** An eligible line of a sourced file, run by a recursive `execute_command`. */
    method RunLine(w: World, aliases: map<string, string>, lines: seq<string>, last: int, fuel: nat)
      returns (stop: Option<Result>, last': int)
      requires lines != [] && Eligible(lines[0]) && fuel > 0
      modifies this
      ensures stop.Some? ==> Step(stop.value, State()) == RunScript(w, aliases, old(State()), lines, last, fuel)
      ensures stop.None? ==>
                RunScript(w, aliases, old(State()), lines, last, fuel) == RunScript(w, aliases, State(), lines[1..], last', fuel)
      decreases fuel, 0
    {
      ghost var s0 := State();
      var line, depth := lines[0], fuel - 1;
      ghost var st := Dispatch(w, aliases, s0, line, depth);
      RunScriptRuns(w, aliases, s0, lines, last, fuel, st);
      var r := Execute(w, aliases, line, depth);
      assert Step(r, State()) == st;
      if r.Err? || r.outcome.Ends() {
        assert RunScript(w, aliases, s0, lines, last, fuel) == st;
        stop, last' := Some(r), last;
      } else {
        assert RunScript(w, aliases, s0, lines, last, fuel)
               == RunScript(w, aliases, st.state, lines[1..], Status(r.outcome), fuel);
        stop, last' := None, Status(r.outcome);
      }
    }

    /** `env::set_var`: one entry of the environment changes, nothing else. */
    method SetVariable(name: string, value: string)
      modifies this
      ensures State() == old(State()).(env := old(env)[name := value])
    {
      env := env[name := value];
    }

    /** The stages of `execute_command` after the builtins: auto-sudo, `export`, then the launch. */
    method HandOver(w: World, line: string) returns (result: Result)
      modifies this
      ensures Step(result, State()) == Delegation(w, old(State()), line)
    {
      var cmd := CheckAutoSudo(line, w.split, w.isRoot, w.answer(Trim(line)));
      var assignment := SplitExport(cmd);
      if assignment.Some? {
        var (name, value) := assignment.value;
        if SetVarPanics(name, value) {
          return Ok(Panicked(name, value));
        }
        SetVariable(name, value);
        return Ok(EnvSet(name, value));
      }
      result := Run(w, cmd);
    }

    /** `ensure_executable` for a `.sh` line, `hl run` for a `.hl` line, then `sh -c`. */
    method Run(w: World, line: string) returns (result: Result)
      modifies this
      ensures Step(result, State()) == Launch(w, old(State()), line)
    {
      var cmd := line;
      if EndsWith(cmd, ".sh") {
        if cmd in fileModes {
          fileModes := fileModes[cmd := EnsureExecutable(fileModes[cmd])];
        }
      } else if EndsWith(cmd, ".hl") {
        cmd := "hl run " + cmd;
      }
      match w.run(cmd, cwd, env)
      case SpawnFailed =>
        result := Err(SpawnError);
      case Exited(code) =>
        result := Ok(Delegate(cmd, code.GetOr(1)));
    }

    /** The read loop's `last_exit_code = ... .unwrap_or(1)`; `exit` and a panic never get this far. */
    method RecordStatus(result: Result)
      modifies this
      ensures Step(result, State()) == Settle(Step(result, old(State())))
    {
      if result.Err? {
        lastStatus := 1;
      } else if !result.outcome.Ends() {
        lastStatus := Status(result.outcome);
      }
    }

    /**
     * One iteration of the read loop on a line read: the line joins the
     * history unless it is blank, it is executed, and its status (1 on an
     * error) becomes the last status; `exit` or a panic ends the process first.
     */
    method Submit(w: World, aliases: map<string, string>, line: string, fuel: nat) returns (result: Result)
      modifies this
      ensures Step(result, State()) == SubmitStep(w, aliases, old(State()), line, fuel)
    {
      if Trim(line) != [] {
        history := history + [line];
      }
      ghost var entered := State();
      assert entered == Remember(old(State()), line);
      result := Execute(w, aliases, line, fuel);
      RecordStatus(result);
    }
  }
}
