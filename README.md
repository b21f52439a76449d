# hsh: the highlighter and the dispatch pipeline, in Dafny

hsh is an interactive shell. Its `main.rs` holds two pieces of sequential
logic, and this project models both over ASCII text and proves properties
about them.

- **The syntax-highlighting lexer** (`ShellHelper::highlight`) scans the line
  once, left to right. It keeps an index and an "in command position" flag,
  and colours whitespace, quoted strings, `$` variables, the operators
  `&& || & | ; > <` and words. Words are coloured by position, by a leading
  `-`, or by looking path-like and existing. A line containing a dangerous
  pattern is shown as one blinking warning instead.
  - `Highlighter.Classify` cuts a line into typed spans.
  - `Highlighter.Render` writes each span in its colour.
  - `Highlighter.Highlight` is the imperative loop the shell runs. It is
    proved to produce exactly `Highlighted(line, probe)`.
- **The dispatch pipeline** (`execute_command`, `handle_builtin`,
  `check_auto_sudo`, `ensure_executable`, and the read loop's history and
  exit-status rule) runs these stages in order:
  1. one-level alias expansion;
  2. `source F` / `. F`;
  3. the builtins `cd`, `exit`, `history` and `hsh-help`;
  4. auto-sudo for editors opened on system files;
  5. `export NAME=VALUE`;
  6. `.sh`/`.hl` handling;
  7. the hand-over to `sh -c`.

  The module `Pipeline` gives the whole pipeline as pure functions of a
  `SessionState`. The class `Shell.Session` holds the state the shell updates
  in place: cwd, `prev_dir`, the environment, the history, file permission
  bits and the last exit status. Its methods are proved to leave the object
  in the state those functions compute.

Everything outside these two pieces is passed in as a parameter:

- the highlighter's `Probe`: the command cache, the set of existing paths,
  and `$HOME`;
- the pipeline's `World`:
  - `shlex::split` as an uninterpreted function;
  - `set_current_dir` / `current_dir`;
  - `read_to_string`;
  - the user's answer at the sudo prompt;
  - `getuid() == 0`;
  - the exit status of `sh -c`.

The model follows the code's quirks:

- `cdrom` means `cd rom`.
- `cd -` takes the previous directory, and a successful change stores the
  directory just left, so repeated `cd -` toggles.
- An alias used without arguments leaves a trailing space.
- The `.sh` test and the `chmod` apply to the whole line.
- `export =v` makes `std::env::set_var` panic, and the shell dies. The model
  gives this case its own outcome, `Panicked`.

Repeated `cd -` toggles between the two directories; it never reports "No
previous directory" while one is recorded (`Pipeline.CdDashToggles`).

## Model

| member | source | states |
|---|---|---|
| `Text.Trim` | source-code/src/main.rs:416 | the trim has no whitespace at either end, it is never longer than the line, and it is empty exactly when the line is all whitespace |
| `Text.TrimIsSlice` | source-code/src/main.rs:416 | the trim is a slice of the line with only whitespace before and after it |
| `Text.Contains` | source-code/src/main.rs:117 | the text contains the pattern exactly when the pattern occurs at some index of it |
| `Text.ContainsInfix` | source-code/src/main.rs:117 | a pattern is contained in any text built around it |
| `Text.Find` | source-code/src/main.rs:445 | the index of the first `=`: it holds `=` and nothing before it does, and there is none exactly when the text has no `=` |
| `Text.RFind` | source-code/src/main.rs:79 | the index of the last space: it holds a space and nothing after it does |
| `Text.Join` | source-code/src/main.rs:421 | joining nothing gives the empty text, one part gives that part, and several start with the first part and a space |
| `Text.JoinConcat` | source-code/src/main.rs:421 | joining two non-empty lists of tokens is joining each and putting one space between them |
| `Text.Lines` | source-code/src/main.rs:430 | the lines of a file contain no line feed, and only an empty file has no lines |
| `Text.LinesCons` | source-code/src/main.rs:430 | a file that starts with a line and a line feed has that line, without a trailing carriage return, followed by the lines of the rest |
| `Text.LinesLast` | source-code/src/main.rs:430 | a non-empty file without a line feed is one line |
| `Text.Decimal` | source-code/src/main.rs:359 | the number of a history entry is written as a non-empty string of decimal digits, which starts with `0` only for zero |
| `Text.DecimalValue` | source-code/src/main.rs:359 | the digits written denote the number again |
| `Text.ToLower` | source-code/src/main.rs:402 | the sudo answer is lower-cased letter by letter: ASCII capitals become small letters, every other character stays, and no capital is left |
| `Highlighter.CommandExists` | source-code/src/main.rs:54-56 | a word names a command exactly when it is one of the cached commands or an existing path |
| `Highlighter.IsPathLike` | source-code/src/main.rs:261-267 | a word starting with `/`, `./`, `../` or `~`, or made only of path characters, is path-like; a word that is not path-like is non-empty, does not start with `/` or `~`, and has a non-path character |
| `Highlighter.ExpandTilde` | source-code/src/main.rs:268-278 | a leading `~` becomes `$HOME` followed by the rest of the word, when `$HOME` is set; otherwise the word is unchanged |
| `Highlighter.WordRole` | source-code/src/main.rs:213-225 | in command position a word is green exactly when the command exists and red otherwise; elsewhere it is never green or red, it is an option exactly when it starts with `-`, and a path exactly when it is path-like and exists after tilde expansion |
| `Highlighter.QuoteEnd` | source-code/src/main.rs:134-136 | the scan stops at the first matching quote at or after the start, or at the end of the line |
| `Highlighter.VarEnd` | source-code/src/main.rs:160-166 | a variable name runs over alphanumerics and `_` and stops at the first other character |
| `Highlighter.WordEnd` | source-code/src/main.rs:205-211 | a word stops at the first whitespace, operator, quote or `$` |
| `Highlighter.NextSpan` | source-code/src/main.rs:124-228 | one iteration moves the index forward by at least one, and the span is exactly the text it passed over |
| `Highlighter.NextSpanKinds` | source-code/src/main.rs:124-228 | the first character decides the kind: whitespace is one character and keeps the flag, an operator character opens an operator and sets the flag, and any other non-stop character opens a word that runs over non-stop characters, is coloured by its position and clears the flag, as a quoted string or variable does |
| `Highlighter.NextSpanExtent` | source-code/src/main.rs:130-211 | a quote opens a quoted span that ends past the matching quote, or at the end of the line; a `$` opens a variable span that ends where the name ends; a word ends at its first stop character; an operator span is two characters exactly for `&&` and `||`, and otherwise the one operator character |
| `Highlighter.ScanQuoted` | source-code/src/main.rs:130-139 | the loop over a quoted string ends past the closing quote, or at the end of the line when the quote is unterminated |
| `Highlighter.ScanVariable` | source-code/src/main.rs:156-166 | the loop over a variable name ends where `VarEnd` says the name ends |
| `Highlighter.ScanWord` | source-code/src/main.rs:202-211 | the loop over a word ends where `WordEnd` says the word ends |
| `Highlighter.ScanSpan` | source-code/src/main.rs:124-228 | one loop iteration appends the rendering of the span `NextSpan` gives, moves the index to its end and sets the flag `NextSpan` gives |
| `Highlighter.Highlight` | source-code/src/main.rs:115-231 | the output is the blinking whole line for a dangerous line, and otherwise the rendering of the line's spans in order |
| `Highlighter.HighlightSpans` | source-code/src/main.rs:120-230 | the scan loop writes exactly the rendering of the line's spans |
| `Highlighter.CoverageFrom` | source-code/src/main.rs:123-229 | from any index the scan reaches, the spans are non-empty and their texts concatenated in order give back the rest of the line |
| `Highlighter.Classify` | source-code/src/main.rs:120-229 | the spans of a whole line are non-empty, only the empty line has none, and their texts concatenated in order give back the line |
| `Highlighter.RenderSpanShows` | source-code/src/main.rs:125-227 | whitespace and a single `&` are written bare and every other span is coloured and ends with the reset code; a terminal shows exactly the span's text |
| `Highlighter.RenderShows` | source-code/src/main.rs:120-230 | stripping the colour codes from the rendering of spans gives back their texts in order |
| `Highlighter.CommandPositionRule` | source-code/src/main.rs:213-227 | every word is coloured by whether the last non-whitespace span before it is an operator (or there is none); such a word is green or red purely by whether the command exists, and no other word is ever green or red |
| `Highlighter.FirstWordIsCommand` | source-code/src/main.rs:122 | the first word of a line, after any whitespace, is coloured as a command |
| `Highlighter.DangerousOverride` | source-code/src/main.rs:116-119 | any line containing one of the four dangerous patterns, whatever surrounds it, is output as the whole line in blinking red and nothing else |
| `Highlighter.Highlighted` | source-code/src/main.rs:115-231 | removing the colour codes from the output gives back the line, for a dangerous line and for any other, whenever the line has no escape character of its own |
| `Hints.CommandHint` | source-code/src/main.rs:86-91 | the hint is the rest of the first cached command starting with the typed prefix, and there is none exactly when no cached command starts with it |
| `Hints.LastWord` | source-code/src/main.rs:79-82 | the last word is never empty, and the part before it is empty exactly when the line has no space, in which case the word is the whole line. Otherwise the line is the part before, one space and the last word, and the last word holds no space |
| `Hints.Hint` | source-code/src/main.rs:71-112 | a history hint wins, a blank line gets none, a single typed word gets exactly the command-cache hint for it, and any completion comes from a cached command that extends it. Without a history hint, a line with a space gets exactly the file hint for its last word |
| `Hints.Padding` | source-code/src/main.rs:526 | the prompt's first line fills the terminal exactly when both parts fit, and gets no padding otherwise |
| `Pipeline.ExpandAlias` | source-code/src/main.rs:416-423 | a line that does not split, or whose first token is no alias, is unchanged; otherwise it starts with the alias value and a space |
| `Pipeline.AliasOneLevel` | source-code/src/main.rs:416-423 | expansion uses only the first token's own entry in the table, so the value's first token is never looked up again; the result is the value, a space and the other tokens joined |
| `Pipeline.AliasWithoutArguments` | source-code/src/main.rs:421 | an alias used alone expands to its value followed by a space |
| `Pipeline.EligibleFirstChar` | source-code/src/main.rs:431-432 | a line of a sourced file runs exactly when its first character that is not whitespace exists and is not `!` |
| `Pipeline.SourcePath` | source-code/src/main.rs:425-427 | a file is named exactly when the line starts with `source ` or `. `, and the name is the trimmed rest after that prefix |
| `Pipeline.CdTarget` | source-code/src/main.rs:335-345 | no argument goes to `$HOME` (or `/` when it is unset), `-` goes to the previous directory and fails only when there is none, and any other argument is used with a leading `~` replaced by `$HOME`, or as written when `$HOME` is unset |
| `Pipeline.CdStep` | source-code/src/main.rs:333-353 | a successful `cd` moves to the new directory and records the one left. A failed `cd` keeps the cwd and reports the argument. `cd -` without a previous directory changes nothing. Nothing else in the state changes |
| `Pipeline.CdRoundTrip` | source-code/src/main.rs:338-349 | from A, `cd B` then `cd -` ends in A with B as the previous directory |
| `Pipeline.CdDashToggles` | source-code/src/main.rs:337-349 | two consecutive `cd -` toggle between the two directories and each records the other |
| `Pipeline.HistoryListing` | source-code/src/main.rs:357-361 | the listing has one line per entry, newest first, each numbered from 1 as `N: entry` |
| `Pipeline.Builtins` | source-code/src/main.rs:331-384 | a line is handled exactly when its trim starts with `cd` or is `exit`, `history` or `hsh-help`. A `cd` line is the `cd` step to its trimmed rest, `history` lists the history, `hsh-help` prints the help and keeps the state, only `exit` exits, and every other line leaves the state unchanged. No builtin changes the history, the environment or the file modes |
| `Pipeline.CdPrefixQuirk` | source-code/src/main.rs:333-334 | a line that merely starts with `cd` is a `cd` of the rest, so `cdrom` changes to `rom` |
| `Pipeline.CdLine` | source-code/src/main.rs:333-334 | `cd`, whitespace and a trimmed argument is the `cd` step to that argument |
| `Pipeline.CheckAutoSudo` | source-code/src/main.rs:388-409 | the line becomes `sudo` and the joined tokens exactly when it splits, an editor is opened on a file under `/etc/` or `/usr/bin/`, the user is not root and the answer is `y`; in every other case it is the trimmed line |
| `Pipeline.SudoNeedsConsent` | source-code/src/main.rs:397-404 | only the trimmed, lower-cased answer matters, any answer other than `y` declines, and root never gets `sudo` |
| `Pipeline.SplitAssignment` | source-code/src/main.rs:444-447 | there is a pair exactly when the text has an `=`; the name has no `=` and both parts are trimmed |
| `Pipeline.SplitExport` | source-code/src/main.rs:443-447 | there is a pair exactly when the line starts with `export ` and its trimmed rest has an `=` |
| `Pipeline.AssignmentRoundTrip` | source-code/src/main.rs:445-447 | splitting a trimmed name without `=`, an `=` and a trimmed value gives back that name and value, even when the value contains `=` |
| `Pipeline.SplitAtFirstEquals` | source-code/src/main.rs:445-447 | the text is cut at its first `=` whatever surrounds it, and the name and value are each trimmed |
| `Pipeline.ExportRoundTrip` | source-code/src/main.rs:443-447 | `export NAME=VALUE` built from such a name and value gives them back |
| `Pipeline.SetVarPanics` | source-code/src/main.rs:448 | `set_var` accepts a pair exactly when the name is non-empty and has no `=` or NUL, and the value has no NUL |
| `Pipeline.ExportWithoutNamePanics` | source-code/src/main.rs:446-448 | `export =VALUE` yields an empty name, which `set_var` refuses |
| `Pipeline.EnsureExecutable` | source-code/src/main.rs:323-324 | the new mode always has an execute bit. All three are added when none was set, a mode with one is unchanged, and no other bit ever changes |
| `Pipeline.MakeExecutable` | source-code/src/main.rs:319-330 | only the named file's mode changes, to its executable form, and a file without metadata changes nothing |
| `Pipeline.FinalCommand` | source-code/src/main.rs:452-456 | a `.hl` line that is not a `.sh` line runs through `hl run`, and every other line is handed over as it is |
| `Pipeline.Launch` | source-code/src/main.rs:452-464 | only the file modes change, and only for a `.sh` line. A spawn failure is an error. Otherwise the final command is delegated with the child's exit code, or 1 when it has none |
| `Pipeline.Delegation` | source-code/src/main.rs:441-464 | a line that is not an `export` assignment after auto-sudo is launched as the auto-sudo result. An `export` line gives exactly the pair `SplitExport` finds and sets exactly that one entry, or aborts with the state unchanged when `set_var` refuses the pair. These stages never change the cwd, the previous directory, the history or the last status |
| `Pipeline.Dispatch` | source-code/src/main.rs:410-465 | dispatching a line, however deeply it sources, never changes the history or the last status. Which branch it takes is stated by `DispatchSources`, `DispatchBuiltin` and `DispatchDelegates` |
| `Pipeline.DispatchSources` | source-code/src/main.rs:424-436 | a `source F` line, after alias expansion, is exactly the `source` of F: an unreadable F, with `~` expanded, is an error naming it with the state unchanged, and a readable F has its lines run from status 0 |
| `Pipeline.DispatchBuiltin` | source-code/src/main.rs:437-440 | a line that is not `source` but is a builtin, after alias expansion, has the builtin's outcome and new state |
| `Pipeline.SourceFile` | source-code/src/main.rs:425-436 | a file that cannot be read, after tilde expansion, is an error naming it and the state is unchanged; a readable file's lines are run from status 0 |
| `Pipeline.RunScript` | source-code/src/main.rs:429-436 | a sourced file that does not end the process finishes as `Sourced`, and never changes the history or the last status |
| `Pipeline.EligibleLines` | source-code/src/main.rs:431-432 | every line kept is non-blank and does not start with `!` |
| `Pipeline.SourceRunsEligibleLines` | source-code/src/main.rs:430-434 | sourcing a file runs exactly its eligible lines: dropping the blank and `!` lines changes nothing |
| `Pipeline.SourceNothingToRun` | source-code/src/main.rs:429-436 | a file without eligible lines sources to status 0 and changes nothing |
| `Pipeline.SourceSequence` | source-code/src/main.rs:430-435 | the lines run in file order: running `first + rest` runs `first`, then `rest` only if `first` finished normally; an error, `exit` or a panic skips `rest` |
| `Pipeline.SourceLastStatus` | source-code/src/main.rs:433-436 | the status of `source` is that of dispatching its last eligible line alone |
| `Pipeline.SourceAbortsOnError` | source-code/src/main.rs:433 | an error in one line is the file's result and no later line runs |
| `Pipeline.DispatchDelegates` | source-code/src/main.rs:438-441 | a line that is neither `source` nor a builtin reaches the later stages with the state unchanged |
| `Pipeline.ExportLineNotBuiltin` | source-code/src/main.rs:425-443 | an `export ` line is neither `source` nor any builtin |
| `Pipeline.ExportSetsEnvironment` | source-code/src/main.rs:443-449 | an `export NAME=VALUE` line not shadowed by an alias sets exactly that entry with status 0, or aborts when `set_var` refuses the pair |
| `Pipeline.ExportDelegation` | source-code/src/main.rs:441-449 | auto-sudo leaves an `export` line alone, so the stages after the builtins set the variable `SplitExport` finds |
| `Pipeline.Status` | source-code/src/main.rs:436-464 | builtins, `exit` and `export` report 0, a sourced file or a delegated command reports its own status, a panic reports 101, and only these last three can report anything other than 0 |
| `Pipeline.Remember` | source-code/src/main.rs:534-537 | the raw, untrimmed line is appended to the history exactly when it is not all whitespace, and nothing else changes |
| `Pipeline.Settle` | source-code/src/main.rs:538 | the last status becomes the outcome's status, or 1 on an error, and stays as it was when the process ends; nothing else changes |
| `Pipeline.SubmitStep` | source-code/src/main.rs:533-538 | one loop iteration adds the non-blank raw line to the history, then has exactly the result and state of dispatching the line; it stores the line's status, 1 on an error, and keeps the old status when the line ends the session |
| `Shell.Session.constructor` | source-code/src/main.rs:494-495 | the shell starts with no previous directory and status 0 |
| `Shell.Session.ChangeDirectory` | source-code/src/main.rs:333-353 | the in-place `cd` leaves the object in the state `CdStep` gives and prints its messages |
| `Shell.Session.ListHistory` | source-code/src/main.rs:357-361 | the loop produces the history listing, newest first and numbered from 1 |
| `Shell.Session.HandleBuiltin` | source-code/src/main.rs:331-384 | the in-place builtin handler agrees with `Builtins` on both its answer and the new state |
| `Shell.Session.Execute` | source-code/src/main.rs:410-465 | running a line in place agrees with `Dispatch`, for both the result and the new state |
| `Shell.Session.Source` | source-code/src/main.rs:425-436 | the `source` branch agrees with `SourceFile` |
| `Shell.Session.RunSourced` | source-code/src/main.rs:429-436 | the loop over a file's lines, with its running last status, agrees with `RunScript` |
| `Shell.Session.SourceLine` | source-code/src/main.rs:431-434 | one iteration either stops with the file's result or continues from the state and status `RunScript` continues from |
| `Shell.Session.RunLine` | source-code/src/main.rs:433 | the recursive call on an eligible line either stops the file or continues as `RunScript` does |
| `Shell.Session.SetVariable` | source-code/src/main.rs:448 | exactly one environment entry changes |
| `Shell.Session.HandOver` | source-code/src/main.rs:441-464 | auto-sudo, `export` and the launch, run in place, agree with `Delegation` |
| `Shell.Session.Run` | source-code/src/main.rs:452-464 | `ensure_executable`, the `hl run` rewrite and the child's status, run in place, agree with `Launch` |
| `Shell.Session.RecordStatus` | source-code/src/main.rs:538 | storing the last status agrees with `Settle` |
| `Shell.Session.Submit` | source-code/src/main.rs:533-538 | one read-loop iteration, run in place, agrees with `SubmitStep` |

## Left out

- Terminal plumbing is not modelled:
  - rustyline's completion, validator and history hinter;
  - the editor loop, key binding and readline errors;
  - `highlight_prompt`, `highlight_hint` and `highlight_char`.

  These are library calls and terminal I/O. The history hint is a parameter of `Hints.Hint`.
- `Hints.Hint`: the file-suggestion branch lists a directory with `read_dir`, so it is a parameter `fileHint`.
- The command cache is given as a `seq<string>`. Building it by enumerating `$PATH` needs `read_dir`.
- These spawn processes, so they are left out: `get_git_branch`, the MOTD script, and how `sh -c` runs the command. Only the final command and its exit status are modelled.
- `load_config`, `get_aliases` and `get_prompt_config` wrap a configuration parser that is not part of this model. The alias table is a parameter.
- The prompt's text is left out: memory and CPU figures, terminal size, the clock, and the ANSI assembly. Only the padding arithmetic is modelled, in `Hints.Padding`.
- The text printed by `hsh-help` and the sudo question are left out. `hsh-help` is a builtin that prints nothing in the model.
- `shlex::split` is an uninterpreted function, and `getuid` and the answer read from stdin are injected. The answer is a function of the trimmed line, so the same line always gets the same answer.
- Non-ASCII input is out of scope. The lexer casts single bytes to `char` and slices at byte indices. `string` here admits any character, and the model is faithful only on ASCII lines.
- `Pipeline.Dispatch`: the source's recursion through `source` has no bound, so a file that sources itself never returns. In the model, a `fuel` parameter bounds the nesting depth. Running out of fuel is the error `DepthExhausted`, and the read loop then stores status 1 and goes on.
- `Pipeline.Remember`: rustyline's own history filtering is not modelled. It drops lines starting with a space (`history_ignore_space`) and consecutive duplicates, and keeps at most 100 entries. The model appends every non-blank line, so `"  ls"` joins the history here but not in the shell.
- `Pipeline.MakeExecutable`: a failed `set_permissions` leaves the mode unchanged in the shell. The model always stores the new mode, and the error message is not modelled.
- `Pipeline.Route`: its own contract states only that the history and the last status are unchanged. Its three branches are stated through `Pipeline.Dispatch` by `Pipeline.DispatchSources` (a `source` line is `SourceFile` of its path), `Pipeline.DispatchBuiltin` (a builtin line is the builtin's outcome and state) and `Pipeline.DispatchDelegates` (any other line is `Delegation`).
- `Pipeline.SourceFile`: files and permission bits are keyed by the path string as written. A relative path does not depend on the cwd, while `chdir` and `sh -c` do take the cwd.
- `Pipeline.CdStep`: `env::current_dir()` falls back to `/` when it fails. The model always records the session's cwd as the directory left.
- The `World` is fixed for the whole session. A delegated command cannot change the files, permission bits or directories that later lines see.
- The history file is not modelled. Loading it at start-up is the constructor's `history` argument, and it is saved only at a clean shutdown.
