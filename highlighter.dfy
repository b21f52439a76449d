/**
 * The syntax highlighter of the line editor (`ShellHelper::highlight`,
 * `command_exists`, `is_path_like`, `expand_tilde`).
 *
 * The model is two-staged: `Classify` cuts a line into typed spans
 * in one left-to-right pass, and `Render` wraps every span in its ANSI colour.
 * `Highlight` is the imperative scan the shell runs, proved to produce
 * `Highlighted(line, probe)`.
 */
module Highlighter {
  import opened Common
  import opened Text

  /** What the highlighter may ask of its surroundings. */
  datatype Probe = Probe(
    commands: seq<string>,    // the command cache built from $PATH at start-up
    existing: set<string>,    // the paths for which `Path::exists` answers true
    home: Option<string>      // $HOME, if it is set
  )

  /** The refinement of a word by its position and by lookups. */
  datatype Role = KnownCommand | UnknownCommand | OptionFlag | ExistingPath | PlainWord

  datatype Op = AndAnd | OrOr | Amp | Pipe | Semi | RedirOut | RedirIn

  datatype Kind = Blank | Quoted(quote: char) | Variable | Operator(op: Op) | Word(role: Role)

  datatype Span = Span(text: string, kind: Kind)

  /** One step of the scan: the span found, where the scan resumes, the new command-position flag. */
  datatype Scan = Scan(span: Span, next: nat, cmdPos: bool)

  const Esc: char := '\U{1B}'
  const Reset: string := "\U{1B}[0m"
  const Blink: string := "\U{1B}[5;41m"

  const DangerousPatterns: seq<string> :=
    ["rm -rf /", "rm -rf /*", "dd if=/dev/zero of=/dev/sda", "mkfs /dev/sda"]

  /** The line contains one of the destructive command patterns. */
  predicate IsDangerous(line: string) {
    exists k :: 0 <= k < |DangerousPatterns| && Contains(line, DangerousPatterns[k])
  }

  /** `command_exists`: in the command cache, or an existing path. */
  predicate CommandExists(word: string, probe: Probe)
    ensures CommandExists(word, probe) <==>
              (exists k :: 0 <= k < |probe.commands| && probe.commands[k] == word) || word in probe.existing
  {
    word in probe.commands || word in probe.existing
  }

  predicate PathChar(c: char) {
    IsAlnum(c) || c == '/' || c == '.' || c == '-' || c == '_'
  }

  /** `is_path_like`. */
  function IsPathLike(s: string): (r: bool)
    ensures StartsWith(s, "/") || StartsWith(s, "./") || StartsWith(s, "../") || StartsWith(s, "~") ==> r
    ensures (forall k :: 0 <= k < |s| ==> PathChar(s[k])) ==> r
    ensures !r ==> s != [] && s[0] != '/' && s[0] != '~' && exists k :: 0 <= k < |s| && !PathChar(s[k])
  {
    StartsWith(s, "/") || StartsWith(s, "./") || StartsWith(s, "../") || StartsWith(s, "~")
    || forall k :: 0 <= k < |s| ==> PathChar(s[k])
  }

  /** `expand_tilde`: a leading `~` becomes $HOME when $HOME is set. */
  function ExpandTilde(s: string, home: Option<string>): (r: string)
    ensures !StartsWith(s, "~") || home.None? ==> r == s
    ensures StartsWith(s, "~") && home.Some? ==>
              StartsWith(r, home.value) && r[|home.value|..] == s[1..]
  {
    if StartsWith(s, "~") && home.Some? then home.value + s[1..] else s
  }

  /** The colour a word receives, decided by position first, then by a leading `-`, then by path lookup. */
  function WordRole(word: string, cmdPos: bool, probe: Probe): (r: Role)
    ensures cmdPos ==> (r == KnownCommand || r == UnknownCommand)
    ensures cmdPos ==> (r == KnownCommand <==> CommandExists(word, probe))
    ensures !cmdPos ==> r != KnownCommand && r != UnknownCommand
    ensures !cmdPos ==> (r == OptionFlag <==> StartsWith(word, "-"))
    ensures r == ExistingPath <==>
              !cmdPos && !StartsWith(word, "-") && IsPathLike(word) && ExpandTilde(word, probe.home) in probe.existing
  {
    if cmdPos then
      if CommandExists(word, probe) then KnownCommand else UnknownCommand
    else if StartsWith(word, "-") || StartsWith(word, "--") then OptionFlag
    else if IsPathLike(word) && ExpandTilde(word, probe.home) in probe.existing then ExistingPath
    else PlainWord
  }

  predicate IsOperatorChar(c: char) {
    c == '&' || c == '|' || c == ';' || c == '>' || c == '<'
  }

  /** A character that ends a word. */
  predicate IsWordStop(c: char) {
    IsSpace(c) || IsOperatorChar(c) || c == '"' || c == '\'' || c == '$'
  }

  function SingleOp(c: char): Op
    requires IsOperatorChar(c)
  {
    match c
    case '&' => Amp
    case '|' => Pipe
    case ';' => Semi
    case '>' => RedirOut
    case '<' => RedirIn
  }

  /** The first index at or after `j` holding `quote`, or the end of the line. */
  function QuoteEnd(line: string, j: nat, quote: char): (r: nat)
    requires j <= |line|
    ensures j <= r <= |line|
    ensures r < |line| ==> line[r] == quote
    ensures forall k :: j <= k < r ==> line[k] != quote
    decreases |line| - j
  {
    if j == |line| || line[j] == quote then j else QuoteEnd(line, j + 1, quote)
  }

  /** The first index at or after `j` that is not alphanumeric or `_`. */
  function VarEnd(line: string, j: nat): (r: nat)
    requires j <= |line|
    ensures j <= r <= |line|
    ensures r < |line| ==> !IsAlnum(line[r]) && line[r] != '_'
    ensures forall k :: j <= k < r ==> IsAlnum(line[k]) || line[k] == '_'
    decreases |line| - j
  {
    if j == |line| || (!IsAlnum(line[j]) && line[j] != '_') then j else VarEnd(line, j + 1)
  }

  /** The first index at or after `j` that ends a word. */
  function WordEnd(line: string, j: nat): (r: nat)
    requires j <= |line|
    ensures j <= r <= |line|
    ensures r < |line| ==> IsWordStop(line[r])
    ensures forall k :: j <= k < r ==> !IsWordStop(line[k])
    decreases |line| - j
  {
    if j == |line| || IsWordStop(line[j]) then j else WordEnd(line, j + 1)
  }

  /**
   * One iteration of the scan at index `i`: the span starting there, by the
   * first character: whitespace, a quoted string, a variable, an operator
   * (`&&` and `||` as one span), or a word.
   */
  function NextSpan(line: string, i: nat, cmdPos: bool, probe: Probe): (r: Scan)
    requires i < |line|
    ensures i < r.next <= |line|
    ensures r.span.text == line[i..r.next]
  {
    var c := line[i];
    if IsSpace(c) then
      Scan(Span([c], Blank), i + 1, cmdPos)
    else if c == '"' || c == '\'' then
      var e := QuoteEnd(line, i + 1, c);
      var j := if e < |line| then e + 1 else e;
      Scan(Span(line[i..j], Quoted(c)), j, false)
    else if c == '$' then
      var j := VarEnd(line, i + 1);
      Scan(Span(line[i..j], Variable), j, false)
    else if IsOperatorChar(c) then
      if i + 1 < |line| && ((c == '&' && line[i + 1] == '&') || (c == '|' && line[i + 1] == '|')) then
        Scan(Span(line[i..i + 2], Operator(if c == '&' then AndAnd else OrOr)), i + 2, true)
      else
        Scan(Span([c], Operator(SingleOp(c))), i + 1, true)
    else
      var j := WordEnd(line, i);
      Scan(Span(line[i..j], Word(WordRole(line[i..j], cmdPos, probe))), j, false)
  }

  /**
   * The kind of span by its first character, and the flag it leaves:
   * whitespace is one character and keeps the flag, an operator sets it, and
   * a word is coloured by the flag and clears it like any other span.
   */
  lemma NextSpanKinds(line: string, i: nat, cmdPos: bool, probe: Probe)
    requires i < |line|
    ensures var r := NextSpan(line, i, cmdPos, probe);
            && (r.span.kind.Blank? <==> IsSpace(line[i]))
            && (r.span.kind.Blank? ==> r.next == i + 1)
            && (r.span.kind.Operator? <==> IsOperatorChar(line[i]))
            && (r.span.kind.Word? <==> !IsWordStop(line[i]))
            && (r.span.kind.Word? ==> r.span.kind.role == WordRole(r.span.text, cmdPos, probe))
            && (r.span.kind.Word? ==> forall k :: i <= k < r.next ==> !IsWordStop(line[k]))
            && r.cmdPos == (r.span.kind.Operator? || (r.span.kind.Blank? && cmdPos))
  {
  }

  /**
   * Where each kind of span ends: a quoted string past its matching quote
   * (or at the end of the line), a variable where its name ends, a word at
   * its first stop character, and an operator after two characters exactly
   * for `&&` and `||`.
   */
  lemma NextSpanExtent(line: string, i: nat, cmdPos: bool, probe: Probe)
    requires i < |line|
    ensures var r := NextSpan(line, i, cmdPos, probe);
            && (r.span.kind.Quoted? <==> line[i] == '"' || line[i] == '\'')
            && (r.span.kind.Quoted? ==>
                  r.span.kind.quote == line[i]
                  && r.next == if QuoteEnd(line, i + 1, line[i]) < |line| then QuoteEnd(line, i + 1, line[i]) + 1
                               else QuoteEnd(line, i + 1, line[i]))
            && (r.span.kind.Variable? <==> line[i] == '$')
            && (r.span.kind.Variable? ==> r.next == VarEnd(line, i + 1))
            && (r.span.kind.Word? ==> r.next == WordEnd(line, i))
            && (r.span.kind.Operator? ==>
                  (r.next == i + 2 <==> i + 1 < |line| && line[i] == line[i + 1] && (line[i] == '&' || line[i] == '|')))
            && (r.span.kind.Operator? && r.next == i + 2 ==> r.span.kind.op == (if line[i] == '&' then AndAnd else OrOr))
            && (r.span.kind.Operator? && r.next == i + 1 ==> r.span.kind.op == SingleOp(line[i]))
  {
  }

  /** No span is empty. */
  predicate NonEmptySpans(spans: seq<Span>) {
    forall k :: 0 <= k < |spans| ==> spans[k].text != []
  }

  /** The spans of `line[i..]` when the scan reaches `i` with flag `cmdPos`. */
  function ClassifyFrom(line: string, i: nat, cmdPos: bool, probe: Probe): seq<Span>
    requires i <= |line|
    decreases |line| - i
  {
    if i == |line| then []
    else
      var sc := NextSpan(line, i, cmdPos, probe);
      [sc.span] + ClassifyFrom(line, sc.next, sc.cmdPos, probe)
  }

  /** The spans from index `i` on are non-empty and, concatenated in order, are exactly `line[i..]`. */
  lemma {:induction false} CoverageFrom(line: string, i: nat, cmdPos: bool, probe: Probe)
    requires i <= |line|
    ensures Flatten(ClassifyFrom(line, i, cmdPos, probe)) == line[i..]
    ensures NonEmptySpans(ClassifyFrom(line, i, cmdPos, probe))
    decreases |line| - i
  {
    if i < |line| {
      var sc := NextSpan(line, i, cmdPos, probe);
      var rest := ClassifyFrom(line, sc.next, sc.cmdPos, probe);
      CoverageFrom(line, sc.next, sc.cmdPos, probe);
      assert Flatten([sc.span] + rest) == sc.span.text + Flatten(rest) by {
        assert ([sc.span] + rest)[1..] == rest;
      }
      assert line[i..] == line[i..sc.next] + line[sc.next..];
      assert NonEmptySpans([sc.span] + rest) by {
        assert forall k :: 1 <= k < |rest| + 1 ==> ([sc.span] + rest)[k] == rest[k - 1];
      }
    }
  }

  /**
   * The spans of a whole line, the scan starting at 0 in command position:
   * they are non-empty, only the empty line has none, and concatenated in
   * order they give back the line.
   */
  function Classify(line: string, probe: Probe): (r: seq<Span>)
    ensures Flatten(r) == line
    ensures NonEmptySpans(r)
    ensures line != [] <==> r != []
  {
    CoverageFrom(line, 0, true, probe);
    ClassifyFrom(line, 0, true, probe)
  }

  function RoleColour(role: Role): string {
    match role
    case KnownCommand => "\U{1B}[32m"
    case UnknownCommand => "\U{1B}[31m"
    case OptionFlag => "\U{1B}[33m"
    case ExistingPath => "\U{1B}[36m"
    case PlainWord => ""
  }

  /** The colour code that opens a span of this kind; whitespace and `&` have none. */
  function KindColour(kind: Kind): string {
    match kind
    case Blank => ""
    case Quoted(_) => "\U{1B}[35m"
    case Variable => "\U{1B}[94m"
    case Operator(op) =>
      (match op
       case AndAnd => "\U{1B}[95m"
       case OrOr => "\U{1B}[95m"
       case Semi => "\U{1B}[33m"
       case Pipe => "\U{1B}[1;37m"
       case RedirOut => "\U{1B}[1;37m"
       case RedirIn => "\U{1B}[1;37m"
       case Amp => "")
    case Word(role) => RoleColour(role)
  }

  /** A span as the highlighter writes it: whitespace and `&` bare, everything else coloured and reset. */
  function RenderSpan(sp: Span): string {
    if sp.kind.Blank? || sp.kind == Operator(Amp) then sp.text
    else KindColour(sp.kind) + sp.text + Reset
  }

  /**
   * Whitespace and a single `&` are written bare, every other span ends with
   * the reset code, and the colour codes never hide the text: a terminal
   * shows exactly the span's text.
   */
  lemma RenderSpanShows(sp: Span)
    ensures RenderSpan(sp) == sp.text <==> sp.kind.Blank? || sp.kind == Operator(Amp)
    ensures !(sp.kind.Blank? || sp.kind == Operator(Amp)) ==> EndsWith(RenderSpan(sp), Reset)
    ensures NoEsc(sp.text) ==> StripAnsi(RenderSpan(sp)) == sp.text
  {
    var r := RenderSpan(sp);
    if sp.kind.Blank? || sp.kind == Operator(Amp) {
      if NoEsc(sp.text) {
        StripPlain(sp.text, []);
        assert sp.text + [] == sp.text;
      }
    } else {
      KindColourIsCode(sp.kind);
      assert r[|r| - |Reset|..] == Reset;
      assert |r| > |sp.text|;
      if NoEsc(sp.text) {
        StripColoured(KindColour(sp.kind), sp.text, []);
        assert r + [] == r;
      }
    }
  }

  /** The rendering of spans, one after another. */
  function Render(spans: seq<Span>): string {
    if spans == [] then [] else RenderSpan(spans[0]) + Render(spans[1..])
  }

  /** Stripping the colour codes from a rendering gives back the spans' texts, whenever they hold no escape character. */
  lemma {:induction false} RenderShows(spans: seq<Span>)
    ensures NoEsc(Flatten(spans)) ==> StripAnsi(Render(spans)) == Flatten(spans)
    decreases |spans|
  {
    if spans != [] && NoEsc(Flatten(spans)) {
      NoEscSplit(spans[0].text, Flatten(spans[1..]));
      StripSpan(spans[0], Render(spans[1..]));
      RenderShows(spans[1..]);
    }
  }

  /**
   * What `highlight` returns for a line: a dangerous line blinks whole,
   * otherwise its spans are rendered in order. Either way, stripping the
   * colour codes gives back the line, for any line without an escape
   * character of its own.
   */
  function Highlighted(line: string, probe: Probe): (r: string)
    ensures NoEsc(line) ==> StripAnsi(r) == line
  {
    if IsDangerous(line) then
      assert NoEsc(line) ==> StripAnsi(Blink + line + Reset) == line by {
        if NoEsc(line) {
          assert IsSgr(Blink);
          StripColoured(Blink, line, []);
          assert Blink + line + Reset + [] == Blink + line + Reset;
        }
      }
      Blink + line + Reset
    else
      RenderShows(Classify(line, probe));
      Render(Classify(line, probe))
  }

  /** The end of a quoted string opened at `start`: past the closing quote, or the end of the line. */
  method ScanQuoted(line: string, start: nat) returns (i: nat)
    requires start < |line|
    ensures var e := QuoteEnd(line, start + 1, line[start]);
            i == if e < |line| then e + 1 else e
  {
    var quote := line[start];
    i := start + 1;
    while i < |line| && line[i] != quote
      invariant start < i <= |line|
      invariant QuoteEnd(line, i, quote) == QuoteEnd(line, start + 1, quote)
      decreases |line| - i
    {
      i := i + 1;
    }
    if i < |line| {
      i := i + 1;
    }
  }

  /** The end of a variable reference whose `$` is at `start`. */
  method ScanVariable(line: string, start: nat) returns (i: nat)
    requires start < |line|
    ensures i == VarEnd(line, start + 1)
  {
    i := start + 1;
    while i < |line|
      invariant start < i <= |line|
      invariant VarEnd(line, i) == VarEnd(line, start + 1)
      decreases |line| - i
    {
      if !IsAlnum(line[i]) && line[i] != '_' {
        break;
      }
      i := i + 1;
    }
  }

  /** The end of a word starting at `start`. */
  method ScanWord(line: string, start: nat) returns (i: nat)
    requires start <= |line|
    ensures i == WordEnd(line, start)
  {
    i := start;
    while i < |line|
      invariant start <= i <= |line|
      invariant WordEnd(line, i) == WordEnd(line, start)
      decreases |line| - i
    {
      if IsWordStop(line[i]) {
        break;
      }
      i := i + 1;
    }
  }

  /** From index `i` on, the spans are the one found at `i` followed by those after it. */
  lemma ClassifyStep(line: string, i: nat, cmdPos: bool, probe: Probe)
    requires i < |line|
    ensures var sc := NextSpan(line, i, cmdPos, probe);
            ClassifyFrom(line, i, cmdPos, probe) == [sc.span] + ClassifyFrom(line, sc.next, sc.cmdPos, probe)
  {
  }

  /** The output of a line from index `i` on is the current span's rendering followed by the rest's. */
  lemma RenderStep(line: string, i: nat, cmdPos: bool, probe: Probe)
    requires i < |line|
    ensures Render(ClassifyFrom(line, i, cmdPos, probe))
            == RenderSpan(NextSpan(line, i, cmdPos, probe).span)
               + Render(ClassifyFrom(line, NextSpan(line, i, cmdPos, probe).next, NextSpan(line, i, cmdPos, probe).cmdPos, probe))
  {
    var sc := NextSpan(line, i, cmdPos, probe);
    var rest := ClassifyFrom(line, sc.next, sc.cmdPos, probe);
    assert ([sc.span] + rest)[1..] == rest;
  }

  /**
   * The body of one iteration of the highlighter's loop at index `start`:
   * what it appends, where the index goes, and the new command-position flag.
   */
  method ScanSpan(line: string, start: nat, cmdPos: bool, probe: Probe)
    returns (piece: string, i: nat, cmdPos': bool)
    requires start < |line|
    ensures piece == RenderSpan(NextSpan(line, start, cmdPos, probe).span)
    ensures i == NextSpan(line, start, cmdPos, probe).next
    ensures cmdPos' == NextSpan(line, start, cmdPos, probe).cmdPos
  {
    ghost var sc := NextSpan(line, start, cmdPos, probe);
    var c := line[start];
    cmdPos' := cmdPos;
    if IsSpace(c) {
      piece := [c];
      i := start + 1;
      assert sc.span == Span([c], Blank);
      RenderBare(sc.span);
    } else if c == '"' || c == '\'' {
      i := ScanQuoted(line, start);
      piece := "\U{1B}[35m" + line[start..i] + Reset;
      cmdPos' := false;
      assert sc.span == Span(line[start..i], Quoted(c));
      RenderColoured(sc.span);
    } else if c == '$' {
      i := ScanVariable(line, start);
      piece := "\U{1B}[94m" + line[start..i] + Reset;
      cmdPos' := false;
      assert sc.span == Span(line[start..i], Variable);
      RenderColoured(sc.span);
    } else if IsOperatorChar(c) {
      if start + 1 < |line| && ((c == '&' && line[start + 1] == '&') || (c == '|' && line[start + 1] == '|')) {
        i := start + 2;
        piece := "\U{1B}[95m" + line[start..i] + Reset;
        assert sc.span == Span(line[start..i], Operator(if c == '&' then AndAnd else OrOr));
        RenderColoured(sc.span);
      } else {
        i := start + 1;
        assert sc.span == Span([c], Operator(SingleOp(c)));
        if c == ';' {
          piece := "\U{1B}[33m" + line[start..i] + Reset;
          RenderColoured(sc.span);
        } else if c == '|' || c == '>' || c == '<' {
          piece := "\U{1B}[1;37m" + line[start..i] + Reset;
          RenderColoured(sc.span);
        } else {
          piece := line[start..i];
          assert sc.span == Span([c], Operator(Amp));
          RenderBare(sc.span);
        }
      }
      cmdPos' := true;
    } else {
      i := ScanWord(line, start);
      var word := line[start..i];
      var colour :=
        if cmdPos then
          if CommandExists(word, probe) then "\U{1B}[32m" else "\U{1B}[31m"
        else if StartsWith(word, "-") || StartsWith(word, "--") then "\U{1B}[33m"
        else if IsPathLike(word) && ExpandTilde(word, probe.home) in probe.existing then "\U{1B}[36m"
        else "";
      piece := colour + word + Reset;
      cmdPos' := false;
      assert colour == RoleColour(WordRole(word, cmdPos, probe));
      assert sc.span == Span(word, Word(WordRole(word, cmdPos, probe)));
      RenderColoured(sc.span);
    }
  }

  /** Whitespace and `&` are written as they are. */
  lemma RenderBare(sp: Span)
    requires sp.kind.Blank? || sp.kind == Operator(Amp)
    ensures RenderSpan(sp) == sp.text
  {
  }

  /** A span other than whitespace or `&` is written as its colour, its text and the reset code. */
  lemma RenderColoured(sp: Span)
    requires !(sp.kind.Blank? || sp.kind == Operator(Amp))
    ensures RenderSpan(sp) == KindColour(sp.kind) + sp.text + Reset
  {
  }

  /**
   * `ShellHelper::highlight`: the dangerous-pattern check, then one scan with
   * an index and a command-position flag, appending to an output buffer.
   */
  method Highlight(line: string, probe: Probe) returns (out: string)
    ensures out == Highlighted(line, probe)
    ensures IsDangerous(line) ==> out == Blink + line + Reset
    ensures !IsDangerous(line) ==> out == Render(Classify(line, probe))
  {
    if IsDangerous(line) {
      return Blink + line + Reset;
    }
    out := HighlightSpans(line, probe);
  }

  /** The scan of `highlight` on a line that is not dangerous: every span rendered in order. */
  method HighlightSpans(line: string, probe: Probe) returns (out: string)
    ensures out == Render(ClassifyFrom(line, 0, true, probe))
  {
    ghost var whole := Render(ClassifyFrom(line, 0, true, probe));
    out := "";
    var i := 0;
    var cmdPos := true;
    while i < |line|
      invariant i <= |line|
      invariant out + Render(ClassifyFrom(line, i, cmdPos, probe)) == whole
      decreases |line| - i
    {
      var piece, next, nextPos := ScanSpan(line, i, cmdPos, probe);
      RenderStep(line, i, cmdPos, probe);
      AppendStep(out, piece, Render(ClassifyFrom(line, next, nextPos, probe)), whole);
      out, i, cmdPos := out + piece, next, nextPos;
    }
    assert ClassifyFrom(line, i, cmdPos, probe) == [];
    assert out + [] == out;
  }

  /** Moving the head of what remains onto what has been written keeps the whole. */
  lemma AppendStep(out: string, piece: string, rest: string, whole: string)
    requires out + (piece + rest) == whole
    ensures (out + piece) + rest == whole
  {
    assert (out + piece) + rest == out + (piece + rest);
  }

  /** The texts of the spans, concatenated in order. */
  function Flatten(spans: seq<Span>): string {
    if spans == [] then [] else spans[0].text + Flatten(spans[1..])
  }

  /**
   * The reference notion of command position: no span yet, or the last span
   * that is not whitespace is an operator.
   */
  function AtCommandPosition(before: seq<Span>): bool
    decreases |before|
  {
    if before == [] then true
    else match before[|before| - 1].kind
      case Blank => AtCommandPosition(before[..|before| - 1])
      case Operator(_) => true
      case _ => false
  }

  lemma {:induction false} CommandPositionFrom(line: string, i: nat, cmdPos: bool, probe: Probe,
                                               before: seq<Span>, k: nat)
    requires i <= |line| && cmdPos == AtCommandPosition(before)
    requires k < |ClassifyFrom(line, i, cmdPos, probe)|
    ensures var spans := ClassifyFrom(line, i, cmdPos, probe);
            spans[k].kind.Word? ==>
              spans[k].kind.role == WordRole(spans[k].text, AtCommandPosition(before + spans[..k]), probe)
    decreases k
  {
    var spans := ClassifyFrom(line, i, cmdPos, probe);
    var sc := NextSpan(line, i, cmdPos, probe);
    var rest := ClassifyFrom(line, sc.next, sc.cmdPos, probe);
    ClassifyStep(line, i, cmdPos, probe);
    NextSpanKinds(line, i, cmdPos, probe);
    if k == 0 {
      assert before + spans[..0] == before;
    } else {
      var before' := before + [sc.span];
      assert AtCommandPosition(before') == sc.cmdPos by {
        assert before'[..|before'| - 1] == before;
      }
      CommandPositionFrom(line, sc.next, sc.cmdPos, probe, before', k - 1);
      ShiftPrefix(before, sc.span, rest, k);
    }
  }

  /** Moving the first span of `[x] + rest` into the spans before it. */
  lemma ShiftPrefix(before: seq<Span>, x: Span, rest: seq<Span>, k: nat)
    requires 0 < k <= |rest|
    ensures ([x] + rest)[k] == rest[k - 1]
    ensures before + ([x] + rest)[..k] == (before + [x]) + rest[..k - 1]
  {
    assert ([x] + rest)[..k] == [x] + rest[..k - 1];
  }

  /**
   * The command-position rule: every word span is coloured by
   * `WordRole(text, AtCommandPosition(spans before it))`; so a word after the
   * start of the line or after an operator (whitespace in between) is green or
   * red purely by `command_exists`, and any other word never is.
   */
  lemma CommandPositionRule(line: string, probe: Probe, k: nat)
    requires k < |Classify(line, probe)|
    requires Classify(line, probe)[k].kind.Word?
    ensures var spans := Classify(line, probe);
            spans[k].kind.role == WordRole(spans[k].text, AtCommandPosition(spans[..k]), probe)
    ensures var spans := Classify(line, probe);
            AtCommandPosition(spans[..k]) ==>
              spans[k].kind.role == (if CommandExists(spans[k].text, probe) then KnownCommand else UnknownCommand)
    ensures var spans := Classify(line, probe);
            !AtCommandPosition(spans[..k]) ==> spans[k].kind.role !in {KnownCommand, UnknownCommand}
  {
    CommandPositionFrom(line, 0, true, probe, [], k);
    assert [] + Classify(line, probe)[..k] == Classify(line, probe)[..k];
  }

  /** The first word of any line (after optional whitespace) is in command position. */
  lemma FirstWordIsCommand(line: string, probe: Probe, k: nat)
    requires k < |Classify(line, probe)|
    requires Classify(line, probe)[k].kind.Word?
    requires forall j :: 0 <= j < k ==> Classify(line, probe)[j].kind.Blank?
    ensures Classify(line, probe)[k].kind.role in {KnownCommand, UnknownCommand}
  {
    var spans := Classify(line, probe);
    CommandPositionRule(line, probe, k);
    AllBlankIsCommandPosition(spans[..k]);
  }

  lemma {:induction false} AllBlankIsCommandPosition(before: seq<Span>)
    requires forall j :: 0 <= j < |before| ==> before[j].kind.Blank?
    ensures AtCommandPosition(before)
    decreases |before|
  {
    if before != [] {
      AllBlankIsCommandPosition(before[..|before| - 1]);
    }
  }

  /** Any line containing a dangerous pattern is one blinking warning span, whatever surrounds it. */
  lemma DangerousOverride(before: string, k: nat, after: string, probe: Probe)
    requires k < |DangerousPatterns|
    ensures var line := before + DangerousPatterns[k] + after;
            Highlighted(line, probe) == Blink + line + Reset
  {
    ContainsInfix(before, DangerousPatterns[k], after);
  }

  // Stripping colour codes.

  /** Drops an escape sequence's body up to and including its final `m`. */
  function SkipEscape(s: string): (r: string)
    ensures |r| <= |s|
  {
    if s == [] then [] else if s[0] == 'm' then s[1..] else SkipEscape(s[1..])
  }

  /** The text a terminal shows: every sequence from ESC through the next `m` removed. */
  function StripAnsi(s: string): string
    decreases |s|
  {
    if s == [] then []
    else if s[0] == Esc then StripAnsi(SkipEscape(s[1..]))
    else [s[0]] + StripAnsi(s[1..])
  }

  predicate NoEsc(s: string) {
    forall k :: 0 <= k < |s| ==> s[k] != Esc
  }

  /** A colour code: ESC, then a body without `m`, then `m`. */
  predicate IsSgr(code: string) {
    |code| >= 2 && code[0] == Esc && code[|code| - 1] == 'm'
    && forall k :: 1 <= k < |code| - 1 ==> code[k] != 'm'
  }

  lemma {:induction false} SkipBody(body: string, rest: string)
    requires forall k :: 0 <= k < |body| ==> body[k] != 'm'
    ensures SkipEscape(body + "m" + rest) == rest
  {
    if body != [] {
      assert (body + "m" + rest)[1..] == body[1..] + "m" + rest;
      SkipBody(body[1..], rest);
    } else {
      assert (body + "m" + rest)[1..] == rest;
    }
  }

  lemma StripSgr(code: string, rest: string)
    requires IsSgr(code)
    ensures StripAnsi(code + rest) == StripAnsi(rest)
  {
    var body := code[1..|code| - 1];
    assert code[1..] == body + "m" by {
      assert code[1..] == body + code[|code| - 1..];
      assert code[|code| - 1..] == [code[|code| - 1]];
    }
    assert (code + rest)[0] == Esc;
    assert (code + rest)[1..] == code[1..] + rest;
    assert body + "m" + rest == code[1..] + rest;
    SkipBody(body, rest);
  }

  lemma {:induction false} StripPlain(t: string, rest: string)
    requires NoEsc(t)
    ensures StripAnsi(t + rest) == t + StripAnsi(rest)
  {
    if t != [] {
      assert (t + rest)[0] == t[0] && t[0] != Esc;
      assert (t + rest)[1..] == t[1..] + rest;
      assert NoEsc(t[1..]) by {
        var u := t[1..];
        forall k | 0 <= k < |u| ensures u[k] != Esc {
          assert u[k] == t[k + 1];
        }
      }
      StripPlain(t[1..], rest);
      calc {
        StripAnsi(t + rest);
        [t[0]] + StripAnsi(t[1..] + rest);
        [t[0]] + (t[1..] + StripAnsi(rest));
        { assert [t[0]] + t[1..] == t; }
        t + StripAnsi(rest);
      }
    } else {
      assert t + rest == rest;
    }
  }

  lemma StripColoured(colour: string, t: string, rest: string)
    requires colour == [] || IsSgr(colour)
    requires NoEsc(t)
    ensures StripAnsi(colour + t + Reset + rest) == t + StripAnsi(rest)
  {
    assert IsSgr(Reset);
    var tail := t + (Reset + rest);
    calc {
      StripAnsi(tail);
      { StripPlain(t, Reset + rest); }
      t + StripAnsi(Reset + rest);
      { StripSgr(Reset, rest); }
      t + StripAnsi(rest);
    }
    assert colour + t + Reset + rest == colour + tail;
    if colour != [] {
      StripSgr(colour, tail);
    } else {
      assert colour + tail == tail;
    }
  }

  lemma StripSpan(sp: Span, rest: string)
    requires NoEsc(sp.text)
    ensures StripAnsi(RenderSpan(sp) + rest) == sp.text + StripAnsi(rest)
  {
    if sp.kind.Blank? || sp.kind == Operator(Amp) {
      StripPlain(sp.text, rest);
    } else {
      KindColourIsCode(sp.kind);
      StripColoured(KindColour(sp.kind), sp.text, rest);
    }
  }

  /** Every span colour is empty or one colour code. */
  lemma KindColourIsCode(kind: Kind)
    ensures KindColour(kind) == [] || IsSgr(KindColour(kind))
  {
    assert IsSgr("\U{1B}[35m") && IsSgr("\U{1B}[94m") && IsSgr("\U{1B}[95m");
    assert IsSgr("\U{1B}[33m") && IsSgr("\U{1B}[1;37m");
    assert IsSgr("\U{1B}[32m") && IsSgr("\U{1B}[31m") && IsSgr("\U{1B}[36m");
  }

  lemma NoEscSplit(a: string, b: string)
    requires NoEsc(a + b)
    ensures NoEsc(a) && NoEsc(b)
  {
    assert forall k :: 0 <= k < |a| ==> a[k] == (a + b)[k];
    assert forall k :: 0 <= k < |b| ==> b[k] == (a + b)[|a| + k];
  }
}
