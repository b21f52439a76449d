/**
 * The string operations the shell uses from Rust's `str`, over ASCII text.
 * A Rust `&str` of ASCII characters is modelled as a `string`; byte indices
 * and character indices coincide on such text.
 */
module Text {
  import opened Common

  /** `char::is_whitespace` on ASCII: tab, line feed, vertical tab, form feed, carriage return, space. */
  predicate IsSpace(c: char) {
    c == ' ' || ('\t' <= c <= '\r')
  }

  /** `char::is_alphanumeric` on ASCII. */
  predicate IsAlnum(c: char) {
    ('a' <= c <= 'z') || ('A' <= c <= 'Z') || ('0' <= c <= '9')
  }

  predicate AllSpace(s: string) {
    forall k :: 0 <= k < |s| ==> IsSpace(s[k])
  }

  predicate StartsWith(s: string, prefix: string) {
    |prefix| <= |s| && s[..|prefix|] == prefix
  }

  predicate EndsWith(s: string, suffix: string) {
    |suffix| <= |s| && s[|s| - |suffix|..] == suffix
  }

  /** `trim_start`: drops leading whitespace and nothing else. */
  function TrimStart(s: string): (r: string)
    ensures |r| <= |s| && r == s[|s| - |r|..]
    ensures forall k :: 0 <= k < |s| - |r| ==> IsSpace(s[k])
    ensures r == [] || !IsSpace(r[0])
    decreases |s|
  {
    if s != [] && IsSpace(s[0]) then TrimStart(s[1..]) else s
  }

  /** `trim_end`: drops trailing whitespace and nothing else. */
  function TrimEnd(s: string): (r: string)
    ensures |r| <= |s| && r == s[..|r|]
    ensures forall k :: |r| <= k < |s| ==> IsSpace(s[k])
    ensures r == [] || !IsSpace(r[|r| - 1])
    decreases |s|
  {
    if s != [] && IsSpace(s[|s| - 1]) then TrimEnd(s[..|s| - 1]) else s
  }

  /** `trim`: the text between the leading and the trailing whitespace. */
  function Trim(s: string): (r: string)
    ensures r == [] || (!IsSpace(r[0]) && !IsSpace(r[|r| - 1]))
    ensures r == [] <==> AllSpace(s)
    ensures |r| <= |s|
  {
    var t := TrimStart(s);
    var r := TrimEnd(t);
    assert r == [] ==> AllSpace(s) by {
      if r == [] {
        forall k | 0 <= k < |s| ensures IsSpace(s[k]) {
          if k >= |s| - |t| {
            assert s[k] == t[k - (|s| - |t|)];
          }
        }
      }
    }
    r
  }

  /** Text that neither starts nor ends with whitespace. */
  predicate IsTrimmed(s: string) {
    s == [] || (!IsSpace(s[0]) && !IsSpace(s[|s| - 1]))
  }

  /** `r` sits at index `i` of `s`, with only whitespace before and after it. */
  predicate TrimmedAt(s: string, i: int, r: string) {
    0 <= i <= |s| - |r| && r == s[i..i + |r|] && AllSpace(s[..i]) && AllSpace(s[i + |r|..])
  }

  /** The trim is a slice of the text with only whitespace before and after it. */
  lemma TrimIsSlice(s: string)
    ensures exists i :: TrimmedAt(s, i, Trim(s))
  {
    TrimmedSlice(s);
    var i :| TrimmedAt(s, i, TrimEnd(TrimStart(s)));
    assert Trim(s) == TrimEnd(TrimStart(s));
    assert TrimmedAt(s, i, Trim(s));
  }

  /** Both trims together cut `s` into leading whitespace, the trimmed text, and trailing whitespace. */
  lemma TrimmedSlice(s: string)
    ensures exists i :: TrimmedAt(s, i, TrimEnd(TrimStart(s)))
  {
    var t := TrimStart(s);
    var r := TrimEnd(t);
    var i := |s| - |t|;
    assert r == s[i..i + |r|] by {
      assert t == s[i..];
      assert r == t[..|r|];
    }
    assert AllSpace(s[..i]) by {
      var head := s[..i];
      forall k | 0 <= k < |head| ensures IsSpace(head[k]) {
        assert head[k] == s[k];
      }
    }
    assert AllSpace(s[i + |r|..]) by {
      var tail := s[i + |r|..];
      forall k | 0 <= k < |tail| ensures IsSpace(tail[k]) {
        assert tail[k] == t[|r| + k];
      }
    }
    assert TrimmedAt(s, i, r);
  }

  /** Trimming text that neither starts nor ends with whitespace changes nothing. */
  lemma TrimNoop(s: string)
    requires IsTrimmed(s)
    ensures Trim(s) == s
  {
    assert TrimStart(s) == s;
    assert TrimEnd(s) == s;
  }

  /** Leading whitespace before text that does not start with whitespace is all that `TrimStart` removes. */
  lemma {:induction false} TrimStartPadded(pad: string, t: string)
    requires AllSpace(pad) && (t == [] || !IsSpace(t[0]))
    ensures TrimStart(pad + t) == t
    decreases |pad|
  {
    if pad == [] {
      assert pad + t == t;
    } else {
      assert (pad + t)[0] == pad[0];
      assert (pad + t)[1..] == pad[1..] + t;
      assert AllSpace(pad[1..]) by {
        forall k | 0 <= k < |pad| - 1 ensures IsSpace(pad[1..][k]) {
          assert pad[1..][k] == pad[k + 1];
        }
      }
      TrimStartPadded(pad[1..], t);
    }
  }

  /** Trimming whitespace-padded trimmed text gives back that text. */
  lemma PaddedTrim(pad: string, t: string)
    requires IsTrimmed(t) && AllSpace(pad)
    ensures Trim(pad + t) == t
  {
    TrimStartPadded(pad, t);
    assert TrimEnd(t) == t;
  }

  /** Trimming removes characters and never brings in a new one. */
  lemma TrimKeepsOut(s: string, c: char)
    requires c !in s
    ensures c !in Trim(s)
  {
    TrimIsSlice(s);
    var r := Trim(s);
    var i :| TrimmedAt(s, i, r);
    forall j | 0 <= j < |r| ensures r[j] != c {
      assert r[j] == s[i + j];
    }
  }

  /** Trimming is idempotent. */
  lemma TrimTwice(s: string)
    ensures Trim(Trim(s)) == Trim(s)
  {
    TrimNoop(Trim(s));
  }

  /** `pattern` occurs in `s` at index `k`. */
  predicate OccursAt(s: string, pattern: string, k: int) {
    0 <= k && k + |pattern| <= |s| && s[k..k + |pattern|] == pattern
  }

  /** `str::contains` with a string pattern: the pattern occurs at some index. */
  function Contains(s: string, pattern: string): (r: bool)
    ensures r <==> exists k :: OccursAt(s, pattern, k)
    decreases |s|
  {
    if StartsWith(s, pattern) then
      assert OccursAt(s, pattern, 0);
      true
    else if s == [] then
      false
    else
      var r := Contains(s[1..], pattern);
      assert r ==> exists k :: OccursAt(s, pattern, k) by {
        if r {
          var k :| OccursAt(s[1..], pattern, k);
          assert s[1..][k..k + |pattern|] == s[k + 1..k + 1 + |pattern|];
          assert OccursAt(s, pattern, k + 1);
        }
      }
      assert (exists k :: OccursAt(s, pattern, k)) ==> r by {
        if exists k :: OccursAt(s, pattern, k) {
          var k :| OccursAt(s, pattern, k);
          assert k != 0;
          assert s[1..][k - 1..k - 1 + |pattern|] == s[k..k + |pattern|];
          assert OccursAt(s[1..], pattern, k - 1);
        }
      }
      r
  }

  /** Whatever surrounds it, a pattern is contained in a text it occurs in. */
  lemma {:induction false} ContainsInfix(before: string, pattern: string, after: string)
    ensures Contains(before + pattern + after, pattern)
  {
    var s := before + pattern + after;
    if before == [] {
      assert s[..|pattern|] == pattern;
    } else {
      ContainsInfix(before[1..], pattern, after);
      assert s[1..] == before[1..] + pattern + after;
    }
  }

  /** `str::find` with a character pattern: the first index holding `c`. */
  function Find(s: string, c: char): (r: Option<nat>)
    ensures r.None? <==> c !in s
    ensures r.Some? ==> r.value < |s| && s[r.value] == c && c !in s[..r.value]
    ensures r.Some? ==> forall j :: 0 <= j < r.value ==> s[j] != c
    ensures r.None? ==> forall j :: 0 <= j < |s| ==> s[j] != c
    decreases |s|
  {
    if s == [] then None
    else if s[0] == c then Some(0)
    else match Find(s[1..], c)
      case None => None
      case Some(k) =>
        assert s[1..][..k] == s[1..k + 1];
        Some(k + 1)
  }

  /** `find` stops at the first occurrence: past a prefix free of `c`. */
  lemma {:induction false} FindAfter(prefix: string, c: char, rest: string)
    requires c !in prefix
    ensures Find(prefix + [c] + rest, c) == Some(|prefix|)
  {
    var s := prefix + [c] + rest;
    if prefix != [] {
      assert s[0] == prefix[0];
      assert s[1..] == prefix[1..] + [c] + rest;
      FindAfter(prefix[1..], c, rest);
    }
  }

  /** `str::rfind` with a character pattern: the last index holding `c`. */
  function RFind(s: string, c: char): (r: Option<nat>)
    ensures r.None? <==> c !in s
    ensures r.Some? ==> r.value < |s| && s[r.value] == c && c !in s[r.value + 1..]
    decreases |s|
  {
    if s == [] then None
    else if s[|s| - 1] == c then Some(|s| - 1)
    else
      var r := RFind(s[..|s| - 1], c);
      assert r.Some? ==> s[r.value + 1..] == s[..|s| - 1][r.value + 1..] + [s[|s| - 1]];
      r
  }

  /** Joining two non-empty lists of parts puts one space between their joins. */
  lemma {:induction false} JoinConcat(a: seq<string>, b: seq<string>)
    requires a != [] && b != []
    ensures Join(a + b) == Join(a) + " " + Join(b)
    decreases |a|
  {
    if |a| == 1 {
      assert (a + b)[0] == a[0] && (a + b)[1..] == b;
    } else {
      assert (a + b)[0] == a[0] && (a + b)[1..] == a[1..] + b;
      JoinConcat(a[1..], b);
    }
  }

  /** `parts.join(" ")`. */
  function Join(parts: seq<string>): (r: string)
    ensures parts == [] ==> r == []
    ensures |parts| == 1 ==> r == parts[0]
    ensures |parts| > 1 ==> StartsWith(r, parts[0] + " ")
  {
    if parts == [] then []
    else if |parts| == 1 then parts[0]
    else
      var r := parts[0] + " " + Join(parts[1..]);
      assert r[..|parts[0]| + 1] == parts[0] + " ";
      r
  }

  /** A line as `str::lines` yields it: a trailing carriage return is removed. */
  function StripCr(line: string): string {
    if line != [] && line[|line| - 1] == '\r' then line[..|line| - 1] else line
  }

  /**
   * `str::lines`: the text split after every line feed; the final line ending
   * is optional and yields no empty last line.
   */
  function Lines(s: string): (r: seq<string>)
    ensures forall k :: 0 <= k < |r| ==> '\n' !in r[k]
    ensures s == [] <==> r == []
    decreases |s|
  {
    if s == [] then []
    else match Find(s, '\n')
      case None => [s]
      case Some(k) => [StripCr(s[..k])] + Lines(s[k + 1..])
  }

  /** A line ended by a line feed is the first line, and the text after it gives the others. */
  lemma LinesCons(line: string, rest: string)
    requires '\n' !in line
    ensures Lines(line + "\n" + rest) == [StripCr(line)] + Lines(rest)
  {
    var s := line + "\n" + rest;
    FindAfter(line, '\n', rest);
    assert s[..|line|] == line && s[|line| + 1..] == rest;
  }

  /** A last line without a line feed is yielded as it is. */
  lemma LinesLast(line: string)
    requires line != [] && '\n' !in line
    ensures Lines(line) == [line]
  {
  }

  /** `to_lowercase` on ASCII text. */
  function ToLower(s: string): (r: string)
    ensures |r| == |s|
    ensures forall k :: 0 <= k < |s| ==> r[k] == (if 'A' <= s[k] <= 'Z' then s[k] - 'A' + 'a' else s[k])
    ensures forall k :: 0 <= k < |r| ==> !('A' <= r[k] <= 'Z')
  {
    seq(|s|, k requires 0 <= k < |s| => if 'A' <= s[k] <= 'Z' then s[k] - 'A' + 'a' else s[k])
  }

  /** The decimal digits of `n`, as `{}` formats an unsigned integer. */
  function Decimal(n: nat): (r: string)
    ensures r != []
    ensures forall k :: 0 <= k < |r| ==> '0' <= r[k] <= '9'
    ensures r[0] == '0' <==> n == 0
  {
    var digit := ['0' + (n % 10) as char];
    if n < 10 then digit else Decimal(n / 10) + digit
  }

  /** The number a string of decimal digits denotes, most significant digit first. */
  function DigitsValue(s: string): nat
    requires forall k :: 0 <= k < |s| ==> '0' <= s[k] <= '9'
  {
    if s == [] then 0 else DigitsValue(s[..|s| - 1]) * 10 + (s[|s| - 1] - '0') as nat
  }

  /** Round trip: the digits `Decimal` writes denote `n` again. */
  lemma {:induction false} DecimalValue(n: nat)
    ensures DigitsValue(Decimal(n)) == n
  {
    var r := Decimal(n);
    if n >= 10 {
      DecimalValue(n / 10);
      assert r[..|r| - 1] == Decimal(n / 10);
    }
  }
}
