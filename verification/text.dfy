/** Plain string and sequence helpers shared by the serialisers: infix
    containment, joining with a separator, splitting on line breaks and
    decimal rendering of naturals. */
module Text {
  import opened Wrappers

  /** `needle` occurs as a contiguous slice of `hay`. */
  ghost predicate IsInfix<T>(needle: seq<T>, hay: seq<T>) {
    exists k :: 0 <= k <= |hay| && StartsWith(hay[k..], needle)
  }

  /** `p` is a prefix of `s`. */
  predicate StartsWith<T(==)>(s: seq<T>, p: seq<T>) {
    |p| <= |s| && s[..|p|] == p
  }

  lemma InfixOfSandwich<T>(p: seq<T>, x: seq<T>, q: seq<T>)
    ensures IsInfix(x, p + x + q)
  {
    var h := p + x + q;
    assert h[|p|..][..|x|] == x;
    assert StartsWith(h[|p|..], x);
  }

  lemma {:induction false} InfixTransitive<T>(a: seq<T>, b: seq<T>, c: seq<T>)
    requires IsInfix(a, b) && IsInfix(b, c)
    ensures IsInfix(a, c)
  {
    var i :| 0 <= i <= |b| && StartsWith(b[i..], a);
    var j :| 0 <= j <= |c| && StartsWith(c[j..], b);
    assert b[i..][..|a|] == a && c[j..][..|b|] == b;
    assert i + |a| <= |b| && j + |b| <= |c|;
    forall k | 0 <= k < |a|
      ensures c[j + i + k] == a[k]
    {
      assert c[j + i + k] == c[j..][..|b|][i + k] == b[i + k] == b[i..][..|a|][k];
    }
    assert c[j + i..][..|a|] == a;
  }

  /** `parts` glued together with `sep` between consecutive parts, as
      `Array.prototype.join` does. */
  function Join(parts: seq<string>, sep: string): string
    decreases |parts|
  {
    if |parts| == 0 then ""
    else if |parts| == 1 then parts[0]
    else parts[0] + sep + Join(parts[1..], sep)
  }

  lemma {:induction false} JoinAvoids(parts: seq<string>, sep: string, c: char)
    requires c !in sep
    requires forall i :: 0 <= i < |parts| ==> c !in parts[i]
    ensures c !in Join(parts, sep)
    decreases |parts|
  {
    if |parts| > 1 {
      JoinAvoids(parts[1..], sep, c);
      assert Join(parts, sep) == parts[0] + sep + Join(parts[1..], sep);
    }
  }

  lemma {:induction false} JoinKeepsParts(parts: seq<string>, sep: string, i: nat)
    requires i < |parts|
    ensures IsInfix(parts[i], Join(parts, sep))
    decreases |parts|
  {
    if |parts| == 1 {
      InfixOfSandwich([], parts[0], []);
      assert [] + parts[0] + [] == Join(parts, sep);
    } else if i == 0 {
      InfixOfSandwich([], parts[0], sep + Join(parts[1..], sep));
      assert [] + parts[0] + (sep + Join(parts[1..], sep)) == Join(parts, sep);
    } else {
      JoinKeepsParts(parts[1..], sep, i - 1);
      var rest := Join(parts[1..], sep);
      InfixOfSandwich(parts[0] + sep, rest, []);
      assert parts[0] + sep + rest + [] == Join(parts, sep);
      InfixTransitive(parts[i], rest, Join(parts, sep));
    }
  }

  /** Lines joined by a single line feed, with no trailing separator. */
  function JoinLines(lines: seq<string>): string {
    Join(lines, "\n")
  }

  /** Splits on every line feed; the result always has one piece more than
      there are line feeds in `s`. */
  function SplitOn(s: string): (r: seq<string>)
    decreases |s|
    ensures |r| >= 1
  {
    if |s| == 0 then [""]
    else
      var tail := SplitOn(s[1..]);
      if s[0] == '\n' then [""] + tail
      else [[s[0]] + tail[0]] + tail[1..]
  }

  /** Splits a JSONL text into its lines; the empty text has no lines. */
  function SplitLines(s: string): seq<string> {
    if s == "" then [] else SplitOn(s)
  }

  lemma {:induction false} SplitOnLine(line: string, rest: string)
    requires '\n' !in line
    ensures SplitOn(line + rest) == [line + SplitOn(rest)[0]] + SplitOn(rest)[1..]
    decreases |line|
  {
    if |line| > 0 {
      var s := line + rest;
      assert s[1..] == line[1..] + rest;
      SplitOnLine(line[1..], rest);
      assert [line[0]] + (line[1..] + SplitOn(rest)[0]) == line + SplitOn(rest)[0];
    } else {
      var t := SplitOn(rest);
      assert line + rest == rest;
      assert line + t[0] == t[0];
      assert t == [t[0]] + t[1..];
    }
  }

  /** Splitting undoes joining, provided no line contains a line feed. */
  lemma {:induction false} SplitOnJoinLines(lines: seq<string>)
    requires |lines| >= 1
    requires forall i :: 0 <= i < |lines| ==> '\n' !in lines[i]
    ensures SplitOn(JoinLines(lines)) == lines
    decreases |lines|
  {
    if |lines| == 1 {
      SplitOnLine(lines[0], "");
      assert lines[0] + "" == lines[0];
    } else {
      var rest := JoinLines(lines[1..]);
      assert JoinLines(lines) == lines[0] + ("\n" + rest);
      SplitOnLine(lines[0], "\n" + rest);
      assert ("\n" + rest)[1..] == rest;
      SplitOnJoinLines(lines[1..]);
      var t := SplitOn("\n" + rest);
      assert t == [""] + lines[1..];
      assert t[0] == "" && t[1..] == lines[1..];
      assert lines[0] + "" == lines[0];
      assert lines == [lines[0]] + lines[1..];
    }
  }

  /** JSONL round trip: non-empty lines without line feeds are recovered
      exactly, in order, from their join. */
  lemma SplitLinesJoinLines(lines: seq<string>)
    requires forall i :: 0 <= i < |lines| ==> lines[i] != "" && '\n' !in lines[i]
    ensures SplitLines(JoinLines(lines)) == lines
  {
    if |lines| > 0 {
      SplitOnJoinLines(lines);
      if |lines| == 1 {
        assert JoinLines(lines) == lines[0];
      } else {
        assert JoinLines(lines) == lines[0] + "\n" + JoinLines(lines[1..]);
        assert |JoinLines(lines)| > 0;
      }
    }
  }

  predicate IsDigit(c: char) {
    '0' <= c <= '9'
  }

  function DigitChar(d: nat): (c: char)
    requires d < 10
    ensures IsDigit(c) && c as int - '0' as int == d
  {
    "0123456789"[d]
  }

  /** Decimal rendering of `n`, without leading zeros, as `String(n)` does. */
  function NatToString(n: nat): (s: string)
    decreases n
    ensures |s| >= 1
    ensures forall i :: 0 <= i < |s| ==> IsDigit(s[i])
    ensures n > 0 ==> s[0] != '0'
    ensures |s| == 1 <==> n < 10
  {
    if n < 10 then [DigitChar(n)] else NatToString(n / 10) + [DigitChar(n % 10)]
  }

  function DigitValue(c: char): (d: nat)
    requires IsDigit(c)
    ensures d < 10
  {
    c as int - '0' as int
  }

  /** Value of a string of decimal digits, most significant first. */
  function DigitsValue(s: string): nat
    requires forall i :: 0 <= i < |s| ==> IsDigit(s[i])
    decreases |s|
  {
    if |s| == 0 then 0
    else DigitsValue(s[..|s| - 1]) * 10 + DigitValue(s[|s| - 1])
  }

  /** Reads a non-empty string of decimal digits without leading zeros
      back as a natural. */
  function ParseNat(s: string): Option<nat> {
    if |s| > 0 && (|s| == 1 || s[0] != '0') && forall i :: 0 <= i < |s| ==> IsDigit(s[i])
    then Some(DigitsValue(s))
    else None
  }

  lemma {:induction false} DigitsValueOfNatToString(n: nat)
    ensures DigitsValue(NatToString(n)) == n
    decreases n
  {
    var s := NatToString(n);
    if n < 10 {
      assert s[..0] == [];
    } else {
      var p := NatToString(n / 10);
      var c := DigitChar(n % 10);
      DigitsValueOfNatToString(n / 10);
      assert s == p + [c];
      assert s[..|s| - 1] == p && s[|s| - 1] == c;
      assert DigitValue(c) == n % 10;
    }
  }

  lemma ParseNatToString(n: nat)
    ensures ParseNat(NatToString(n)) == Some(n)
  {
    DigitsValueOfNatToString(n);
  }

  lemma DigitCharOfValue(c: char)
    requires IsDigit(c)
    ensures DigitChar(DigitValue(c)) == c
  {
    var d := DigitValue(c);
    assert DigitChar(d) as int - '0' as int == d;
  }

  /** Only the canonical rendering of a natural parses: the decimal text is
      determined by its value. */
  lemma {:induction false} ParseNatCanonical(s: string, n: nat)
    requires ParseNat(s) == Some(n)
    ensures s == NatToString(n)
    decreases |s|
  {
    if |s| == 1 {
      assert s[..0] == [];
      DigitCharOfValue(s[0]);
    } else {
      var p, c := s[..|s| - 1], s[|s| - 1];
      var v := DigitsValue(p);
      assert p[0] == s[0];
      assert ParseNat(p) == Some(v);
      ParseNatCanonical(p, v);
      assert n == v * 10 + DigitValue(c);
      assert n / 10 == v && n % 10 == DigitValue(c);
      DigitCharOfValue(c);
      assert s == p + [c];
    }
  }

  /** Distinct naturals render as distinct decimal strings. */
  lemma NatToStringInjective(m: nat, n: nat)
    requires m != n
    ensures NatToString(m) != NatToString(n)
  {
    ParseNatToString(m);
    ParseNatToString(n);
  }
}
