/**
 * Text forms the system writes and reads back: decimal integers (the model's
 * stand-in for `str(int)`, `isoformat` and `fromisoformat`), code-point string
 * order (Python `<` on `str`, SQLite's BINARY collation) and newline-separated
 * lines (`"\n".join` and its inverse).
 */
module Text {
  import opened Wrappers

  predicate IsDigit(c: char) { '0' <= c <= '9' }

  predicate AllDigits(s: string) { forall i :: 0 <= i < |s| ==> IsDigit(s[i]) }

  function DigitChar(d: nat): (c: char)
    requires d < 10
    ensures IsDigit(c)
  {
    ('0' as int + d) as char
  }

  function DigitValue(c: char): (d: nat)
    requires IsDigit(c)
    ensures d < 10
  {
    c as int - '0' as int
  }

  /** Decimal digits of `n`, most significant first, without leading zeros. */
  function NatText(n: nat): (s: string)
    ensures s != [] && AllDigits(s)
    ensures n < 10 <==> |s| == 1
    ensures n > 0 ==> s[0] != '0'
  {
    if n < 10 then [DigitChar(n)] else NatText(n / 10) + [DigitChar(n % 10)]
  }

  /** The number a string of decimal digits denotes. */
  function DigitsValue(s: string): nat
    requires AllDigits(s)
  {
    if s == [] then 0 else DigitsValue(s[..|s| - 1]) * 10 + DigitValue(s[|s| - 1])
  }

  lemma {:induction false} NatTextRoundTrip(n: nat)
    ensures DigitsValue(NatText(n)) == n
  {
    if n >= 10 {
      var s := NatText(n);
      assert s[..|s| - 1] == NatText(n / 10);
      NatTextRoundTrip(n / 10);
    }
  }

  /** Two decimal digits exactly for 10..99. */
  lemma NatTextTwoDigits(n: nat)
    requires 10 <= n < 100
    ensures |NatText(n)| == 2
  {
    assert NatText(n) == NatText(n / 10) + [DigitChar(n % 10)];
  }

  /** `str(n)` for an integer: a minus sign before the digits of a negative number. */
  function IntText(n: int): (s: string)
    ensures s != []
  {
    if n < 0 then "-" + NatText(-n) else NatText(n)
  }

  /** Reads back what `IntText` writes; anything else is malformed. */
  function ParseInt(s: string): Option<int>
  {
    if |s| > 1 && s[0] == '-' && AllDigits(s[1..]) then
      var magnitude: int := DigitsValue(s[1..]);
      Some(-magnitude)
    else if s != [] && AllDigits(s) then
      var magnitude: int := DigitsValue(s);
      Some(magnitude)
    else None
  }

  lemma IntTextRoundTrip(n: int)
    ensures ParseInt(IntText(n)) == Some(n)
  {
    var s := IntText(n);
    if n < 0 {
      var digits := NatText(-n);
      assert s == "-" + digits;
      assert s[1..] == digits;
      assert s[0] == '-' && |s| > 1;
      NatTextRoundTrip(-n);
    } else {
      assert s[0] != '-';
      NatTextRoundTrip(n);
    }
  }

  /** Distinct integers have distinct texts, so comparing texts compares numbers. */
  lemma IntTextInjective(a: int, b: int)
    ensures IntText(a) == IntText(b) <==> a == b
  {
    if IntText(a) == IntText(b) {
      IntTextRoundTrip(a);
      IntTextRoundTrip(b);
    }
  }

  /** Lexicographic order by code point, `a <= b` on Python strings. */
  predicate StrLe(a: string, b: string)
    decreases |a|
  {
    if a == [] then true
    else if b == [] then false
    else if a[0] != b[0] then a[0] < b[0]
    else StrLe(a[1..], b[1..])
  }

  lemma {:induction false} StrLeTotal(a: string, b: string)
    ensures StrLe(a, b) || StrLe(b, a)
    decreases |a|
  {
    if a != [] && b != [] && a[0] == b[0] {
      StrLeTotal(a[1..], b[1..]);
    }
  }

  lemma {:induction false} StrLeTransitive(a: string, b: string, c: string)
    requires StrLe(a, b) && StrLe(b, c)
    ensures StrLe(a, c)
    decreases |a|
  {
    if a != [] && b != [] && c != [] && a[0] == b[0] == c[0] {
      StrLeTransitive(a[1..], b[1..], c[1..]);
    }
  }

  /** The middle part of `a + b + c` sits right after `a`. */
  lemma Infix(a: string, b: string, c: string)
    ensures (a + b + c)[|a|..|a| + |b|] == b
  {
  }

  /** Where the second and fourth parts of a five-part text sit. */
  lemma Between(a: string, b: string, c: string, d: string, e: string)
    ensures var s := a + b + c + d + e;
            && s[|a|..|a| + |b|] == b
            && s[|a| + |b| + |c|..|s| - |e|] == d
  {
    var s := a + b + c + d + e;
    assert s == a + (b + c + d) + e;
    Infix(a, b + c + d, e);
    Infix(a, b, c + d + e);
    assert s == (a + b + c) + d + e;
    Infix(a + b + c, d, e);
  }

  predicate NoNewline(s: string) { '\n' !in s }

  /** `"\n".join(lines)`. */
  function JoinLines(lines: seq<string>): string
  {
    if lines == [] then ""
    else if |lines| == 1 then lines[0]
    else lines[0] + "\n" + JoinLines(lines[1..])
  }

  /** Joining two leading lines before a non-empty rest puts a newline after each. */
  lemma JoinTwoThenRest(a: string, b: string, rest: seq<string>)
    requires rest != []
    ensures JoinLines([a, b] + rest) == a + "\n" + b + "\n" + JoinLines(rest)
  {
    var lines := [a, b] + rest;
    assert lines[1..] == [b] + rest && lines[1..][1..] == rest;
  }

  /** Two newline-free lines before newline-free lines: no line holds a newline. */
  lemma NoNewlineInLines(a: string, b: string, rest: seq<string>)
    requires NoNewline(a) && NoNewline(b)
    requires forall i :: 0 <= i < |rest| ==> NoNewline(rest[i])
    ensures forall i :: 0 <= i < |[a, b] + rest| ==> NoNewline(([a, b] + rest)[i])
  {
    forall i | 2 <= i < |[a, b] + rest| ensures NoNewline(([a, b] + rest)[i]) {
      assert ([a, b] + rest)[i] == rest[i - 2];
    }
  }

  /** `s.split("\n")`: the pieces between newlines, always at least one. */
  function SplitLines(s: string): (pieces: seq<string>)
    ensures |pieces| >= 1
  {
    if s == [] then [""]
    else
      var rest := SplitLines(s[1..]);
      if s[0] == '\n' then [""] + rest else [[s[0]] + rest[0]] + rest[1..]
  }

  lemma {:induction false} SplitLinesNoNewline(a: string)
    requires NoNewline(a)
    ensures SplitLines(a) == [a]
  {
    if a != [] {
      SplitLinesNoNewline(a[1..]);
      assert [a[0]] + a[1..] == a;
    }
  }

  lemma {:induction false} SplitLinesAfterLine(a: string, b: string)
    requires NoNewline(a)
    ensures SplitLines(a + "\n" + b) == [a] + SplitLines(b)
  {
    if a == [] {
      assert a + "\n" + b == "\n" + b;
      assert ("\n" + b)[1..] == b;
    } else {
      var s := a + "\n" + b;
      assert s[1..] == a[1..] + "\n" + b;
      SplitLinesAfterLine(a[1..], b);
      assert [a[0]] + a[1..] == a;
    }
  }

  /** Splitting a join of newline-free lines gives the lines back. */
  lemma {:induction false} SplitJoinLines(lines: seq<string>)
    requires lines != []
    requires forall i :: 0 <= i < |lines| ==> NoNewline(lines[i])
    ensures SplitLines(JoinLines(lines)) == lines
  {
    if |lines| == 1 {
      SplitLinesNoNewline(lines[0]);
    } else {
      SplitJoinLines(lines[1..]);
      SplitLinesAfterLine(lines[0], JoinLines(lines[1..]));
      assert [lines[0]] + lines[1..] == lines;
    }
  }
}
