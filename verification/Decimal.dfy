/** Decimal texts: Python's `str` of an integer, and `int` of such a text. */
module Decimal {
  import opened PyText

  function Digit(n: nat): char
    requires n < 10
  {
    "0123456789"[n]
  }

  function NatText(n: nat): string {
    if n < 10 then [Digit(n)] else NatText(n / 10) + [Digit(n % 10)]
  }

  /** `str` of an integer. */
  function IntText(n: int): string {
    if n < 0 then "-" + NatText(-n) else NatText(n)
  }

  predicate IsDigit(c: char) {
    '0' <= c <= '9'
  }

  /** `int` of a plain decimal text; `None` is a `ValueError`. */
  function ParseNat(s: string): Option<nat> {
    if s == "" || !IsDigit(s[|s| - 1]) then None
    else
      var low := (s[|s| - 1] - '0') as nat;
      if |s| == 1 then Some(low)
      else
        var high := ParseNat(s[..|s| - 1]);
        if high.None? then None else Some(10 * high.value + low)
  }

  function ParseInt(s: string): Option<int> {
    if s != "" && s[0] == '-' then
      var n := ParseNat(s[1..]);
      if n.None? then None else (var m: int := n.value; Some(-m))
    else
      var n := ParseNat(s);
      if n.None? then None else Some(n.value)
  }

  /** The text of a natural number starts with a digit, which is a zero for zero alone. */
  lemma {:induction false} NatTextStarts(n: nat)
    ensures IsDigit(IntText(n)[0]) && (IntText(n)[0] == '0' <==> n == 0)
  {
    if n >= 10 { NatTextStarts(n / 10); }
  }

  lemma {:induction false} ParseNatText(n: nat)
    ensures NatText(n) != "" && IsDigit(NatText(n)[0]) && ParseNat(NatText(n)) == Some(n)
  {
    if n >= 10 {
      ParseNatText(n / 10);
    }
  }

  lemma ParseIntText(n: int)
    ensures ParseInt(IntText(n)) == Some(n)
  {
    var m: nat := if n < 0 then -n else n;
    var s := NatText(m);
    ParseNatText(m);
  }

  lemma {:induction false} NatHasNoPoint(s: string)
    requires '.' in s
    ensures ParseNat(s).None?
  {
    if |s| > 1 && IsDigit(s[|s| - 1]) {
      assert s == s[..|s| - 1] + [s[|s| - 1]];
      NatHasNoPoint(s[..|s| - 1]);
    }
  }

  /** No text with a point is that of an integer. */
  lemma IntHasNoPoint(s: string)
    requires '.' in s
    ensures ParseInt(s).None?
  {
    if s[0] == '-' {
      assert s == [s[0]] + s[1..];
      NatHasNoPoint(s[1..]);
    } else {
      NatHasNoPoint(s);
    }
  }
}
