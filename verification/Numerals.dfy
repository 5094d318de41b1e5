/** Decimal text of whole numbers, and the number it stands for. */
module Numerals {
  import opened Options

  function Decimal(n: nat): (r: string)
    ensures r != "" && forall c | c in r :: '0' <= c <= '9'
  {
    if n < 10 then [('0' as int + n) as char] else Decimal(n / 10) + [('0' as int + n % 10) as char]
  }

  /** The number a string of digits stands for. */
  function Value(s: string): int {
    if s == "" then 0 else 10 * Value(s[..|s| - 1]) + (s[|s| - 1] as int - '0' as int)
  }

  /** Decimal digits, without zeros in front. */
  predicate IsNumeral(s: string) { s != "" && (forall c | c in s :: '0' <= c <= '9') && (|s| > 1 ==> s[0] != '0') }

  /** `String(n)` of a whole number. */
  ghost predicate IsDecimal(s: string, n: int) {
    if n < 0 then s != "" && s[0] == '-' && IsNumeral(s[1..]) && Value(s[1..]) == -n else IsNumeral(s) && Value(s) == n
  }

  lemma {:induction false} DecimalIsNumeral(n: nat)
    ensures IsNumeral(Decimal(n)) && Value(Decimal(n)) == n && (n > 0 ==> Decimal(n)[0] != '0')
  {
    if n >= 10 {
      DecimalIsNumeral(n / 10);
      assert Decimal(n)[..|Decimal(n)| - 1] == Decimal(n / 10);
    } else {
      assert Decimal(n)[..0] == "";
    }
  }

  lemma DecimalDetermines(s: string, a: int, b: int)
    requires IsDecimal(s, a) && IsDecimal(s, b)
    ensures a == b
  {
    if s[0] == '-' { assert s[0] in s; }
  }

  lemma {:induction false} NumeralUnique(s: string, t: string)
    requires IsNumeral(s) && IsNumeral(t) && Value(s) == Value(t)
    ensures s == t
    decreases |s|
  {
    NumeralSize(s);
    NumeralSize(t);
    var a, b := s[|s| - 1], t[|t| - 1];
    assert a in s && b in t;
    assert a == b by { LastDigit(s); LastDigit(t); }
    assert s == s[..|s| - 1] + [a] && t == t[..|t| - 1] + [b];
    if |s| > 1 && |t| > 1 {
      HeadIsNumeral(s);
      HeadIsNumeral(t);
      NumeralUnique(s[..|s| - 1], t[..|t| - 1]);
    }
  }

  lemma HeadIsNumeral(s: string)
    requires IsNumeral(s) && |s| > 1
    ensures IsNumeral(s[..|s| - 1])
  {
    var head := s[..|s| - 1];
    assert head[0] == s[0] && forall c | c in head :: c in s;
  }

  lemma LastDigit(s: string)
    requires IsNumeral(s)
    ensures Value(s) % 10 == s[|s| - 1] as int - '0' as int
  {
    assert s[|s| - 1] in s;
  }

  /** More than one digit means at least ten. */
  lemma {:induction false} NumeralSize(s: string)
    requires IsNumeral(s)
    ensures |s| == 1 ==> 0 <= Value(s) < 10
    ensures |s| > 1 ==> Value(s) >= 10
  {
    assert s[|s| - 1] in s;
    if |s| > 1 {
      var head := s[..|s| - 1];
      HeadIsNumeral(s);
      NumeralSize(head);
      if |head| == 1 { assert Value(head) == head[0] as int - '0' as int + 10 * Value(head[..0]); }
    }
  }

  lemma DecimalUnique(s: string, t: string, n: int)
    requires IsDecimal(s, n) && IsDecimal(t, n)
    ensures s == t
  {
    hide IsNumeral, Value;
    if n < 0 {
      NumeralUnique(s[1..], t[1..]);
      assert s == [s[0]] + s[1..] && t == [t[0]] + t[1..];
    } else {
      NumeralUnique(s, t);
    }
  }

  /** What a program makes of a numeric argument. */
  function NumberOf(s: string): Option<nat> {
    if IsNumeral(s) then
      NumeralSize(s);
      Some(Value(s))
    else None
  }

  lemma NumberReadsBack(n: nat)
    ensures NumberOf(Decimal(n)) == Some(n)
  {
    DecimalIsNumeral(n);
  }
}
