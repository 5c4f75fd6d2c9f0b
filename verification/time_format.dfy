/** `formatTime` of the quiz: remaining seconds shown as minutes, a colon and
    the seconds padded to two digits ("17:00", "1:05"), together with a parser
    that reads such a display back. */
module TimeFormat {

  import opened Types

  predicate IsDigit(c: char) {
    '0' <= c <= '9'
  }

  predicate AllDigits(s: string) {
    forall i :: 0 <= i < |s| ==> IsDigit(s[i])
  }

  function DigitChar(d: nat): (c: char)
    requires d < 10
    ensures IsDigit(c)
    ensures DigitValue(c) == d
  {
    ('0' as int + d) as char
  }

  function DigitValue(c: char): nat
    requires IsDigit(c)
  {
    c as int - '0' as int
  }

  /** The decimal text JavaScript gives a non-negative integer in a template
      literal: no sign, no leading zero except for 0 itself. */
  function Decimal(n: nat): (r: string)
    ensures |r| >= 1
    ensures AllDigits(r)
    ensures |r| > 1 ==> r[0] != '0'
    ensures |r| == 1 <==> n < 10
    decreases n
  {
    if n < 10 then [DigitChar(n)] else Decimal(n / 10) + [DigitChar(n % 10)]
  }

  /** The value of a string of decimal digits. */
  function ParseDecimal(s: string): nat
    requires AllDigits(s)
    decreases |s|
  {
    if |s| == 0 then 0 else 10 * ParseDecimal(s[..|s| - 1]) + DigitValue(s[|s| - 1])
  }

  lemma {:induction false} ParseDecimalOfDecimal(n: nat)
    ensures ParseDecimal(Decimal(n)) == n
    decreases n
  {
    var r := Decimal(n);
    if n >= 10 {
      ParseDecimalOfDecimal(n / 10);
      assert r[..|r| - 1] == Decimal(n / 10);
    }
  }

  /** The seconds field: a '0' in front of a single digit. */
  function Pad2(s: nat): (r: string)
    requires s < 100
    ensures |r| == 2
    ensures AllDigits(r)
  {
    (if s < 10 then "0" else "") + Decimal(s)
  }

  lemma Pad2Value(s: nat)
    requires s < 100
    ensures ParseDecimal(Pad2(s)) == s
  {
    var r := Pad2(s);
    ParseDecimalOfDecimal(s);
    if s < 10 {
      assert r[..1] == "0";
    } else {
      assert r == Decimal(s);
    }
  }

  /** formatTime: whole minutes, a colon, and the remaining seconds zero-padded
      to two digits; the minutes are not padded. */
  function FormatTime(t: nat): (r: string)
    ensures ':' in r
    ensures |r| >= 4 && r[|r| - 3] == ':'
    ensures AllDigits(r[..|r| - 3]) && AllDigits(r[|r| - 2..])
  {
    var r := Decimal(t / 60) + ":" + Pad2(t % 60);
    assert r[..|r| - 3] == Decimal(t / 60);
    assert r[|r| - 2..] == Pad2(t % 60);
    r
  }

  /** Reads a display "M:SS" back as (minutes, seconds): the minutes are one or
      more digits without a leading zero, the seconds exactly two digits below 60. */
  function ParseTime(r: string): (p: Option<(nat, nat)>)
    ensures p.Some? ==> p.value.1 < 60
  {
    if |r| < 4 || r[|r| - 3] != ':' then None
    else
      var m := r[..|r| - 3];
      var s := r[|r| - 2..];
      if !AllDigits(m) || !AllDigits(s) || (|m| > 1 && m[0] == '0') then None
      else if ParseDecimal(s) >= 60 then None
      else Some((ParseDecimal(m), ParseDecimal(s)))
  }

  /** Reading the display back gives the minutes and seconds that make up `t`. */
  lemma ParseFormatTime(t: nat)
    ensures ParseTime(FormatTime(t)) == Some((t / 60, t % 60))
    ensures var p := ParseTime(FormatTime(t)).value; 60 * p.0 + p.1 == t && p.1 < 60
  {
    var r := FormatTime(t);
    assert r[..|r| - 3] == Decimal(t / 60);
    assert r[|r| - 2..] == Pad2(t % 60);
    ParseDecimalOfDecimal(t / 60);
    Pad2Value(t % 60);
  }

  /** Distinct remaining times are displayed differently. */
  lemma FormatTimeInjective(t1: nat, t2: nat)
    ensures FormatTime(t1) == FormatTime(t2) <==> t1 == t2
  {
    if FormatTime(t1) == FormatTime(t2) {
      ParseFormatTime(t1);
      ParseFormatTime(t2);
    }
  }

  /** Every well-formed display is the display of the time it parses to. */
  lemma FormatParseTime(r: string)
    requires ParseTime(r).Some?
    ensures var p := ParseTime(r).value; FormatTime(60 * p.0 + p.1) == r
  {
    var p := ParseTime(r).value;
    var t := 60 * p.0 + p.1;
    assert t / 60 == p.0 && t % 60 == p.1;
    var m := r[..|r| - 3];
    var s := r[|r| - 2..];
    DecimalOfParseDecimal(m);
    assert Pad2(p.1) == s by {
      Pad2Value(p.1);
      TwoDigitsDetermined(Pad2(p.1), s);
    }
    assert r == m + ":" + s;
  }

  lemma TwoDigitsDetermined(a: string, b: string)
    requires |a| == 2 && |b| == 2 && AllDigits(a) && AllDigits(b)
    requires ParseDecimal(a) == ParseDecimal(b)
    ensures a == b
  {
  }

  /** A canonical digit string is the decimal text of its value. */
  lemma {:induction false} DecimalOfParseDecimal(m: string)
    requires |m| >= 1 && AllDigits(m) && (|m| > 1 ==> m[0] != '0')
    ensures Decimal(ParseDecimal(m)) == m
    decreases |m|
  {
    var n := ParseDecimal(m);
    if |m| == 1 {
      assert m[..0] == [];
    } else {
      var init := m[..|m| - 1];
      assert init[0] == m[0];
      ParseDecimalPositive(init);
      DecimalOfParseDecimal(init);
      assert n / 10 == ParseDecimal(init) && n % 10 == DigitValue(m[|m| - 1]);
      assert m == init + [m[|m| - 1]];
    }
  }

  lemma {:induction false} ParseDecimalPositive(m: string)
    requires |m| >= 1 && AllDigits(m) && m[0] != '0'
    ensures ParseDecimal(m) >= 1
    decreases |m|
  {
    if |m| > 1 {
      var init := m[..|m| - 1];
      assert init[0] == m[0];
      ParseDecimalPositive(init);
    }
  }

  lemma FormatTimeExamples()
    ensures FormatTime(17 * 60) == "17:00"
    ensures FormatTime(65) == "1:05"
    ensures FormatTime(0) == "0:00"
  {
  }
}
