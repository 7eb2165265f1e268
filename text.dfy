/**
 * The string operations the delivery handler relies on: Python's `str()` of an
 * integer (used when a quantity is formatted into an outcome line), and
 * `sep.join(parts)` with its partner `s.split(c)`.
 */
module Text {
  import opened Wrappers

  predicate IsDigit(c: char) {
    '0' <= c <= '9'
  }

  predicate AllDigits(s: string) {
    forall i :: 0 <= i < |s| ==> IsDigit(s[i])
  }

  function DigitValue(c: char): (d: nat)
    requires IsDigit(c)
    ensures d < 10
  {
    c as int - '0' as int
  }

  function DigitChar(d: nat): (c: char)
    requires d < 10
    ensures IsDigit(c) && DigitValue(c) == d
  {
    ('0' as int + d) as char
  }

  /** Decimal digits of `n`, most significant first, without leading zeros. */
  function NatDigits(n: nat): (s: string)
    ensures |s| >= 1 && AllDigits(s)
    ensures s[0] == '0' ==> n == 0
    decreases n
  {
    if n < 10 then [DigitChar(n)] else NatDigits(n / 10) + [DigitChar(n % 10)]
  }

  /** At least one digit, and no leading zero unless the number is zero itself. */
  predicate CanonicalDigits(d: string) {
    |d| >= 1 && AllDigits(d) && (d[0] == '0' ==> d == "0")
  }

  /** The form Python's `str()` gives an `int`: canonical digits, after a minus sign only for a nonzero value. */
  predicate CanonicalDecimal(s: string) {
    if |s| > 0 && s[0] == '-' then CanonicalDigits(s[1..]) && s[1..] != "0" else CanonicalDigits(s)
  }

  /** Python's `str(n)` for an `int`: an optional minus sign, then the digits. */
  function DecimalString(n: int): (s: string)
    ensures CanonicalDecimal(s)
    ensures s[0] == '-' <==> n < 0
  {
    if n < 0 then "-" + NatDigits(-n) else NatDigits(n)
  }

  /** The value of a string of decimal digits (the empty string reads as 0). */
  function NatValue(s: string): nat
    requires AllDigits(s)
  {
    if |s| == 0 then 0 else NatValue(s[..|s| - 1]) * 10 + DigitValue(s[|s| - 1])
  }

  /** Python's `int(s)` restricted to an optional minus sign followed by digits. */
  function ParseDecimal(s: string): Option<int> {
    if |s| > 1 && s[0] == '-' && AllDigits(s[1..]) then Some(-(NatValue(s[1..]) as int))
    else if |s| > 0 && AllDigits(s) then Some(NatValue(s))
    else None
  }

  lemma {:induction false} NatDigitsValue(n: nat)
    ensures NatValue(NatDigits(n)) == n
    decreases n
  {
    if n >= 10 {
      var init := NatDigits(n / 10);
      var s := init + [DigitChar(n % 10)];
      assert s[..|s| - 1] == init;
      NatDigitsValue(n / 10);
    }
  }

  /** Reading back what `DecimalString` wrote gives the integer again. */
  lemma {:induction false} DecimalRoundTrip(n: int)
    ensures ParseDecimal(DecimalString(n)) == Some(n)
  {
    var s := DecimalString(n);
    if n < 0 {
      var d := NatDigits(-n);
      assert s == "-" + d && s[1..] == d;
      NatDigitsValue(-n);
    } else {
      assert s == NatDigits(n) && IsDigit(s[0]);
      NatDigitsValue(n);
    }
  }

  lemma {:induction false} CanonicalDigitsPositive(d: string)
    requires CanonicalDigits(d) && d != "0"
    ensures NatValue(d) >= 1
    decreases |d|
  {
    if |d| > 1 {
      var init := d[..|d| - 1];
      assert init[0] == d[0];
      CanonicalDigitsPositive(init);
    } else {
      assert d == [d[0]];
    }
  }

  lemma {:induction false} NatDigitsOfValue(d: string)
    requires CanonicalDigits(d)
    ensures NatDigits(NatValue(d)) == d
    decreases |d|
  {
    if |d| == 1 {
      assert d == [d[0]];
    } else {
      var init := d[..|d| - 1];
      assert init[0] == d[0];
      assert |d| != |"0"|;
      CanonicalDigitsPositive(init);
      NatDigitsOfValue(init);
      assert d == init + [d[|d| - 1]];
    }
  }

  /** Every canonical decimal string is what `DecimalString` writes for the value it reads as. */
  lemma {:induction false} DecimalStringUnique(s: string)
    requires CanonicalDecimal(s)
    ensures ParseDecimal(s).Some? && DecimalString(ParseDecimal(s).value) == s
  {
    if |s| > 0 && s[0] == '-' {
      var d := s[1..];
      NatDigitsOfValue(d);
      CanonicalDigitsPositive(d);
      assert s == "-" + d;
    } else {
      NatDigitsOfValue(s);
    }
  }

  /** Python's `sep.join(parts)`. */
  function Join(sep: string, parts: seq<string>): string
  {
    if |parts| == 0 then ""
    else if |parts| == 1 then parts[0]
    else parts[0] + sep + Join(sep, parts[1..])
  }

  /** Python's `s.split(c)` for a one-character separator. */
  function Split(s: string, c: char): (pieces: seq<string>)
    ensures |pieces| >= 1
    ensures forall i :: 0 <= i < |pieces| ==> c !in pieces[i]
    decreases |s|
  {
    if |s| == 0 then [""]
    else
      var rest := Split(s[1..], c);
      if s[0] == c then [""] + rest else [[s[0]] + rest[0]] + rest[1..]
  }

  lemma {:induction false} SplitWithoutSeparator(p: string, c: char)
    requires c !in p
    ensures Split(p, c) == [p]
    decreases |p|
  {
    if |p| > 0 {
      SplitWithoutSeparator(p[1..], c);
      assert [p[0]] + p[1..] == p;
    }
  }

  /** Splitting at the first separator yields the text before it, then the rest split. */
  lemma {:induction false} SplitAtFirst(p: string, c: char, t: string)
    requires c !in p
    ensures Split(p + [c] + t, c) == [p] + Split(t, c)
    decreases |p|
  {
    var s := p + [c] + t;
    if |p| == 0 {
      assert s[1..] == t;
    } else {
      assert s[1..] == p[1..] + [c] + t;
      SplitAtFirst(p[1..], c, t);
      assert [p[0]] + p[1..] == p;
    }
  }

  /** Joining pieces that contain no separator and splitting again gives the pieces back. */
  lemma {:induction false} SplitJoin(parts: seq<string>, c: char)
    requires |parts| >= 1
    requires forall i :: 0 <= i < |parts| ==> c !in parts[i]
    ensures Split(Join([c], parts), c) == parts
    decreases |parts|
  {
    if |parts| == 1 {
      SplitWithoutSeparator(parts[0], c);
    } else {
      SplitAtFirst(parts[0], c, Join([c], parts[1..]));
      SplitJoin(parts[1..], c);
      assert [parts[0]] + parts[1..] == parts;
    }
  }
}
