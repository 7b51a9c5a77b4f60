/** Decimal numbers as printf writes them and atol reads them. */
module Decimals {

  const INT_MIN := -0x8000_0000
  const INT_MAX := 0x7fff_ffff
  const LONG_MIN := -0x8000_0000_0000_0000
  const LONG_MAX := 0x7fff_ffff_ffff_ffff

  /** What fits an int. */
  type Int32 = n: int | INT_MIN <= n <= INT_MAX

  predicate IsDigit(c: char) {
    '0' <= c <= '9'
  }

  predicate IsSpace(c: char) {
    c == ' ' || 9 as char <= c <= 13 as char
  }

  function Digit(d: nat): (c: char)
    requires d < 10
    ensures IsDigit(c) && c as int - '0' as int == d
  {
    '0' + d as char
  }

  /** The digits at the front of `s`, read after digits of value `acc`. */
  function ReadDigits(s: string, acc: nat): nat {
    if s == "" || !IsDigit(s[0]) then acc else ReadDigits(s[1..], acc * 10 + (s[0] as int - '0' as int))
  }

  function SkipSpaces(s: string): string {
    if s == "" || !IsSpace(s[0]) then s else SkipSpaces(s[1..])
  }

  /** atol with a 64-bit long, which stops at its bounds. */
  function Atol(s: string): int {
    var t := SkipSpaces(s);
    if t != "" && t[0] == '-' then
      var n := 0 - ReadDigits(t[1..], 0);
      if n < LONG_MIN then LONG_MIN else n
    else
      var n := ReadDigits(if t != "" && t[0] == '+' then t[1..] else t, 0);
      if n > LONG_MAX then LONG_MAX else n
  }

  /** What is left of a long in an int. */
  function ToInt(n: int): (r: Int32)
    ensures INT_MIN <= n <= INT_MAX ==> r == n
    ensures (n - r) % 0x1_0000_0000 == 0
  {
    var m := n % 0x1_0000_0000;
    if m > INT_MAX then m - 0x1_0000_0000 else m
  }

  function PrintNat(n: nat): (s: string)
    ensures s != "" && IsDigit(s[0])
  {
    if n < 10 then [Digit(n)] else PrintNat(n / 10) + [Digit(n % 10)]
  }

  /** The conversion %d. */
  function PrintInt(n: int): string {
    if n < 0 then "-" + PrintNat(-n) else PrintNat(n)
  }

  lemma {:induction false} DigitsReadBack(n: nat, t: string)
    ensures ReadDigits(PrintNat(n) + t, 0) == ReadDigits(t, n)
  {
    if n < 10 {
      assert (PrintNat(n) + t)[1..] == t;
    } else {
      var d := [Digit(n % 10)];
      assert PrintNat(n) + t == PrintNat(n / 10) + (d + t);
      DigitsReadBack(n / 10, d + t);
      assert (d + t)[1..] == t;
    }
  }

  /** A printed int is read back whatever follows that is no digit. */
  lemma IntIsRead(n: int, t: string)
    requires INT_MIN <= n <= INT_MAX && (t == "" || !IsDigit(t[0]))
    ensures Atol(PrintInt(n) + t) == n
  {
    var m := if n < 0 then -n else n;
    DigitsReadBack(m, t);
    var s := PrintInt(n) + t;
    assert n < 0 ==> s[0] == '-' && s[1..] == PrintNat(m) + t;
    assert n >= 0 ==> s[0] == PrintNat(m)[0];
    assert SkipSpaces(s) == s;
  }

  // ---------- What atol means ----------

  predicate Digits(s: string) {
    forall i :: 0 <= i < |s| ==> IsDigit(s[i])
  }

  predicate Spaces(s: string) {
    forall i :: 0 <= i < |s| ==> IsSpace(s[i])
  }

  /** The number that digits stand for: ten times what stands before the last one, and that one. */
  function Value(ds: string): nat
    requires Digits(ds)
  {
    if ds == "" then 0 else Value(ds[..|ds| - 1]) * 10 + (ds[|ds| - 1] as int - '0' as int)
  }

  /** As near to `n` as a long can be. */
  function Nearest(n: int): int {
    if n < LONG_MIN then LONG_MIN else if n > LONG_MAX then LONG_MAX else n
  }

  lemma {:induction false} DigitsAreRead(ds: string, t: string)
    requires Digits(ds)
    ensures ReadDigits(ds + t, 0) == ReadDigits(t, Value(ds))
    decreases |ds|
  {
    if ds == "" {
      assert ds + t == t;
    } else {
      var front, d := ds[..|ds| - 1], ds[|ds| - 1];
      DigitsAreRead(front, [d] + t);
      assert ds + t == front + ([d] + t) && ([d] + t)[1..] == t;
    }
  }

  lemma {:induction false} SpacesAreSkipped(ws: string, t: string)
    requires Spaces(ws) && (t == "" || !IsSpace(t[0]))
    ensures SkipSpaces(ws + t) == t
    decreases |ws|
  {
    if ws == "" {
      assert ws + t == t;
    } else {
      assert (ws + t)[1..] == ws[1..] + t;
      SpacesAreSkipped(ws[1..], t);
    }
  }

  /** Behind any spaces and perhaps a sign, the digits up to the first other character are the number. */
  lemma AtolMeaning(ws: string, sign: string, ds: string, t: string)
    requires Spaces(ws) && sign in ["", "-", "+"] && Digits(ds) && ds != "" && (t == "" || !IsDigit(t[0]))
    ensures Atol(ws + (sign + (ds + t))) == Nearest(if sign == "-" then 0 - Value(ds) else Value(ds))
  {
    var s := sign + (ds + t);
    assert s[0] == if sign == "" then ds[0] else sign[0];
    assert sign == "" ==> s == ds + t;
    assert sign != "" ==> s[1..] == ds + t;
    SpacesAreSkipped(ws, s);
    DigitsAreRead(ds, t);
    hide SkipSpaces, Value;
  }

  /** A printed int is read back, also behind a blank. */
  lemma IntReadsBack(n: int)
    requires INT_MIN <= n <= INT_MAX
    ensures ToInt(Atol(PrintInt(n))) == n && ToInt(Atol(" " + PrintInt(n))) == n
  {
    var m := if n < 0 then -n else n;
    DigitsReadBack(m, "");
    assert PrintNat(m) + "" == PrintNat(m);
    var s := PrintInt(n);
    assert n < 0 ==> s[0] == '-' && s[1..] == PrintNat(m);
    assert SkipSpaces(s) == s;
    assert (" " + s)[1..] == s;
    assert SkipSpaces(" " + s) == s;
  }
}
