/** Decimal numerals as strconv.Itoa writes and strconv.Atoi reads them. */
module Decimal {
  import opened Wrappers

  predicate IsDigit(c: char) { '0' <= c <= '9' }

  function DigitChar(d: nat): char
    requires d < 10
  {
    '0' + d as char
  }

  function DigitValue(c: char): nat
    requires IsDigit(c)
  {
    c as nat - '0' as nat
  }

  function Itoa(n: nat): (s: string)
    ensures s != [] && forall i :: 0 <= i < |s| ==> IsDigit(s[i])
  {
    (if n < 10 then "" else Itoa(n / 10)) + [DigitChar(n % 10)]
  }

  predicate AllDigits(s: string) {
    s != [] && forall i :: 0 <= i < |s| ==> IsDigit(s[i])
  }

  function DigitsValue(s: string): (v: int)
    requires forall i :: 0 <= i < |s| ==> IsDigit(s[i])
    ensures v >= 0
  {
    if s == [] then 0 else 10 * DigitsValue(s[..|s| - 1]) + DigitValue(s[|s| - 1])
  }

  /** Reads an optional sign and one or more digits, leading zeros included. A number out of
      the machine's range, which the original rejects, is read here: it is larger than any
      number of children, so both end the same way. */
  function Atoi(s: string): Option<int> {
    if AllDigits(s) then Some(DigitsValue(s))
    else if s != [] && s[0] == '+' && AllDigits(s[1..]) then Some(DigitsValue(s[1..]))
    else if s != [] && s[0] == '-' && AllDigits(s[1..]) then Some(-DigitsValue(s[1..]))
    else None
  }

  lemma DigitRoundTrip(d: nat)
    requires d < 10
    ensures IsDigit(DigitChar(d)) && DigitValue(DigitChar(d)) == d
  {
  }

  lemma {:induction false} ItoaValue(n: nat)
    ensures DigitsValue(Itoa(n)) == n
  {
    DigitRoundTrip(n % 10);
    if n < 10 {
      assert Itoa(n) == [DigitChar(n)];
    } else {
      ItoaValue(n / 10);
      DigitsValueAppend(Itoa(n / 10), DigitChar(n % 10));
    }
  }

  lemma DigitsValueAppend(s: string, c: char)
    requires IsDigit(c) && forall i :: 0 <= i < |s| ==> IsDigit(s[i])
    ensures DigitsValue(s + [c]) == 10 * DigitsValue(s) + DigitValue(c)
  {
    assert (s + [c])[..|s|] == s;
  }

  /** Reading back what was written. */
  lemma AtoiOfItoa(n: nat)
    ensures Atoi(Itoa(n)) == Some(n)
  {
    ItoaValue(n);
  }

  /** A name that, if it reads as a natural number, is written the way Itoa writes it. */
  predicate Canonical(name: string) {
    var v := Atoi(name);
    v.Some? && v.value >= 0 ==> name == Itoa(v.value)
  }

  /** Signs and leading zeros give one number several names. */
  lemma NamesCollide()
    ensures Atoi("0") == Atoi("00") == Atoi("+0") == Atoi("-0") == Some(0)
    ensures !Canonical("00") && !Canonical("+0") && !Canonical("-0")
  {
    assert "0"[..0] == "" && "00"[..1] == "0" && "+0"[1..] == "0" && "-0"[1..] == "0";
    assert DigitsValue("0") == 0;
    assert DigitsValue("00") == 0;
    assert Itoa(0) == "0";
    assert "00"[1] == '0' && |"00"| == 2;
  }
}
