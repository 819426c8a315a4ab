/** Decimal text of natural numbers, as `std::to_string` prints a `size_t`
    and as the polynomial printers print an index or an exponent. */
module DecimalText {

  /** `std::to_string` of a `size_t`: its decimal digits. */
  function DecimalString(n: nat): (r: string)
    ensures |r| >= 1
    ensures forall i :: 0 <= i < |r| ==> '0' <= r[i] <= '9'
    ensures r[0] == '0' ==> n == 0
  {
    if n < 10 then [Digit(n)] else DecimalString(n / 10) + [Digit(n % 10)]
  }

  /** The character of the decimal digit d. */
  function Digit(d: nat): (c: char)
    requires d < 10
    ensures '0' <= c <= '9'
  {
    ['0', '1', '2', '3', '4', '5', '6', '7', '8', '9'][d]
  }

  /** The number a string of decimal digits denotes. */
  function DecimalValue(s: string): nat
  {
    if s == [] then 0
    else
      var c := s[|s| - 1];
      var d := if '0' <= c <= '9' then (c as int - '0' as int) else 0;
      10 * DecimalValue(s[..|s| - 1]) + d
  }

  /** Reading back the decimal digits gives the number. */
  lemma {:induction false} DecimalRoundTrip(n: nat)
    ensures DecimalValue(DecimalString(n)) == n
  {
    if n >= 10 {
      DecimalRoundTrip(n / 10);
      DecimalValueSnoc(DecimalString(n / 10), n % 10);
    } else {
      DecimalValueSnoc([], n);
    }
  }

  /** Appending a digit multiplies by ten and adds the digit. */
  lemma DecimalValueSnoc(s: string, d: nat)
    requires d < 10
    ensures DecimalValue(s + [Digit(d)]) == 10 * DecimalValue(s) + d
  {
    assert (s + [Digit(d)])[..|s|] == s;
  }
}
