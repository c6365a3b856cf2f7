/** `std::strtol(text, &end, 10)`: skip leading white space, accept one
    optional sign, then the longest run of decimal digits. When no digit
    follows, nothing is converted: the value is 0 and `end` is left at the
    start of the text. Values are unbounded integers here (no `LONG_MAX`
    clamping). */
module StringToLong {
  import opened Text

  predicate IsSign(c: char) { c == '+' || c == '-' }

  /** The number of leading white-space characters. */
  function SpaceRun(s: string): (n: nat)
    ensures n <= |s|
    ensures forall k :: 0 <= k < n ==> IsSpace(s[k])
    ensures n < |s| ==> !IsSpace(s[n])
  {
    if s == [] || !IsSpace(s[0]) then 0 else 1 + SpaceRun(s[1..])
  }

  /** The number of leading decimal digits. */
  function DigitRun(s: string): (n: nat)
    ensures n <= |s|
    ensures forall k :: 0 <= k < n ==> IsDigit(s[k])
    ensures n < |s| ==> !IsDigit(s[n])
  {
    if s == [] || !IsDigit(s[0]) then 0 else 1 + DigitRun(s[1..])
  }

  predicate AllDigits(s: string) {
    forall k :: 0 <= k < |s| ==> IsDigit(s[k])
  }

  function DigitValue(c: char): (d: nat)
    requires IsDigit(c)
    ensures d < 10
  {
    c as int - '0' as int
  }

  /** The value of a digit string read left to right in base 10. */
  function DigitsValue(ds: string): nat
    requires AllDigits(ds)
  {
    if ds == [] then 0 else DigitsValue(ds[..|ds| - 1]) * 10 + DigitValue(ds[|ds| - 1])
  }

  /** What `strtol` reports: the converted value and how many characters it
      consumed (`end - text`). */
  datatype Conversion = Conversion(value: int, consumed: nat)

  function SignLength(s: string): (n: nat)
    ensures n <= |s|
  {
    if |s| > 0 && IsSign(s[0]) then 1 else 0
  }

  function Strtol(s: string): (r: Conversion)
    ensures r.consumed <= |s|
    ensures r.consumed == 0 ==> r.value == 0
    ensures r.consumed > 0 ==> IsDigit(s[r.consumed - 1])
    ensures r.consumed == 0 <==> DigitRun(s[SpaceRun(s) + SignLength(s[SpaceRun(s)..])..]) == 0
  {
    var spaces := SpaceRun(s);
    var sign := SignLength(s[spaces..]);
    var digits := DigitRun(s[spaces + sign..]);
    if digits == 0 then Conversion(0, 0)
    else
      var magnitude: int := DigitsValue(s[spaces + sign..spaces + sign + digits]);
      var negative := sign == 1 && s[spaces] == '-';
      Conversion(if negative then -magnitude else magnitude, spaces + sign + digits)
  }

  /** `s` is white space up to `i`, an optional sign from `i` to `j`, and a
      non-empty run of digits from `j` to its end. */
  predicate NumberShape(s: string, i: nat, j: nat) {
    && i <= j < |s|
    && (forall k :: 0 <= k < i ==> IsSpace(s[k]))
    && (j == i || (j == i + 1 && IsSign(s[i])))
    && (forall k :: j <= k < |s| ==> IsDigit(s[k]))
  }

  /** On a text of that shape, `strtol` consumes everything and returns the
      signed value of the digits. */
  lemma StrtolOfNumber(s: string, i: nat, j: nat)
    requires NumberShape(s, i, j)
    ensures Strtol(s).consumed == |s|
    ensures Strtol(s).value == if j == i + 1 && s[i] == '-' then -(DigitsValue(s[j..]) as int) else DigitsValue(s[j..])
  {
    SpacesOfNumber(s, i, j);
    DigitsOfNumber(s, i, j);
    var t := s[j..j + (|s| - j)];
    assert t == s[j..];
  }

  lemma SpacesOfNumber(s: string, i: nat, j: nat)
    requires NumberShape(s, i, j)
    ensures SpaceRun(s) == i && SignLength(s[i..]) == j - i
  {
    assert !IsSpace(s[i]);
  }

  lemma DigitsOfNumber(s: string, i: nat, j: nat)
    requires NumberShape(s, i, j)
    ensures DigitRun(s[j..]) == |s| - j
  {
  }

  /** `strtol` consumes the whole text exactly when the text is empty or has
      the shape of a decimal integer. */
  lemma ConsumesAllIff(s: string)
    ensures Strtol(s).consumed == |s| <==> s == [] || exists i, j :: NumberShape(s, i, j)
  {
    if s != [] && Strtol(s).consumed == |s| {
      var spaces := SpaceRun(s);
      var sign := SignLength(s[spaces..]);
      var digits := DigitRun(s[spaces + sign..]);
      assert digits > 0;
      assert forall k :: spaces + sign <= k < |s| ==> s[k] == s[spaces + sign..][k - spaces - sign];
      assert NumberShape(s, spaces, spaces + sign);
    }
    if s != [] && exists i, j :: NumberShape(s, i, j) {
      var i, j :| NumberShape(s, i, j);
      StrtolOfNumber(s, i, j);
    }
  }

  function DigitChar(d: nat): (c: char)
    requires d < 10
    ensures IsDigit(c) && DigitValue(c) == d
  {
    ('0' as int + d) as char
  }

  /** The decimal spelling of `n`, without leading zeros. */
  function DecimalText(n: nat): (s: string)
    ensures |s| > 0 && AllDigits(s)
  {
    if n < 10 then [DigitChar(n)] else DecimalText(n / 10) + [DigitChar(n % 10)]
  }

  lemma {:induction false} DigitsValueOfDecimal(n: nat)
    ensures DigitsValue(DecimalText(n)) == n
  {
    if n >= 10 {
      var s := DecimalText(n);
      assert s[..|s| - 1] == DecimalText(n / 10);
      DigitsValueOfDecimal(n / 10);
    }
  }

  /** `strtol` reads back every port number written in decimal. */
  lemma StrtolReadsDecimal(n: nat)
    ensures Strtol(DecimalText(n)) == Conversion(n, |DecimalText(n)|)
  {
    var s := DecimalText(n);
    assert NumberShape(s, 0, 0);
    StrtolOfNumber(s, 0, 0);
    DigitsValueOfDecimal(n);
  }
}
