/**
 * The parts of Go's `strconv` package (and of fmt's `%v` for integers and
 * booleans) the configuration engine relies on: ParseInt(s, 10, 64),
 * ParseBool and decimal formatting.
 */
module StrConv {
  import opened Results

  const MIN_INT64: int := -0x8000_0000_0000_0000
  const MAX_INT64: int := 0x7FFF_FFFF_FFFF_FFFF

  predicate InInt64(n: int) {
    MIN_INT64 <= n <= MAX_INT64
  }

  predicate IsDigit(c: char) {
    '0' <= c <= '9'
  }

  predicate AllDigits(s: string) {
    forall i | 0 <= i < |s| :: IsDigit(s[i])
  }

  function DigitValue(c: char): nat
    requires IsDigit(c)
  {
    c as int - '0' as int
  }

  function DigitChar(d: nat): (c: char)
    requires d < 10
    ensures IsDigit(c) && DigitValue(c) == d
  {
    ('0' as int + d) as char
  }

  /** The value of a string of decimal digits, most significant first. */
  function DigitsValue(s: string): nat
    requires AllDigits(s)
  {
    if s == [] then 0 else DigitsValue(s[..|s| - 1]) * 10 + DigitValue(s[|s| - 1])
  }

  /** The shortest decimal digit string of `n`. */
  function Digits(n: nat): (s: string)
    ensures |s| > 0 && AllDigits(s)
  {
    if n < 10 then [DigitChar(n)] else Digits(n / 10) + [DigitChar(n % 10)]
  }

  /** Reading back the digits of `n` gives `n`. */
  lemma {:induction false} DigitsValueOfDigits(n: nat)
    ensures DigitsValue(Digits(n)) == n
  {
    if n >= 10 {
      var d := Digits(n / 10);
      assert (d + [DigitChar(n % 10)])[..|d|] == d;
      DigitsValueOfDigits(n / 10);
    }
  }

  /** The text after an optional leading sign. */
  function Unsigned(s: string): string {
    if |s| > 0 && (s[0] == '+' || s[0] == '-') then s[1..] else s
  }

  /** An optional sign, then at least one decimal digit. */
  predicate Decimal(s: string) {
    |Unsigned(s)| > 0 && AllDigits(Unsigned(s))
  }

  /** The value a decimal text denotes. */
  function DecimalValue(s: string): int
    requires Decimal(s)
  {
    var v: int := DigitsValue(Unsigned(s));
    if s[0] == '-' then -v else v
  }

  /**
   * strconv.ParseInt(s, 10, 64): an optional sign then at least one decimal
   * digit, with the value inside the signed 64-bit range; anything else fails.
   */
  function ParseInt(s: string): (r: Option<int>)
    ensures r.Some? ==> InInt64(r.value)
    ensures r.Some? <==> Decimal(s) && InInt64(DecimalValue(s))
    ensures r.Some? ==> r.value == DecimalValue(s)
  {
    if |s| == 0 then None
    else
      var neg := s[0] == '-';
      var body := if s[0] == '+' || s[0] == '-' then s[1..] else s;
      if |body| == 0 || !AllDigits(body) then None
      else
        var v: int := DigitsValue(body);
        if neg then (if v > -MIN_INT64 then None else Some(-v))
        else (if v > MAX_INT64 then None else Some(v))
  }

  /** A sign and leading zeros are read as Go reads them; blanks, separators and a bare sign are refused. */
  lemma ParseIntExamples()
    ensures ParseInt("+5") == Some(5) && ParseInt("007") == Some(7) && ParseInt("-0") == Some(0)
    ensures ParseInt("") == None && ParseInt("-") == None && ParseInt("1_000") == None && ParseInt(" 1") == None
  {
    assert "5"[..0] == [] && "0"[..0] == [] && "00"[..1] == "0" && "007"[..2] == "00";
    assert Unsigned("+5") == "5" && Unsigned("-0") == "0" && Unsigned("007") == "007";
  }

  /** fmt's `%v` / strconv.Itoa for an integer: a minus sign for negatives, then the digits. */
  function FormatInt(n: int): (s: string)
    ensures |s| > 0 && s[0] != '+'
    ensures forall i | 0 <= i < |s| :: IsDigit(s[i]) || (i == 0 && s[i] == '-')
  {
    if n < 0 then "-" + Digits(-n) else Digits(n)
  }

  /** Every 64-bit integer survives formatting and parsing. */
  lemma ParseIntFormatInt(n: int)
    requires InInt64(n)
    ensures ParseInt(FormatInt(n)) == Some(n)
  {
    if n < 0 {
      assert ("-" + Digits(-n))[1..] == Digits(-n);
      DigitsValueOfDigits(-n);
    } else {
      DigitsValueOfDigits(n);
    }
  }

  /** strconv.ParseBool. */
  function ParseBool(s: string): (r: Option<bool>)
    ensures r == Some(true) <==> s in {"1", "t", "T", "true", "TRUE", "True"}
    ensures r == Some(false) <==> s in {"0", "f", "F", "false", "FALSE", "False"}
  {
    if s in {"1", "t", "T", "true", "TRUE", "True"} then Some(true)
    else if s in {"0", "f", "F", "false", "FALSE", "False"} then Some(false)
    else None
  }

  /** fmt's `%v` for a boolean. */
  function FormatBool(b: bool): string {
    if b then "true" else "false"
  }

  /** Both booleans survive formatting and parsing. */
  lemma ParseBoolFormatBool(b: bool)
    ensures ParseBool(FormatBool(b)) == Some(b)
  {
  }
}
