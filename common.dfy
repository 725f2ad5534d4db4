/** Shared vocabulary: the Option and Result shapes the Rust code returns, the fixed-width
    integers it stores, Rust's decimal `{}` rendering and its `str::parse::<i64>`. */
module Common {

  datatype Option<+T> = None | Some(value: T)

  /** Rust's `Result<T, String>` (and `Result<T, &str>`): a value or an error message. */
  datatype Result<+T> = Ok(value: T) | Err(error: string)

  /** What every command of the engine returns: `Result<Option<String>, String>`. */
  type Outcome = Result<Option<string>>

  newtype u32 = x: int | 0 <= x < 0x1_0000_0000
  newtype i64 = x: int | -0x8000_0000_0000_0000 <= x < 0x8000_0000_0000_0000

  predicate IsDigit(c: char) { '0' <= c <= '9' }

  predicate AllDigits(s: string) { forall k :: 0 <= k < |s| ==> IsDigit(s[k]) }

  function DigitChar(d: nat): (c: char)
    requires d < 10
    ensures IsDigit(c) && c as int - '0' as int == d
  {
    (d + '0' as int) as char
  }

  function DigitValue(c: char): nat
    requires IsDigit(c)
  {
    c as int - '0' as int
  }

  /** The value of a string of decimal digits, read from the left. */
  function DigitsValue(s: string): nat
    requires AllDigits(s)
  {
    if s == [] then 0 else DigitsValue(s[..|s| - 1]) * 10 + DigitValue(s[|s| - 1])
  }

  /** Rust's `{}` rendering of an unsigned integer: shortest decimal, no sign, no leading zero. */
  function NatToString(n: nat): (s: string)
    ensures |s| > 0 && AllDigits(s)
    ensures s[0] == '0' ==> n == 0
  {
    if n < 10 then [DigitChar(n)] else NatToString(n / 10) + [DigitChar(n % 10)]
  }

  /** Rust's `{}` rendering of a signed integer. */
  function IntToString(x: int): string
  {
    if x < 0 then "-" + NatToString(-x) else NatToString(x)
  }

  /** Rust's `str::parse::<i64>`: an optional '+' or '-', then one or more ASCII digits,
      and a value that fits in 64 bits; anything else is an error (None). */
  function ParseI64(s: string): (r: Option<i64>)
    ensures r.Some? ==> |s| > 0 && (IsDigit(s[0]) || s[0] == '-' || s[0] == '+')
  {
    var signed := |s| > 0 && (s[0] == '-' || s[0] == '+');
    var digits := if signed then s[1..] else s;
    if digits == [] || !AllDigits(digits) then None
    else
      var v: int := if |s| > 0 && s[0] == '-' then -(DigitsValue(digits) as int) else DigitsValue(digits) as int;
      if -0x8000_0000_0000_0000 <= v < 0x8000_0000_0000_0000 then Some(v as i64) else None
  }

  /** Reading back the decimal rendering of n gives n. */
  lemma {:induction false} DigitsOfNatToString(n: nat)
    ensures DigitsValue(NatToString(n)) == n
  {
    if n >= 10 {
      var s := NatToString(n);
      DigitsOfNatToString(n / 10);
      assert s[..|s| - 1] == NatToString(n / 10);
    }
  }

  /** `IntToString` and `ParseI64` are inverse on 64-bit values: a value rendered with `{}`
      parses back to itself. */
  lemma ParseIntToString(x: i64)
    ensures ParseI64(IntToString(x as int)) == Some(x)
  {
    if x < 0 {
      var s := IntToString(x as int);
      DigitsOfNatToString(-(x as int));
      assert s[1..] == NatToString(-(x as int));
    } else {
      DigitsOfNatToString(x as int);
    }
  }
}
