/** Value types shared by the masternode payment engine and the amount formatter:
    bytes, the fixed-width integers of the C++ source, scripts, digests, Option
    and the decimal text of an integer. */
module Common {

  datatype Option<+T> = None | Some(value: T)

  type byte = x: int | 0 <= x < 0x100
  type uint32 = x: int | 0 <= x < 0x1_0000_0000
  type int32 = x: int | -0x8000_0000 <= x < 0x8000_0000
  type int64 = x: int | -0x8000_0000_0000_0000 <= x < 0x8000_0000_0000_0000

  type Bytes = seq<byte>

  /** A CScript: the raw bytes of an output script. */
  type Script = Bytes

  /** A uint256 digest, as its 32 bytes in memory (little-endian) order. */
  type Hash = b: Bytes | |b| == 32 witness seq(32, _ => 0)

  const INT32_MAX: int := 0x7fff_ffff

  /** Two's-complement wrap-around of a mathematical integer into 32 bits: what
      `int += int` does on the machines the node runs on. */
  function Wrap32(x: int): (r: int32)
    ensures r == x <==> -0x8000_0000 <= x < 0x8000_0000
    ensures (r - x) % 0x1_0000_0000 == 0
  {
    var m := x % 0x1_0000_0000;
    if m < 0x8000_0000 then m else m - 0x1_0000_0000
  }

  // ---------------------------------------------------------------------------
  // Decimal text (QString::number, std::to_string)

  predicate IsDigit(c: char) {
    '0' <= c <= '9'
  }

  predicate AllDigits(s: string) {
    forall i :: 0 <= i < |s| ==> IsDigit(s[i])
  }

  /** The number a string of decimal digits denotes. */
  function DecimalValue(s: string): nat
    requires AllDigits(s)
  {
    if s == [] then 0 else DecimalValue(s[..|s| - 1]) * 10 + (s[|s| - 1] as int - '0' as int)
  }

  function DigitChar(d: nat): (c: char)
    requires d < 10
    ensures IsDigit(c) && c as int - '0' as int == d
  {
    ('0' as int + d) as char
  }

  /** The decimal digits of x, without leading zeros ("0" for zero). */
  function Digits(x: nat): (s: string)
    ensures |s| >= 1 && AllDigits(s)
    ensures s[0] == '0' ==> x == 0
  {
    if x < 10 then [DigitChar(x)] else Digits(x / 10) + [DigitChar(x % 10)]
  }

  /** The digits denote the number they were made from. */
  lemma {:induction false} DigitsValue(x: nat)
    ensures DecimalValue(Digits(x)) == x
  {
    if x >= 10 {
      var s := Digits(x);
      assert s[..|s| - 1] == Digits(x / 10);
      DigitsValue(x / 10);
    }
  }

  /** QString::number and std::to_string of an integer: a minus sign for a
      negative number, then the digits of the magnitude. */
  function NumberText(x: int): (s: string)
    ensures x >= 0 ==> s == Digits(x)
  {
    if x < 0 then "-" + Digits(-x) else Digits(x)
  }
}
