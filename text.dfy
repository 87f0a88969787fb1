/** Machine integers and the two text renderings the download pipeline uses:
    `format!("{}", i32)` for build numbers in URLs and `format!("{:x}", digest)`
    for the SHA-256 digest (backend/src/downloader.rs). */
module Text {

  import opened Wrappers

  newtype byte = x: int | 0 <= x < 256

  /** Rust's `i32`, the element type of the build list. */
  newtype int32 = x: int | -0x8000_0000 <= x < 0x8000_0000

  // ---------------------------------------------------------------------------
  // Lower-case hexadecimal

  predicate IsLowerHexChar(c: char) {
    '0' <= c <= '9' || 'a' <= c <= 'f'
  }

  function HexDigit(n: nat): (c: char)
    requires n < 16
    ensures IsLowerHexChar(c)
  {
    if n < 10 then ('0' as int + n) as char else ('a' as int + n - 10) as char
  }

  /** The value of one lower-case hex digit; anything else (upper case
      included) is not one. */
  function HexValue(c: char): Option<nat> {
    if '0' <= c <= '9' then Some(c as int - '0' as int)
    else if 'a' <= c <= 'f' then Some(c as int - 'a' as int + 10)
    else None
  }

  /** `{:x}` on a digest: every byte as two lower-case hex digits, high nibble
      first, with a leading zero below 0x10. */
  function LowerHex(d: seq<byte>): (r: string)
    ensures |r| == 2 * |d|
    ensures forall i | 0 <= i < |r| :: IsLowerHexChar(r[i])
  {
    if d == [] then ""
    else [HexDigit(d[0] as nat / 16), HexDigit(d[0] as nat % 16)] + LowerHex(d[1..])
  }

  /** Reads back a string of lower-case hex digit pairs. */
  function ParseHex(s: string): Option<seq<byte>>
    decreases |s|
  {
    if |s| == 0 then Some([])
    else if |s| == 1 then None
    else match (HexValue(s[0]), HexValue(s[1]), ParseHex(s[2..]))
      case (Some(hi), Some(lo), Some(rest)) =>
        if hi < 16 && lo < 16 then Some([(hi * 16 + lo) as byte] + rest) else None
      case _ => None
  }

  lemma HexDigitValue(n: nat)
    requires n < 16
    ensures HexValue(HexDigit(n)) == Some(n)
  {
  }

  /** The hex rendering loses nothing: it parses back to the digest. */
  lemma {:induction false} LowerHexRoundTrip(d: seq<byte>)
    ensures ParseHex(LowerHex(d)) == Some(d)
  {
    if d != [] {
      var b := d[0] as nat;
      var r := LowerHex(d);
      assert r[2..] == LowerHex(d[1..]);
      HexDigitValue(b / 16);
      HexDigitValue(b % 16);
      LowerHexRoundTrip(d[1..]);
      assert (b / 16 * 16 + b % 16) as byte == d[0];
      assert [d[0]] + d[1..] == d;
    }
  }

  /** Different digests never render to the same string. */
  lemma LowerHexInjective(a: seq<byte>, b: seq<byte>)
    ensures LowerHex(a) == LowerHex(b) <==> a == b
  {
    LowerHexRoundTrip(a);
    LowerHexRoundTrip(b);
  }

  // ---------------------------------------------------------------------------
  // Decimal

  predicate IsDecChar(c: char) {
    '0' <= c <= '9'
  }

  function DecDigit(n: nat): (c: char)
    requires n < 10
    ensures IsDecChar(c)
  {
    ('0' as int + n) as char
  }

  /** The shortest decimal numeral of a natural number. */
  function NatToDecimal(n: nat): (r: string)
    ensures |r| >= 1
    ensures forall i | 0 <= i < |r| :: IsDecChar(r[i])
    ensures r[0] == '0' <==> n == 0
  {
    if n < 10 then [DecDigit(n)] else NatToDecimal(n / 10) + [DecDigit(n % 10)]
  }

  /** The value of a string of decimal digits. */
  function DecimalValue(s: string): nat
    requires forall i | 0 <= i < |s| :: IsDecChar(s[i])
    decreases |s|
  {
    if s == [] then 0
    else DecimalValue(s[..|s| - 1]) * 10 + DigitValue(s[|s| - 1])
  }

  function DigitValue(c: char): nat
    requires IsDecChar(c)
  {
    assert '0' as int <= c as int;
    c as int - '0' as int
  }

  /** `Display` for `i32`: a minus sign for negatives, then the magnitude. */
  function IntToDecimal(n: int): (r: string)
    ensures |r| >= 1
    ensures r[0] == '-' <==> n < 0
    ensures forall i | 0 <= i < |r| :: IsDecChar(r[i]) || (i == 0 && r[i] == '-')
  {
    if n < 0 then "-" + NatToDecimal(-n) else NatToDecimal(n)
  }

  lemma {:induction false} NatToDecimalRoundTrip(n: nat)
    ensures DecimalValue(NatToDecimal(n)) == n
  {
    if n >= 10 {
      var r := NatToDecimal(n);
      assert r[..|r| - 1] == NatToDecimal(n / 10);
      NatToDecimalRoundTrip(n / 10);
    }
  }

  /** Different build numbers never render to the same numeral. */
  lemma IntToDecimalInjective(a: int, b: int)
    ensures IntToDecimal(a) == IntToDecimal(b) <==> a == b
  {
    if IntToDecimal(a) == IntToDecimal(b) {
      if a < 0 {
        assert b < 0;
        NegativeDecimal(a);
        NegativeDecimal(b);
      } else {
        assert b >= 0;
        NatToDecimalRoundTrip(a);
        NatToDecimalRoundTrip(b);
      }
    }
  }

  lemma NegativeDecimal(n: int)
    requires n < 0
    ensures IntToDecimal(n)[1..] == NatToDecimal(-n)
    ensures DecimalValue(IntToDecimal(n)[1..]) == -n
  {
    NatToDecimalRoundTrip(-n);
  }
}
