/** The two hex forms of the Engine API: DATA keeps every byte, QUANTITY is a minimal number. */
module Hex {
  import opened Bytes

  function Digit(d: nat): (c: char)
    requires d < 16
  {
    if d < 10 then '0' + d as char else 'a' + (d - 10) as char
  }

  predicate IsDigit(c: char) {
    '0' <= c <= '9' || 'a' <= c <= 'f' || 'A' <= c <= 'F'
  }

  function DigitValue(c: char): (d: nat)
    requires IsDigit(c)
    ensures d < 16
  {
    if c <= '9' then c as int - '0' as int
    else if c <= 'F' then c as int - 'A' as int + 10
    else c as int - 'a' as int + 10
  }

  /** The digits of `hex(n)` after its prefix. */
  function Digits(n: nat): (s: string)
    ensures |s| > 0
  {
    if n < 16 then [Digit(n)] else Digits(n / 16) + [Digit(n % 16)]
  }

  /** `b.hex()`: two digits a byte. */
  function ByteDigits(b: seq<byte>): (s: string)
    ensures |s| == 2 * |b|
  {
    if b == [] then "" else [Digit(b[0] / 16), Digit(b[0] % 16)] + ByteDigits(b[1..])
  }

  function ToData(b: seq<byte>): (s: string)
    ensures |s| == 2 + 2 * |b|
  {
    "0x" + ByteDigits(b)
  }

  function ToQty(n: nat): string {
    "0x" + Digits(n)
  }

  /** What `int(s, 16)` makes of digits in either case, prefixed or not; the rest stands for `ValueError`. */
  datatype Parsed = Number(value: nat) | NotANumber

  function ParseDigits(s: string): Parsed {
    if s == "" || !IsDigit(s[|s| - 1]) then NotANumber
    else if |s| == 1 then Number(DigitValue(s[0]))
    else match ParseDigits(s[..|s| - 1])
      case NotANumber => NotANumber
      case Number(n) => Number(n * 16 + DigitValue(s[|s| - 1]))
  }

  function ParseHex(s: string): Parsed {
    ParseDigits(if |s| >= 2 && s[0] == '0' && s[1] in {'x', 'X'} then s[2..] else s)
  }

  lemma {:induction false} DigitsRoundTrip(n: nat)
    ensures ParseDigits(Digits(n)) == Number(n)
    ensures n > 0 ==> Digits(n)[0] != '0'
  {
    if 16 <= n {
      DigitsRoundTrip(n / 16);
      assert Digits(n)[..|Digits(n)| - 1] == Digits(n / 16);
    }
  }

  /** Either case and no prefix will do for reading; no digits at all will not. */
  lemma ReadsEitherCase()
    ensures ParseHex("0x1F") == ParseHex("0X1f") == ParseHex("1f") == Number(31)
    ensures ParseHex("") == ParseHex("0x") == ParseHex("0xg") == NotANumber
  {
    assert "0x1F"[2..] == "1F" && "0X1f"[2..] == "1f" && "0x"[2..] == "" && "0xg"[2..] == "g";
    assert "1F"[..1] == "1" && "1f"[..1] == "1";
  }

  /** A QUANTITY reads back as its number, and has no leading zero unless it is `0x0`. */
  lemma QtyRoundTrip(n: nat)
    ensures ParseHex(ToQty(n)) == Number(n)
    ensures n == 0 ==> ToQty(n) == "0x0"
    ensures n > 0 ==> ToQty(n)[2] != '0'
  {
    DigitsRoundTrip(n);
    assert ToQty(n)[..2] == "0x" && ToQty(n)[2..] == Digits(n);
  }

  lemma QtyInjective(m: nat, n: nat)
    ensures ToQty(m) == ToQty(n) <==> m == n
  {
    QtyRoundTrip(m);
    QtyRoundTrip(n);
  }

  lemma {:induction false} ByteDigitsInjective(a: seq<byte>, b: seq<byte>)
    requires ByteDigits(a) == ByteDigits(b)
    ensures a == b
  {
    if a != [] {
      var s := ByteDigits(a);
      assert s[0] == Digit(b[0] / 16) && s[1] == Digit(b[0] % 16);
      assert a[0] == b[0];
      assert s[2..] == ByteDigits(a[1..]) == ByteDigits(b[1..]);
      ByteDigitsInjective(a[1..], b[1..]);
    }
  }

  /** Both forms are written in lower case. */
  lemma {:induction false} WrittenInLowerCase(n: nat, b: seq<byte>)
    ensures forall c | c in Digits(n) || c in ByteDigits(b) :: c in "0123456789abcdef"
    decreases n, |b|
  {
    if 16 <= n {
      WrittenInLowerCase(n / 16, []);
    }
    if b != [] {
      WrittenInLowerCase(0, b[1..]);
    }
    forall d: nat | d < 16 ensures Digit(d) in "0123456789abcdef" {
      assert Digit(d) == "0123456789abcdef"[d];
    }
  }

  /** Different byte strings have different DATA forms: leading zeros count. */
  lemma DataInjective(a: seq<byte>, b: seq<byte>)
    ensures ToData(a) == ToData(b) <==> a == b
  {
    if ToData(a) == ToData(b) {
      assert ToData(a)[2..] == ByteDigits(a) && ToData(b)[2..] == ByteDigits(b);
      ByteDigitsInjective(a, b);
    }
  }

  /** DATA reads back byte by byte: the two digits of each byte stand where they belong. */
  lemma {:induction false} DataReadsBack(b: seq<byte>, k: nat)
    requires k < |b|
    ensures var s := ToData(b);
            s[..2] == "0x" && IsDigit(s[2 + 2 * k]) && IsDigit(s[3 + 2 * k])
            && b[k] == DigitValue(s[2 + 2 * k]) * 16 + DigitValue(s[3 + 2 * k])
  {
    if k > 0 {
      DataReadsBack(b[1..], k - 1);
      assert ByteDigits(b)[2..] == ByteDigits(b[1..]);
      assert ToData(b)[2 + 2 * k] == ToData(b[1..])[2 * k] && ToData(b)[3 + 2 * k] == ToData(b[1..])[2 * k + 1];
    }
  }
}
