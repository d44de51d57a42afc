/** Byte strings and the big-endian integers Python reads from and writes to them. */
module Bytes {

  type byte = b: int | 0 <= b < 256

  /** Python's `s[lo:hi]` for non-negative bounds: a slice that runs short instead of failing. */
  function Slice<T>(s: seq<T>, lo: nat, hi: nat): (r: seq<T>)
    ensures lo <= hi <= |s| ==> r == s[lo..hi]
  {
    if |s| <= lo || hi <= lo then [] else s[lo..if hi < |s| then hi else |s|]
  }

  function Pow256(k: nat): (p: nat)
    ensures p > 0
  {
    if k == 0 then 1 else 256 * Pow256(k - 1)
  }

  /** `int.from_bytes(b, "big")`. */
  function FromBE(b: seq<byte>): nat {
    if b == [] then 0 else FromBE(b[..|b| - 1]) * 256 + b[|b| - 1]
  }

  /** The shortest big-endian form of `n`; zero is the empty string. */
  function ToBE(n: nat): seq<byte> {
    if n == 0 then [] else ToBE(n / 256) + [n % 256]
  }

  /** `n.to_bytes(k, "big")`, for n below 256^k. */
  function ToFixedBE(n: nat, k: nat): (b: seq<byte>)
    ensures |b| == k
  {
    if k == 0 then [] else ToFixedBE(n / 256, k - 1) + [n % 256]
  }

  lemma {:induction false} FromToBE(n: nat)
    ensures FromBE(ToBE(n)) == n
    ensures n > 0 ==> |ToBE(n)| > 0 && ToBE(n)[0] > 0
  {
    if n > 0 {
      FromToBE(n / 256);
      assert ToBE(n)[..|ToBE(n)| - 1] == ToBE(n / 256);
    }
  }

  lemma {:induction false} ToBELength(n: nat, k: nat)
    requires n < Pow256(k)
    ensures |ToBE(n)| <= k
  {
    if n > 0 {
      ToBELength(n / 256, k - 1);
    }
  }

  lemma {:induction false} FromToFixedBE(n: nat, k: nat)
    requires n < Pow256(k)
    ensures FromBE(ToFixedBE(n, k)) == n
  {
    if k > 0 {
      FromToFixedBE(n / 256, k - 1);
      assert ToFixedBE(n, k)[..k - 1] == ToFixedBE(n / 256, k - 1);
    }
  }

  lemma {:induction false} FixedFromBE(b: seq<byte>)
    ensures FromBE(b) < Pow256(|b|)
    ensures ToFixedBE(FromBE(b), |b|) == b
  {
    if b != [] {
      var front := b[..|b| - 1];
      FixedFromBE(front);
      assert FromBE(b) / 256 == FromBE(front) && FromBE(b) % 256 == b[|b| - 1];
      assert b == front + [b[|b| - 1]];
    }
  }
}
