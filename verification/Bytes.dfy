/** Bytes, optional values and fixed-width big-endian numbers. */
module Bytes {

  newtype byte = x: int | 0 <= x < 256

  datatype Option<+T> = None | Some(value: T)

  /** The low `k` bytes of `n`, most significant first. */
  function BigEndian(n: nat, k: nat): (s: seq<byte>)
    ensures |s| == k
  {
    if k == 0 then [] else BigEndian(n / 256, k - 1) + [(n % 256) as byte]
  }

  function FromBigEndian(s: seq<byte>): nat {
    if s == [] then 0 else FromBigEndian(s[..|s|-1]) * 256 + s[|s|-1] as nat
  }

  /** `n` is less than the `k`-th power of 256. */
  predicate Fits(n: nat, k: nat) {
    if k == 0 then n == 0 else Fits(n / 256, k - 1)
  }

  lemma {:induction false} BigEndianRoundTrip(n: nat, k: nat)
    requires Fits(n, k)
    ensures FromBigEndian(BigEndian(n, k)) == n
  {
    if k > 0 {
      BigEndianRoundTrip(n / 256, k - 1);
      assert BigEndian(n, k)[..k-1] == BigEndian(n / 256, k - 1);
    }
  }

  function Pow256(k: nat): nat {
    if k == 0 then 1 else 256 * Pow256(k - 1)
  }

  lemma {:induction false} FitsIff(n: nat, k: nat)
    ensures Fits(n, k) <==> n < Pow256(k)
  {
    if k > 0 {
      FitsIff(n / 256, k - 1);
    }
  }

  lemma EightBytesFit(n: nat)
    ensures Fits(n, 8) <==> n < 0x1_0000_0000_0000_0000
  {
    FitsIff(n, 8);
    assert Pow256(2) == 0x1_0000 && Pow256(4) == 0x1_0000_0000 && Pow256(6) == 0x1_0000_0000_0000;
  }
}
