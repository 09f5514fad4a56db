// Bytes, big-endian integers and Python's slicing and struct.unpack_from, as
// far as the collectd decoder needs them.
module CollectdBytes {

  type byte = x: int | 0 <= x < 256

  const TWO_TO_64 := 0x1_0000_0000_0000_0000

  function Pow256(k: nat): (p: nat)
    ensures p > 0
  {
    if k == 0 then 1 else 256 * Pow256(k - 1)
  }

  // The unsigned integer that a big-endian byte string stands for.
  function FromBytes(bs: seq<byte>): nat {
    if bs == [] then 0 else 256 * FromBytes(bs[..|bs| - 1]) + bs[|bs| - 1]
  }

  // n in k big-endian bytes.
  function ToBytes(n: nat, k: nat): (bs: seq<byte>)
    ensures |bs| == k
  {
    if k == 0 then [] else ToBytes(n / 256, k - 1) + [n % 256]
  }

  lemma {:induction false} ToFromBytes(n: nat, k: nat)
    requires n < Pow256(k)
    ensures FromBytes(ToBytes(n, k)) == n
  {
    if k > 0 {
      ToFromBytes(n / 256, k - 1);
      assert ToBytes(n, k)[..k - 1] == ToBytes(n / 256, k - 1);
    }
  }

  lemma Pow256Of8()
    ensures Pow256(8) == TWO_TO_64 && Pow256(2) == 65536
  {
    assert Pow256(4) == 256 * Pow256(3) == 256 * 256 * Pow256(2);
    assert Pow256(6) == 256 * 256 * Pow256(4);
    assert Pow256(8) == 256 * 256 * Pow256(6);
  }

  // s[lo:hi] in Python, for lo >= 0: out-of-range bounds are clamped and a
  // negative upper bound counts from the end.
  function PySlice(s: seq<byte>, lo: nat, hi: int): seq<byte> {
    var stop := if hi < 0 then hi + |s| else hi;
    var to := if stop < 0 then 0 else if stop > |s| then |s| else stop;
    if lo >= to then [] else s[lo..to]
  }
}
