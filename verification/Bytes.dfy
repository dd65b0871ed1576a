/** Bytes, and numbers written as bytes. */
module Bytes {

  type byte = b: int | 0 <= b < 256

  datatype Option<T> = None | Some(value: T)

  function Pow256(k: nat): (p: nat)
    ensures p > 0
  {
    if k == 0 then 1 else 256 * Pow256(k - 1)
  }

  /** The low `k` bytes of a number, least significant first. */
  function LowBytes(n: nat, k: nat): (bs: seq<byte>)
    ensures |bs| == k
  {
    if k == 0 then [] else [n % 256] + LowBytes(n / 256, k - 1)
  }

  function LittleEndian(bs: seq<byte>): nat {
    if bs == [] then 0 else bs[0] + 256 * LittleEndian(bs[1..])
  }

  /** The low `k` bytes of a number, most significant first. */
  function HighFirst(n: nat, k: nat): (bs: seq<byte>)
    ensures |bs| == k
  {
    if k == 0 then [] else HighFirst(n / 256, k - 1) + [n % 256]
  }

  function BigEndian(bs: seq<byte>): nat {
    if bs == [] then 0 else 256 * BigEndian(bs[..|bs| - 1]) + bs[|bs| - 1]
  }

  lemma RemainderUnique(n: nat, m: nat, q: nat, r: nat)
    requires m > 0 && n == m * q + r && r < m
    ensures n / m == q && n % m == r
  {
    var d := n / m - q;
    assert m * d == r - n % m;
  }

  lemma RemainderByBytes(n: nat, p: nat)
    requires p > 0
    ensures n % (256 * p) == n % 256 + 256 * (n / 256 % p)
  {
    var q, r := n / 256, n % 256;
    var a, b := q / p, q % p;
    assert q == p * a + b;
    assert 256 * q == (256 * p) * a + 256 * b;
    RemainderUnique(n, 256 * p, a, r + 256 * b);
  }

  lemma {:induction false} LittleEndianLowBytes(n: nat, k: nat)
    ensures LittleEndian(LowBytes(n, k)) == n % Pow256(k)
    decreases k
  {
    if k > 0 {
      LittleEndianLowBytes(n / 256, k - 1);
      RemainderByBytes(n, Pow256(k - 1));
      assert LowBytes(n, k)[1..] == LowBytes(n / 256, k - 1);
    }
  }

  lemma {:induction false} BigEndianHighFirst(n: nat, k: nat)
    ensures BigEndian(HighFirst(n, k)) == n % Pow256(k)
    decreases k
  {
    if k > 0 {
      BigEndianHighFirst(n / 256, k - 1);
      RemainderByBytes(n, Pow256(k - 1));
      assert HighFirst(n, k)[..k - 1] == HighFirst(n / 256, k - 1);
    }
  }

  lemma {:induction false} BigEndianBound(bs: seq<byte>)
    ensures BigEndian(bs) < Pow256(|bs|)
    decreases |bs|
  {
    if bs != [] {
      BigEndianBound(bs[..|bs| - 1]);
    }
  }
}
