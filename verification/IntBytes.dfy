/**
 Integers as opaque bytes: utils_encodeInt, utils_opaqueToInt and
 utils_copyValue of external/wakaama/utils.c on a little-endian host.
 Two's complement, most significant byte first, in 1, 2, 4 or 8 bytes.
 */
module IntBytes {
  import opened Bytes

  type int64 = i: int | -0x8000_0000_0000_0000 <= i < 0x8000_0000_0000_0000

  ghost predicate InRange(v: int, k: nat) {
    0 <= 2 * v + Pow256(k) && 2 * v < Pow256(k)
  }

  /** The `k`-byte two's complement pattern of `v` */
  function Pattern(v: int, k: nat): (n: nat)
    requires InRange(v, k)
    ensures n < Pow256(k)
  {
    if v < 0 then v + Pow256(k) else v
  }

  /** The value of a `k`-byte pattern */
  function Signed(n: nat, k: nat): (v: int)
    requires n < Pow256(k)
    ensures InRange(v, k)
  {
    if 2 * n >= Pow256(k) then n - Pow256(k) else n
  }

  predicate IsWidth(k: nat) {
    k == 1 || k == 2 || k == 4 || k == 8
  }

  lemma Powers()
    ensures Pow256(1) == 0x100 && Pow256(2) == 0x1_0000 && Pow256(4) == 0x1_0000_0000
    ensures Pow256(8) == 0x1_0000_0000_0000_0000
  {
    assert Pow256(0) == 1;
    assert Pow256(3) == 0x100_0000;
    assert Pow256(5) == 0x100_0000_0000;
    assert Pow256(6) == 0x1_0000_0000_0000;
    assert Pow256(7) == 0x100_0000_0000_0000;
  }

  /** How many bytes a value is given */
  function Width(v: int64): (k: nat)
    ensures IsWidth(k) && InRange(v, k)
  {
    Powers();
    if -0x80 <= v < 0x80 then 1
    else if -0x8000 <= v < 0x8000 then 2
    else if -0x8000_0000 <= v < 0x8000_0000 then 4
    else 8
  }

  /** The encoding pinned down: widths, sign, most significant byte first. */
  lemma KnownIntegers()
    ensures EncodeInt(0) == [0] && EncodeInt(-1) == [255] && EncodeInt(127) == [127]
    ensures EncodeInt(128) == [0, 128] && EncodeInt(258) == [1, 2] && EncodeInt(-129) == [255, 127]
  {
    Powers();
    assert HighFirst(0, 0) == [] && HighFirst(1, 0) == [] && HighFirst(255, 0) == [];
    assert HighFirst(1, 1) == [1] && HighFirst(0, 1) == [0] && HighFirst(255, 1) == [255];
  }

  function EncodeInt(v: int64): (bs: seq<byte>)
    ensures |bs| == Width(v)
  {
    HighFirst(Pattern(v, Width(v)), Width(v))
  }

  /** utils_opaqueToInt: the value, unless the length is not one of the four */
  function DecodeInt(bs: seq<byte>): Option<int> {
    if IsWidth(|bs|) then BigEndianBound(bs); Some(Signed(BigEndian(bs), |bs|)) else None
  }

  lemma BytesBack(n: nat, k: nat)
    requires n < Pow256(k)
    ensures BigEndian(HighFirst(n, k)) == n
  {
    BigEndianHighFirst(n, k);
    RemainderUnique(n, Pow256(k), 0, n);
  }

  /** Every 64-bit value comes back from its bytes. */
  lemma IntRoundTrip(v: int64)
    ensures DecodeInt(EncodeInt(v)) == Some(v)
  {
    var k := Width(v);
    BytesBack(Pattern(v, k), k);
  }

  lemma {:induction false} HighFirstBigEndian(bs: seq<byte>)
    ensures HighFirst(BigEndian(bs), |bs|) == bs
    decreases |bs|
  {
    if bs != [] {
      var front, last := bs[..|bs| - 1], bs[|bs| - 1];
      HighFirstBigEndian(front);
      assert BigEndian(bs) / 256 == BigEndian(front) && BigEndian(bs) % 256 == last;
    }
  }

  /** The encoding is the shortest of the bytes that stand for a value, and the only one of its length. */
  lemma ShortestEncoding(bs: seq<byte>, v: int64)
    requires DecodeInt(bs) == Some(v)
    ensures |EncodeInt(v)| <= |bs|
    ensures |EncodeInt(v)| == |bs| ==> EncodeInt(v) == bs
  {
    Powers();
    BigEndianBound(bs);
    HighFirstBigEndian(bs);
    assert Pattern(v, |bs|) == BigEndian(bs);
  }

  lemma {:induction false} LowIsHighReversed(n: nat, k: nat, i: nat)
    requires i < k
    ensures LowBytes(n, k)[k - 1 - i] == HighFirst(n, k)[i]
    decreases k
  {
    LowSplit(n, k);
    if i + 1 < k {
      LowIsHighReversed(n / 256, k - 1, i);
    }
  }

  lemma LowSplit(n: nat, k: nat)
    requires k > 0
    ensures LowBytes(n, k) == [n % 256] + LowBytes(n / 256, k - 1)
    ensures HighFirst(n, k) == HighFirst(n / 256, k - 1) + [n % 256]
  {
  }

  /** utils_copyValue: the bytes of a host value, most significant first */
  method CopyValue(dst: array<byte>, value: nat, len: nat)
    requires len <= dst.Length
    modifies dst
    ensures dst[..len] == HighFirst(value, len) && dst[len..] == old(dst[len..])
  {
    var src := LowBytes(value, len);
    var i := 0;
    while i < len
      invariant i <= len
      invariant forall j :: 0 <= j < i ==> dst[j] == src[len - 1 - j]
      invariant dst[len..] == old(dst[len..])
    {
      dst[i] := src[len - 1 - i];
      i := i + 1;
    }
    forall j | 0 <= j < len
      ensures dst[j] == HighFirst(value, len)[j]
    {
      LowIsHighReversed(value, len, j);
    }
  }

  /** utils_encodeInt */
  method EncodeIntInto(data: int64, buffer: array<byte>) returns (length: nat)
    requires buffer.Length == 8
    modifies buffer
    ensures length == |EncodeInt(data)| && buffer[..length] == EncodeInt(data)
    ensures forall i :: length <= i < 8 ==> buffer[i] == 0
  {
    forall i | 0 <= i < 8 {
      buffer[i] := 0;
    }
    Powers();
    if -0x80 <= data < 0x80 {
      length := 1;
      buffer[0] := data % 256;
      OneByte(Pattern(data, 1));
    } else if -0x8000 <= data < 0x8000 {
      length := 2;
      buffer[0], buffer[1] := data / 256 % 256, data % 256;
      TwoBytes(data);
    } else if -0x8000_0000 <= data < 0x8000_0000 {
      length := 4;
      CopyValue(buffer, Pattern(data, 4), 4);
    } else {
      length := 8;
      CopyValue(buffer, Pattern(data, 8), 8);
    }
  }

  lemma OneByte(n: nat)
    requires n < 256
    ensures HighFirst(n, 1) == [n]
  {
    assert HighFirst(n / 256, 0) == [];
  }

  lemma TwoBytes(v: int)
    requires -0x8000 <= v < 0x8000
    ensures InRange(v, 2) && HighFirst(Pattern(v, 2), 2) == [v / 256 % 256, v % 256]
  {
    Powers();
    var n := Pattern(v, 2);
    OneByte(n / 256);
    LowSplit(n, 2);
  }

  function Reversed(bs: seq<byte>): (rs: seq<byte>)
    ensures |rs| == |bs|
  {
    if bs == [] then [] else [bs[|bs| - 1]] + Reversed(bs[..|bs| - 1])
  }

  lemma {:induction false} ReversedAt(bs: seq<byte>, i: nat)
    requires i < |bs|
    ensures Reversed(bs)[i] == bs[|bs| - 1 - i]
    decreases |bs|
  {
    if i > 0 {
      ReversedAt(bs[..|bs| - 1], i - 1);
    }
  }

  lemma {:induction false} HostValue(bs: seq<byte>)
    ensures LittleEndian(Reversed(bs)) == BigEndian(bs)
    decreases |bs|
  {
    if bs != [] {
      HostValue(bs[..|bs| - 1]);
      assert Reversed(bs)[1..] == Reversed(bs[..|bs| - 1]);
    }
  }

  /** utils_copyValue into a host value */
  method CopyToHost(src: seq<byte>) returns (value: nat)
    ensures value == BigEndian(src)
  {
    var dst, i := [], 0;
    while i < |src|
      invariant i <= |src| == |Reversed(src)| && dst == Reversed(src)[..i]
    {
      ReversedAt(src, i);
      dst := dst + [src[|src| - 1 - i]];
      i := i + 1;
    }
    HostValue(src);
    assert dst == Reversed(src);
    value := LittleEndian(dst);
  }

  /** utils_opaqueToInt: the length used, or 0 when it is not one of the four */
  method OpaqueToInt(buffer: seq<byte>) returns (length: nat, data: int)
    ensures length == if IsWidth(|buffer|) then |buffer| else 0
    ensures if IsWidth(|buffer|) then DecodeInt(buffer) == Some(data) else data == 0
  {
    Powers();
    data, length := 0, 0;
    match |buffer|
    case 1 =>
      data := if buffer[0] < 128 then buffer[0] else buffer[0] as int - 256;
      length := 1;
      assert BigEndian(buffer) == 256 * BigEndian(buffer[..0]) + buffer[0];
    case 2 =>
      var value := CopyToHost(buffer);
      BigEndianBound(buffer);
      data, length := Signed(value, 2), 2;
    case 4 =>
      var value := CopyToHost(buffer);
      BigEndianBound(buffer);
      data, length := Signed(value, 4), 4;
    case 8 =>
      var value := CopyToHost(buffer);
      BigEndianBound(buffer);
      data, length := Signed(value, 8), 8;
    case _ =>
  }
}
