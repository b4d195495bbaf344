/** Little-endian integers, as `to_le_bytes` and `from_le_bytes` lay them out. */
module Bytes {
  import opened Basics

  function Power256(n: nat): (p: nat)
    ensures 0 < p
  {
    if n == 0 then 1 else 256 * Power256(n - 1)
  }

  function ToLE(x: nat, n: nat): (b: seq<u8>)
    ensures |b| == n
  {
    if n == 0 then [] else [x % 256] + ToLE(x / 256, n - 1)
  }

  function FromLE(b: seq<u8>): nat {
    if b == [] then 0 else b[0] + 256 * FromLE(b[1..])
  }

  lemma {:induction false} FromLEBound(b: seq<u8>)
    ensures FromLE(b) < Power256(|b|)
  {
    if b != [] {
      FromLEBound(b[1..]);
    }
  }

  lemma {:induction false} FromLEOfToLE(x: nat, n: nat)
    requires x < Power256(n)
    ensures FromLE(ToLE(x, n)) == x
  {
    if n > 0 {
      FromLEOfToLE(x / 256, n - 1);
      assert ToLE(x, n)[1..] == ToLE(x / 256, n - 1);
    }
  }

  lemma {:induction false} ToLEOfFromLE(b: seq<u8>)
    ensures ToLE(FromLE(b), |b|) == b
  {
    if b != [] {
      ToLEOfFromLE(b[1..]);
      assert FromLE(b) / 256 == FromLE(b[1..]) && FromLE(b) % 256 == b[0];
    }
  }

  lemma Power256Of8()
    ensures Power256(8) == U64_RANGE
  {
    assert Power256(4) == 0x1_0000_0000;
    assert Power256(8) == 256 * 256 * 256 * 256 * Power256(4);
  }

  function U64Bytes(x: u64): (b: seq<u8>)
    ensures |b| == 8
    ensures U64At(b) == x
  {
    Power256Of8();
    FromLEOfToLE(x, 8);
    ToLE(x, 8)
  }

  function U64At(b: seq<u8>): (x: u64)
    requires |b| == 8
  {
    FromLEBound(b);
    Power256Of8();
    FromLE(b)
  }

  lemma U64BytesOfU64At(b: seq<u8>)
    requires |b| == 8
    ensures U64Bytes(U64At(b)) == b
  {
    ToLEOfFromLE(b);
  }

  /** The lowest byte comes first. */
  lemma U64IsLittleEndian(b: seq<u8>)
    requires |b| == 8
    ensures U64At(b) == FourBytes(b[..4]) + 0x1_0000_0000 * FourBytes(b[4..])
  {
    FourBytesFirst(b);
    FourBytesFirst(b[4..]);
    assert b[4..][..4] == b[4..];
  }

  function FourBytes(b: seq<u8>): nat
    requires |b| == 4
  {
    (b[0] as int) + 0x100 * (b[1] as int) + 0x1_0000 * (b[2] as int) + 0x100_0000 * (b[3] as int)
  }

  lemma FourBytesFirst(b: seq<u8>)
    requires |b| >= 4
    ensures FromLE(b) == FourBytes(b[..4]) + 0x1_0000_0000 * FromLE(b[4..])
  {
    assert b[1..][1..] == b[2..] && b[2..][1..] == b[3..] && b[3..][1..] == b[4..];
    assert FromLE(b[3..]) == (b[3] as int) + 256 * FromLE(b[4..]);
    assert FromLE(b[2..]) == (b[2] as int) + 256 * FromLE(b[3..]);
    assert FromLE(b[1..]) == (b[1] as int) + 256 * FromLE(b[2..]);
  }
}
