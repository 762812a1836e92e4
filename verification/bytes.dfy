/** Bytes, machine integers and the network byte order of common/net.c. */
module Bytes {
  const UINT16_LIMIT := 0x1_0000
  const UINT32_LIMIT := 0x1_0000_0000
  const UINT64_LIMIT := 0x1_0000_0000_0000_0000

  // C's unsigned char, uint64_t and uint32_t.  Dafny refuses an operation whose result leaves
  // the range, so code written over these types provably never wraps.
  newtype byte = x: int | 0 <= x < 256
  newtype uint64 = x: int | 0 <= x < UINT64_LIMIT
  newtype uint32 = x: int | 0 <= x < UINT32_LIMIT

  function Pow256(k: nat): (p: nat)
    ensures p > 0
  {
    if k == 0 then 1 else 256 * Pow256(k - 1)
  }

  lemma PowersOf256()
    ensures Pow256(2) == UINT16_LIMIT && Pow256(4) == UINT32_LIMIT && Pow256(8) == UINT64_LIMIT
  {
    assert Pow256(2) == UINT16_LIMIT;
    assert Pow256(3) == 256 * Pow256(2);
    assert Pow256(4) == 256 * Pow256(3);
    assert Pow256(5) == 256 * Pow256(4);
    assert Pow256(6) == 256 * Pow256(5);
    assert Pow256(7) == 256 * Pow256(6);
    assert Pow256(8) == 256 * Pow256(7);
  }

  function Zeros(n: nat): (z: seq<byte>)
    ensures |z| == n && forall i :: 0 <= i < n ==> z[i] == 0
  {
    seq(n, i => 0)
  }

  function ToByte(n: nat): byte
    requires n < 256
  {
    n as byte
  }

  function FromByte(b: byte): (n: nat)
    ensures n < 256
  {
    b as nat
  }

  /** The k low bytes of n, most significant first. */
  function BigEndian(n: nat, k: nat): (s: seq<byte>)
    ensures |s| == k
  {
    if k == 0 then [] else BigEndian(n / 256, k - 1) + [ToByte(n % 256)]
  }

  function FromBigEndian(s: seq<byte>): nat {
    if s == [] then 0 else FromBigEndian(s[..|s| - 1]) * 256 + FromByte(s[|s| - 1])
  }

  /** The k low bytes of n, least significant first. */
  function LittleEndian(n: nat, k: nat): (s: seq<byte>)
    ensures |s| == k
  {
    if k == 0 then [] else [ToByte(n % 256)] + LittleEndian(n / 256, k - 1)
  }

  lemma BigEndianSnoc(n: nat, k: nat)
    requires k > 0
    ensures BigEndian(n, k) == BigEndian(n / 256, k - 1) + [ToByte(n % 256)]
    ensures n < Pow256(k) ==> n / 256 < Pow256(k - 1)
  {
  }

  lemma LastByte(high: seq<byte>, low: byte)
    ensures FromBigEndian(high + [low]) == FromBigEndian(high) * 256 + FromByte(low)
  {
    assert (high + [low])[..|high|] == high;
  }

  lemma {:induction false} BigEndianRoundTrip(n: nat, k: nat)
    requires n < Pow256(k)
    ensures FromBigEndian(BigEndian(n, k)) == n
  {
    if k > 0 {
      BigEndianSnoc(n, k);
      hide BigEndian, FromBigEndian, Pow256, ToByte, FromByte;
      BigEndianRoundTrip(n / 256, k - 1);
      LastByte(BigEndian(n / 256, k - 1), ToByte(n % 256));
      ByteOf(n % 256);
    }
  }

  lemma ByteOf(n: nat)
    requires n < 256
    ensures FromByte(ToByte(n)) == n
  {
  }

  lemma {:induction false} BigEndianBound(s: seq<byte>)
    ensures FromBigEndian(s) < Pow256(|s|)
  {
    if s != [] {
      BigEndianBound(s[..|s| - 1]);
    }
  }

  lemma JoinDigits(high: nat, low: nat, p: nat)
    ensures (high * (256 * p) + low) / 256 == high * p + low / 256
    ensures (high * (256 * p) + low) % 256 == low % 256
  {
    calc {
      high * (256 * p) + low;
      256 * (high * p) + (256 * (low / 256) + low % 256);
      256 * (high * p + low / 256) + low % 256;
    }
  }

  /** A concatenation of two big-endian fields is the big-endian form of the joined number. */
  lemma {:induction false} BigEndianJoin(high: nat, low: nat, j: nat, k: nat)
    requires low < Pow256(k)
    ensures BigEndian(high * Pow256(k) + low, j + k) == BigEndian(high, j) + BigEndian(low, k)
  {
    if k > 0 {
      var n := high * Pow256(k) + low;
      JoinDigits(high, low, Pow256(k - 1));
      BigEndianJoin(high, low / 256, j, k - 1);
      assert BigEndian(high, j) + BigEndian(low / 256, k - 1) + [ToByte(low % 256)]
          == BigEndian(high, j) + BigEndian(low, k);
    } else {
      assert BigEndian(high, j) + BigEndian(low, 0) == BigEndian(high, j);
    }
  }

  lemma FourBytes(n: nat)
    ensures BigEndian(n, 4) == [ToByte(n / 256 / 256 / 256 % 256), ToByte(n / 256 / 256 % 256), ToByte(n / 256 % 256), ToByte(n % 256)]
  {
    assert BigEndian(n / 256 / 256 / 256, 1) == [] + [ToByte(n / 256 / 256 / 256 % 256)];
    assert BigEndian(n / 256 / 256, 2) == BigEndian(n / 256 / 256 / 256, 1) + [ToByte(n / 256 / 256 % 256)];
    assert BigEndian(n / 256, 3) == BigEndian(n / 256 / 256, 2) + [ToByte(n / 256 % 256)];
  }

  lemma SmallFourBytes(n: nat)
    requires n < UINT16_LIMIT
    ensures BigEndian(n, 4)[..2] == [0, 0]
  {
    hide BigEndian;
    FourBytes(n);
    assert n / 256 / 256 == 0;
  }

  lemma TwoBytes(n: nat)
    ensures BigEndian(n, 2) == [ToByte(n / 256 % 256), ToByte(n % 256)]
  {
    assert BigEndian(n / 256, 1) == [] + [ToByte(n / 256 % 256)];
  }

  lemma LengthOf(s: seq<byte>)
    requires |s| == 4
    ensures FromBigEndian(s)
         == ((FromByte(s[0]) * 256 + FromByte(s[1])) * 256 + FromByte(s[2])) * 256 + FromByte(s[3])
  {
    assert s[..3][..2] == s[..2] && s[..2][..1] == s[..1];
    assert FromBigEndian(s[..1]) == FromBigEndian([]) * 256 + FromByte(s[0]);
    assert FromBigEndian(s[..2]) == FromBigEndian(s[..1]) * 256 + FromByte(s[1]);
    assert FromBigEndian(s[..3]) == FromBigEndian(s[..2]) * 256 + FromByte(s[2]);
  }

  lemma HighAndLow(high: nat, low: nat)
    requires low < 256
    ensures (high * 256 + low) / 256 == high && (high * 256 + low) % 256 == low
  {
  }

  lemma ToByteOf(b: byte)
    ensures ToByte(FromByte(b)) == b
  {
  }

  /** A field is the big-endian form of the number it holds. */
  lemma {:induction false} BigEndianOfLoad(s: seq<byte>)
    ensures BigEndian(FromBigEndian(s), |s|) == s
  {
    if s != [] {
      var init, last := s[..|s| - 1], s[|s| - 1];
      assert s == init + [last];
      BigEndianOfLoad(init);
      LastByte(init, last);
      HighAndLow(FromBigEndian(init), FromByte(last));
      ToByteOf(last);
      BigEndianSnoc(FromBigEndian(s), |s|);
      hide BigEndian, FromBigEndian, ToByte, FromByte;
    }
  }
}
