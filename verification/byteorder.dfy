/** host_to_net64 and net_to_host64 (common/net.c) against the bytes they leave in memory. */
module ByteOrder {
  import opened Bytes

  function FromLittleEndian(s: seq<byte>): nat {
    if s == [] then 0 else FromByte(s[0]) + 256 * FromLittleEndian(s[1..])
  }

  /** The k bytes a machine of the given endianness stores for the integer v. */
  function Memory(little: bool, v: nat, k: nat): (s: seq<byte>)
    ensures |s| == k
  {
    if little then LittleEndian(v, k) else BigEndian(v, k)
  }

  /** The integer a machine of the given endianness reads from the bytes s. */
  function Load(little: bool, s: seq<byte>): nat {
    if little then FromLittleEndian(s) else FromBigEndian(s)
  }

  /** htonl: on a little-endian machine, the integer whose bytes are those of x reversed. */
  function HostToNet32(little: bool, x: nat): nat {
    if little then FromLittleEndian(BigEndian(x, 4)) else x
  }

  function HostToNet16(little: bool, x: nat): nat {
    if little then FromLittleEndian(BigEndian(x, 2)) else x
  }

  function HostToNet64(little: bool, v: nat): nat {
    if !little then v
    else HostToNet32(little, v % UINT32_LIMIT) * UINT32_LIMIT + HostToNet32(little, v / UINT32_LIMIT)
  }

  function NetToHost64(little: bool, v: nat): nat {
    HostToNet64(little, v)
  }

  lemma {:induction false} FromLittleEndianBound(s: seq<byte>)
    ensures FromLittleEndian(s) < Pow256(|s|)
  {
    if s != [] {
      FromLittleEndianBound(s[1..]);
    }
  }

  lemma {:induction false} StoreAfterLoad(s: seq<byte>)
    ensures LittleEndian(FromLittleEndian(s), |s|) == s
  {
    if s != [] {
      var n := FromLittleEndian(s);
      assert n % 256 == FromByte(s[0]) && n / 256 == FromLittleEndian(s[1..]);
      StoreAfterLoad(s[1..]);
      assert ToByte(FromByte(s[0])) == s[0];
      assert LittleEndian(n, |s|) == [s[0]] + s[1..];
    }
  }

  lemma {:induction false} LoadAfterStore(n: nat, k: nat)
    requires n < Pow256(k)
    ensures FromLittleEndian(LittleEndian(n, k)) == n
  {
    if k > 0 {
      assert LittleEndian(n, k)[1..] == LittleEndian(n / 256, k - 1);
      LoadAfterStore(n / 256, k - 1);
    }
  }

  lemma {:induction false} LoadAppend(s: seq<byte>, t: seq<byte>)
    ensures FromLittleEndian(s + t) == FromLittleEndian(s) + Pow256(|s|) * FromLittleEndian(t)
  {
    if s == [] {
      assert s + t == t;
    } else {
      LoadAppend(s[1..], t);
      assert (s + t)[1..] == s[1..] + t;
      Regroup(Pow256(|s| - 1), FromLittleEndian(t));
    }
  }

  lemma Regroup(p: nat, x: nat)
    ensures 256 * (p * x) == (256 * p) * x
  {
  }

  /** What a field filled by host_to_net64 looks like on the wire does not depend on the machine. */
  lemma NetworkOrderBytes(little: bool, v: nat)
    requires v < UINT64_LIMIT
    ensures HostToNet64(little, v) < UINT64_LIMIT
    ensures Memory(little, HostToNet64(little, v), 8) == BigEndian(v, 8)
  {
    hide BigEndian, LittleEndian, FromLittleEndian;
    PowersOf256();
    var high, low := v / UINT32_LIMIT, v % UINT32_LIMIT;
    BigEndianJoin(high, low, 4, 4);
    if little {
      var first, second := BigEndian(high, 4), BigEndian(low, 4);
      LoadAppend(first, second);
      StoreAfterLoad(first + second);
      FromLittleEndianBound(first + second);
    }
  }

  /** The value one machine stores with host_to_net64 is the value another recovers with net_to_host64. */
  lemma ByteOrderRoundTrip(writer: bool, reader: bool, v: nat)
    requires v < UINT64_LIMIT
    ensures NetToHost64(reader, Load(reader, Memory(writer, HostToNet64(writer, v), 8))) == v
  {
    PowersOf256();
    NetworkOrderBytes(writer, v);
    BigEndianRoundTrip(v, 8);
    if reader {
      NetworkOrderBytes(reader, v);
      LoadAfterStore(HostToNet64(reader, v), 8);
      SwapTwice(v);
    }
  }

  /** Byte reversal is its own inverse on every machine. */
  lemma SwapTwice(v: nat)
    requires v < UINT64_LIMIT
    ensures HostToNet64(true, HostToNet64(true, v)) == v
  {
    PowersOf256();
    var high, low := v / UINT32_LIMIT, v % UINT32_LIMIT;
    var first, second := HostToNet32(true, high), HostToNet32(true, low);
    Swap32Twice(high);
    Swap32Twice(low);
    var swapped := second * UINT32_LIMIT + first;
    assert HostToNet64(true, v) == swapped;
    assert swapped / UINT32_LIMIT == second && swapped % UINT32_LIMIT == first;
  }

  function Reversed(s: seq<byte>): (r: seq<byte>)
    ensures |r| == |s|
  {
    if s == [] then [] else Reversed(s[1..]) + [s[0]]
  }

  lemma {:induction false} ReversedLoad(s: seq<byte>)
    ensures FromBigEndian(Reversed(s)) == FromLittleEndian(s)
  {
    if s != [] {
      ReversedLoad(s[1..]);
      assert Reversed(s)[..|s| - 1] == Reversed(s[1..]);
    }
  }

  lemma {:induction false} ReversedStore(n: nat, k: nat)
    ensures Reversed(LittleEndian(n, k)) == BigEndian(n, k)
  {
    if k > 0 {
      ReversedStore(n / 256, k - 1);
      assert LittleEndian(n, k)[1..] == LittleEndian(n / 256, k - 1);
    }
  }

  lemma Swap32Twice(x: nat)
    requires x < UINT32_LIMIT
    ensures HostToNet32(true, x) < UINT32_LIMIT
    ensures HostToNet32(true, HostToNet32(true, x)) == x
  {
    PowersOf256();
    SwapFieldTwice(x, 4);
  }

  /** Reversing the k bytes of an integer twice gives it back; htons and htonl are the cases k = 2 and 4. */
  lemma SwapFieldTwice(x: nat, k: nat)
    requires x < Pow256(k)
    ensures FromLittleEndian(BigEndian(x, k)) < Pow256(k)
    ensures FromLittleEndian(BigEndian(FromLittleEndian(BigEndian(x, k)), k)) == x
  {
    var y := FromLittleEndian(BigEndian(x, k));
    FromLittleEndianBound(BigEndian(x, k));
    StoreAfterLoad(BigEndian(x, k));
    ReversedStore(y, k);
    ReversedLoad(BigEndian(x, k));
    // BigEndian(y) reverses LittleEndian(y), which is BigEndian(x)
    ReversedTwiceLoad(BigEndian(x, k));
    BigEndianRoundTrip(x, k);
  }

  lemma {:induction false} ReversedTwiceLoad(s: seq<byte>)
    ensures FromLittleEndian(Reversed(s)) == FromBigEndian(s)
  {
    if s != [] {
      var init, last := s[..|s| - 1], s[|s| - 1];
      ReversedSnoc(init, last);
      assert init + [last] == s;
      ReversedTwiceLoad(init);
    }
  }

  lemma {:induction false} ReversedSnoc(s: seq<byte>, b: byte)
    ensures Reversed(s + [b]) == [b] + Reversed(s)
  {
    if s != [] {
      ReversedSnoc(s[1..], b);
      assert (s + [b])[1..] == s[1..] + [b];
    }
  }
}
