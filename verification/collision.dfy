/** Why checking each peer's file is not enough: two contents with the same hash and size (transfer/sender.c,
    common/hash.c), and how far the hash does tell contents apart. */
module Collision {
  import opened Bytes
  import opened Fnv

  /** Two contents of the same hash, which a search over 64-bit FNV-1a states finds. */
  predicate Colliding(one: seq<byte>, other: seq<byte>) {
    one == [41, 255, 213, 84, 92, 71, 7] && other == [220, 243, 83, 157, 200, 77, 253]
  }

  lemma {:induction false} XorZero(a: nat)
    ensures Xor(a, 0) == a
  {
    if a != 0 {
      XorZero(a / 2);
    }
  }

  function Differ(p: nat, q: nat): nat {
    if p == q then 0 else 1
  }

  function Then(a: nat, bit: nat): nat {
    2 * a + bit
  }

  lemma XorBit(a: nat, b: nat, p: nat, q: nat)
    requires p < 2 && q < 2
    ensures Xor(Then(a, p), Then(b, q)) == Then(Xor(a, b), Differ(p, q))
  {
    XorDigits(2 * a + p, 2 * b + q);
  }

  function FromBits(b7: nat, b6: nat, b5: nat, b4: nat, b3: nat, b2: nat, b1: nat, b0: nat): (v: nat)
    ensures v == 128 * b7 + 64 * b6 + 32 * b5 + 16 * b4 + 8 * b3 + 4 * b2 + 2 * b1 + b0
  {
    Then(Then(Then(Then(Then(Then(Then(Then(0, b7), b6), b5), b4), b3), b2), b1), b0)
  }

  /** The bits of a number above the byte it is combined with are kept. */
  lemma {:induction false} XorLow(high: nat, low: nat, b: nat, width: nat)
    requires low < Pow2(width) && b < Pow2(width)
    ensures Xor(high * Pow2(width) + low, b) == high * Pow2(width) + Xor(low, b)
  {
    if width == 0 {
      XorZero(high);
    } else {
      var q := Pow2(width - 1);
      XorLow(high, low / 2, b / 2, width - 1);
      hide Xor;
      Doubled(high, q);
      XorBit(high * q + low / 2, b / 2, low % 2, b % 2);
      XorBit(low / 2, b / 2, low % 2, b % 2);
    }
  }

  lemma Doubled(a: nat, b: nat)
    ensures 2 * (a * b) == a * (2 * b) && a * b >= 0
  {
  }

  /** One round on given numbers, checked by its quotient and remainder. */
  lemma Round(h: nat, b: byte, high: nat, low: nat, x: nat, wraps: nat, next: nat)
    requires h == high * 256 + low && low < 256 && Xor(low, b as nat) == x
    requires (high * 256 + x) * PRIME == wraps * UINT64_LIMIT + next && next < UINT64_LIMIT
    ensures Step(h, b) == next
  {
    XorWithByte(high, low, b as nat);
    hide Xor;
    QuotientAndRest((high * 256 + x) * PRIME, wraps, next);
  }

  /** The state after one more byte. */
  lemma Follow(s: seq<byte>, b: byte, all: seq<byte>, high: nat, low: nat, x: nat, wraps: nat, next: nat)
    requires all == s + [b] && Fold(OFFSET_BASIS, s) == high * 256 + low && low < 256 && Xor(low, b as nat) == x
    requires (high * 256 + x) * PRIME == wraps * UINT64_LIMIT + next && next < UINT64_LIMIT
    ensures Fold(OFFSET_BASIS, all) == next
  {
    assert all[..|s|] == s;
    hide Xor;
    Round(high * 256 + low, b, high, low, x, wraps, next);
  }

  lemma NothingFolded()
    ensures Fold(OFFSET_BASIS, []) == OFFSET_BASIS
  {
  }

  lemma XorWithByte(high: nat, low: nat, b: nat)
    requires low < 256 && b < 256
    ensures Xor(high * 256 + low, b) == high * 256 + Xor(low, b)
  {
    assert Pow2(8) == 256;
    hide Xor, Pow2;
    XorLow(high, low, b, 8);
  }

  lemma QuotientAndRest(n: nat, q: nat, r: nat)
    requires n == q * UINT64_LIMIT + r && r < UINT64_LIMIT
    ensures n % UINT64_LIMIT == r
  {
  }

  lemma XorOfBits(a7: nat, a6: nat, a5: nat, a4: nat, a3: nat, a2: nat, a1: nat, a0: nat, b7: nat, b6: nat, b5: nat, b4: nat, b3: nat, b2: nat, b1: nat, b0: nat)
    requires a7 < 2 && a6 < 2 && a5 < 2 && a4 < 2 && a3 < 2 && a2 < 2 && a1 < 2 && a0 < 2
    requires b7 < 2 && b6 < 2 && b5 < 2 && b4 < 2 && b3 < 2 && b2 < 2 && b1 < 2 && b0 < 2
    ensures Xor(FromBits(a7, a6, a5, a4, a3, a2, a1, a0), FromBits(b7, b6, b5, b4, b3, b2, b1, b0))
         == FromBits(Differ(a7, b7), Differ(a6, b6), Differ(a5, b5), Differ(a4, b4), Differ(a3, b3), Differ(a2, b2), Differ(a1, b1), Differ(a0, b0))
  {
    XorZero(0);
    hide Xor, Differ, Then;
    XorBit(0, 0, a7, b7);
    var p6, q6 := Then(0, a7), Then(0, b7);
    XorBit(p6, q6, a6, b6);
    var p5, q5 := Then(p6, a6), Then(q6, b6);
    XorBit(p5, q5, a5, b5);
    var p4, q4 := Then(p5, a5), Then(q5, b5);
    XorBit(p4, q4, a4, b4);
    var p3, q3 := Then(p4, a4), Then(q4, b4);
    XorBit(p3, q3, a3, b3);
    var p2, q2 := Then(p3, a3), Then(q3, b3);
    XorBit(p2, q2, a2, b2);
    var p1, q1 := Then(p2, a2), Then(q2, b2);
    XorBit(p1, q1, a1, b1);
    var p0, q0 := Then(p1, a1), Then(q1, b1);
    XorBit(p0, q0, a0, b0);
  }

  lemma OneStarts()
    ensures Fold(OFFSET_BASIS, [41, 255, 213]) == 106762681901820892
  {
    hide Xor, Fold, FromBits;
    NothingFolded();
    XorOfBits(0, 0, 1, 0, 0, 1, 0, 1, 0, 0, 1, 0, 1, 0, 0, 1);
    Follow([], 41, [41], 57406175934947875, 37, 12, 875948729822, 12638125627904462180);
    XorOfBits(0, 1, 1, 0, 0, 1, 0, 0, 1, 1, 1, 1, 1, 1, 1, 1);
    Follow([41], 255, [41, 255], 49367678234001805, 100, 155, 753290988976, 566830163051126369);
    XorOfBits(0, 1, 1, 0, 0, 0, 0, 1, 1, 1, 0, 1, 0, 1, 0, 1);
    Follow([41, 255], 213, [41, 255, 213], 2214180324418462, 97, 180, 33785710530, 106762681901820892);
  }

  lemma OneGoes()
    ensures Fold(OFFSET_BASIS, [41, 255, 213, 84, 92, 71]) == 1010833627813837297
  {
    hide Xor, Fold, FromBits;
    OneStarts();
    XorOfBits(1, 1, 0, 1, 1, 1, 0, 0, 0, 1, 0, 1, 0, 1, 0, 0);
    Follow([41, 255, 213], 84, [41, 255, 213, 84], 417041726178987, 220, 136, 6363551732, 10028905798699415576);
    XorOfBits(0, 0, 0, 1, 1, 0, 0, 0, 0, 1, 0, 1, 1, 1, 0, 0);
    Follow([41, 255, 213, 84], 92, [41, 255, 213, 84, 92], 39175413276169592, 24, 68, 597769367853, 15301168296011455372);
    XorOfBits(1, 0, 0, 0, 1, 1, 0, 0, 0, 1, 0, 0, 0, 1, 1, 1);
    Follow([41, 255, 213, 84, 92], 71, [41, 255, 213, 84, 92, 71], 59770188656294747, 140, 203, 912020701293, 1010833627813837297);
  }

  lemma OneEnds()
    ensures Fold(OFFSET_BASIS, [41, 255, 213, 84, 92, 71, 7]) == 12913798767395519746
  {
    hide Xor, Fold, FromBits;
    OneGoes();
    XorOfBits(1, 1, 1, 1, 0, 0, 0, 1, 0, 0, 0, 0, 0, 1, 1, 1);
    Follow([41, 255, 213, 84, 92, 71], 7, [41, 255, 213, 84, 92, 71, 7], 3948568858647801, 241, 246, 60250379336, 12913798767395519746);
  }

  lemma OtherStarts()
    ensures Fold(OFFSET_BASIS, [220, 243, 83]) == 603428596379177937
  {
    hide Xor, Fold, FromBits;
    NothingFolded();
    XorOfBits(0, 0, 1, 0, 0, 1, 0, 1, 1, 1, 0, 1, 1, 1, 0, 0);
    Follow([], 220, [220], 57406175934947875, 37, 249, 875948729822, 12638386212160348187);
    XorOfBits(0, 0, 0, 1, 1, 0, 1, 1, 1, 1, 1, 1, 0, 0, 1, 1);
    Follow([220], 243, [220, 243], 49368696141251360, 27, 232, 753306521008, 793703392371337784);
    XorOfBits(0, 0, 1, 1, 1, 0, 0, 0, 0, 1, 0, 1, 0, 0, 1, 1);
    Follow([220, 243], 83, [220, 243, 83], 3100403876450538, 56, 107, 47308408778, 603428596379177937);
  }

  lemma OtherGoes()
    ensures Fold(OFFSET_BASIS, [220, 243, 83, 157, 200, 77]) == 1010833627813837067
  {
    hide Xor, Fold, FromBits;
    OtherStarts();
    XorOfBits(1, 1, 0, 1, 0, 0, 0, 1, 1, 0, 0, 1, 1, 1, 0, 1);
    Follow([220, 243, 83], 157, [220, 243, 83, 157], 2357142954606163, 209, 76, 35967147148, 13339725227738237476);
    XorOfBits(0, 0, 1, 0, 0, 1, 0, 0, 1, 1, 0, 0, 1, 0, 0, 0);
    Follow([220, 243, 83, 157], 200, [220, 243, 83, 157, 200], 52108301670852490, 36, 236, 795109583915, 4128812083488820996);
    XorOfBits(0, 0, 0, 0, 0, 1, 0, 0, 0, 1, 0, 0, 1, 1, 0, 1);
    Follow([220, 243, 83, 157, 200], 77, [220, 243, 83, 157, 200, 77], 16128172201128207, 4, 73, 246096377678, 1010833627813837067);
  }

  lemma OtherEnds()
    ensures Fold(OFFSET_BASIS, [220, 243, 83, 157, 200, 77, 253]) == 12913798767395519746
  {
    hide Xor, Fold, FromBits;
    OtherGoes();
    XorOfBits(0, 0, 0, 0, 1, 0, 1, 1, 1, 1, 1, 1, 1, 1, 0, 1);
    Follow([220, 243, 83, 157, 200, 77], 253, [220, 243, 83, 157, 200, 77, 253], 3948568858647801, 11, 246, 60250379336, 12913798767395519746);
  }

  /** They do collide, and the start of the one followed by the rest of the other has another hash. */
  lemma MixtureHash(one: seq<byte>, other: seq<byte>)
    requires Colliding(one, other)
    ensures |one| == |other| == 7 && Hash(one) == Hash(other) && Hash(one[..3] + other[3..]) != Hash(one)
  {
    OneEnds();
    OtherEnds();
    OneStarts();
    OtherStarts();
    hide Fold;
    var rest := other[3..];
    assert one[..3] == [41, 255, 213] && other[..3] == [220, 243, 83];
    assert other[..3] + rest == other;
    FoldAppend(OFFSET_BASIS, one[..3], rest);
    FoldAppend(OFFSET_BASIS, other[..3], rest);
    SuffixNeverMerges(Fold(OFFSET_BASIS, one[..3]), Fold(OFFSET_BASIS, other[..3]), rest);
  }
}
