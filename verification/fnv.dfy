/** The file identity of common/hash.c: 64-bit FNV-1a
    (Internet-Draft draft-eastlake-fnv, section 2). */
module Fnv {
  import opened Bytes
  import opened Files

  const BUFFER_SIZE: nat := 8192

  const OFFSET_BASIS: nat := 14695981039346656037
  const PRIME: nat := 1099511628211

  /** Exclusive or, bit by bit. */
  function Xor(a: nat, b: nat): nat {
    if a == 0 && b == 0 then 0 else (if a % 2 == b % 2 then 0 else 1) + 2 * Xor(a / 2, b / 2)
  }

  /** One round: fold in a byte, multiply by the FNV prime, keep 64 bits. */
  function Step(h: nat, b: byte): nat {
    Xor(h, b as nat) * PRIME % UINT64_LIMIT
  }

  /** The running state after the bytes of s, started in h. */
  function Fold(h: nat, s: seq<byte>): (f: nat)
    ensures h < UINT64_LIMIT ==> f < UINT64_LIMIT
  {
    if s == [] then h else Step(Fold(h, s[..|s| - 1]), s[|s| - 1])
  }

  function Hash(s: seq<byte>): (f: nat)
    ensures f < UINT64_LIMIT
  {
    Fold(OFFSET_BASIS, s)
  }

  method HashBytes(data: array<byte>) returns (hash: nat)
    ensures hash == Hash(data[..])
  {
    hash := OFFSET_BASIS;
    var i := 0;
    while i < data.Length
      invariant 0 <= i <= data.Length
      invariant hash == Hash(data[..i])
    {
      hash := Step(hash, data[i]);
      i := i + 1;
      assert data[..i][..i - 1] == data[..i - 1];
    }
    assert data[..i] == data[..];
  }

  /** Reads the file through an 8192-byte buffer.  Succeeds exactly when no call fails and the length fits
      64 bits, and then returns the hash of the whole content and its exact length. */
  method HashFileWithSize(file: FileStream, closes: bool) returns (ok: bool, hash: nat, size: uint64)
    requires file.Valid() && file.pos == 0
    modifies file
    ensures ok <==> file.failsAt.None? && |file.content| < UINT64_LIMIT && closes
    ensures ok ==> hash == Hash(file.content) && size as nat == |file.content|
  {
    var buffer := new byte[BUFFER_SIZE];
    ok, hash, size := false, OFFSET_BASIS, 0;
    var total: uint64 := 0;
    while true
      invariant file.pos <= file.Limit() && fresh(buffer) && buffer.Length == BUFFER_SIZE
      invariant total as nat == file.pos && hash == Hash(file.content[..file.pos])
      decreases |file.content| - file.pos
    {
      ghost var before := file.pos;
      var nread := file.Read(buffer, BUFFER_SIZE);
      var i := 0;
      while i < nread
        invariant 0 <= i <= nread
        invariant hash == Hash(file.content[..before + i])
      {
        assert buffer[i] == buffer[..nread][i] == file.content[before + i];
        hash := Step(hash, buffer[i]);
        i := i + 1;
        assert file.content[..before + i][..before + i - 1] == file.content[..before + i - 1];
      }
      if (UINT64_LIMIT - 1) - total as nat < nread {
        return false, hash, size;
      }
      total := total + nread as uint64;
      if nread < BUFFER_SIZE {
        if file.failsAt.Some? {
          return false, hash, size;
        }
        break;
      }
    }
    assert file.content[..file.pos] == file.content;
    if !closes {
      return false, hash, size;
    }
    ok, size := true, total;
  }

  lemma {:induction false} FoldAppend(h: nat, s: seq<byte>, t: seq<byte>)
    ensures Fold(h, s + t) == Fold(Fold(h, s), t)
  {
    if t == [] {
      assert s + t == s;
    } else {
      var init, last := t[..|t| - 1], t[|t| - 1];
      FoldAppend(h, s, init);
      assert (s + t)[..|s + t| - 1] == s + init;
    }
  }

  lemma {:induction false} XorDigits(a: nat, b: nat)
    ensures Xor(a, b) % 2 == (if a % 2 == b % 2 then 0 else 1)
    ensures Xor(a, b) / 2 == Xor(a / 2, b / 2)
  {
  }

  lemma {:induction false} XorTwice(a: nat, b: nat)
    ensures Xor(Xor(a, b), b) == a
  {
    if a != 0 || b != 0 {
      XorDigits(a, b);
      XorDigits(Xor(a, b), b);
      XorTwice(a / 2, b / 2);
    }
  }

  lemma {:induction false} XorCommutes(a: nat, b: nat)
    ensures Xor(a, b) == Xor(b, a)
  {
    if a != 0 || b != 0 {
      XorCommutes(a / 2, b / 2);
    }
  }

  lemma {:induction false} XorKeepsWidth(a: nat, b: nat, width: nat)
    requires a < Pow2(width) && b < Pow2(width)
    ensures Xor(a, b) < Pow2(width)
  {
    if width > 0 && (a != 0 || b != 0) {
      XorKeepsWidth(a / 2, b / 2, width - 1);
    }
  }

  function Pow2(k: nat): (p: nat)
    ensures p > 0
  {
    if k == 0 then 1 else 2 * Pow2(k - 1)
  }

  lemma Pow2Of64()
    ensures Pow2(64) == UINT64_LIMIT
  {
    assert Pow2(8) == 256;
    hide Pow2;
    Pow2Sum(8, 8);
    Pow2Sum(16, 16);
    Pow2Sum(32, 32);
  }

  lemma {:induction false} Pow2Sum(j: nat, k: nat)
    ensures Pow2(j + k) == Pow2(j) * Pow2(k)
  {
    if j > 0 {
      Pow2Sum(j - 1, k);
    }
  }

  /** The prime has an inverse modulo 2^64, so the multiplication of a round loses nothing. */
  lemma ProductCanBeUndone(x: nat)
    requires x < UINT64_LIMIT
    ensures (x * PRIME % UINT64_LIMIT) * 0xce965057aff6957b % UINT64_LIMIT == x
  {
    var inverse: nat, carry: nat := 0xce965057aff6957b, 887285111055;
    var quotient := x * PRIME / UINT64_LIMIT;
    assert PRIME * inverse == 1 + carry * UINT64_LIMIT;
    assert (x * PRIME % UINT64_LIMIT) * inverse == x + (x * carry - quotient * inverse) * UINT64_LIMIT;
  }

  /** A round is injective in the state and in the byte. */
  lemma StepSeparates(h: nat, b: byte, k: nat, c: byte)
    requires h < UINT64_LIMIT && k < UINT64_LIMIT
    requires Step(h, b) == Step(k, c)
    ensures h == k <==> b == c
  {
    Pow2Of64();
    XorKeepsWidth(h, b as nat, 64);
    XorKeepsWidth(k, c as nat, 64);
    ProductCanBeUndone(Xor(h, b as nat));
    ProductCanBeUndone(Xor(k, c as nat));
    XorTwice(h, b as nat);
    XorTwice(k, c as nat);
    XorCommutes(h, b as nat);
    XorCommutes(k, c as nat);
    XorTwice(b as nat, h);
    XorTwice(c as nat, k);
  }

  /** A common suffix never merges two different running states. */
  lemma {:induction false} SuffixNeverMerges(h: nat, k: nat, s: seq<byte>)
    requires h < UINT64_LIMIT && k < UINT64_LIMIT
    ensures Fold(h, s) == Fold(k, s) <==> h == k
  {
    if s != [] {
      var init, last := s[..|s| - 1], s[|s| - 1];
      SuffixNeverMerges(h, k, init);
      if Fold(h, s) == Fold(k, s) {
        StepSeparates(Fold(h, init), last, Fold(k, init), last);
      }
    }
  }

  /** Two contents that differ in one byte, all else equal, always have different hashes. */
  lemma OneByteChangesHash(prefix: seq<byte>, b: byte, c: byte, suffix: seq<byte>)
    ensures Hash(prefix + [b] + suffix) == Hash(prefix + [c] + suffix) <==> b == c
  {
    var h := Hash(prefix);
    FoldAppend(OFFSET_BASIS, prefix + [b], suffix);
    FoldAppend(OFFSET_BASIS, prefix + [c], suffix);
    FoldAppend(OFFSET_BASIS, prefix, [b]);
    FoldAppend(OFFSET_BASIS, prefix, [c]);
    SuffixNeverMerges(Fold(h, [b]), Fold(h, [c]), suffix);
    assert Fold(h, [b]) == Step(h, b) && Fold(h, [c]) == Step(h, c);
    if Step(h, b) == Step(h, c) {
      StepSeparates(h, b, h, c);
    }
  }
}
