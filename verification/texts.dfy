/** Fixed text fields: C strings in zeroed buffers (the copy_cstr helpers and their readers). */
module Texts {
  import opened Bytes

  function CharByte(c: char): byte {
    ToByte(c as int % 256)
  }

  function ByteChar(b: byte): char {
    FromByte(b) as char
  }

  /** snprintf("%s") into a zeroed buffer of n bytes: cut to n - 1 and terminated. */
  function Field(s: string, n: nat): (f: seq<byte>)
    ensures |f| == n
  {
    seq(n, i requires 0 <= i < n => if i < |s| && i + 1 < n then CharByte(s[i]) else 0)
  }

  /** The C string in a buffer: up to its first zero. */
  function Text(f: seq<byte>): (s: string)
    ensures |s| <= |f|
  {
    if f == [] || f[0] == 0 then "" else [ByteChar(f[0])] + Text(f[1..])
  }

  /** A string that fits a buffer of n bytes with its terminator. */
  ghost predicate Fits(s: string, n: nat) {
    |s| < n && forall i :: 0 <= i < |s| ==> 0 < s[i] as int < 256
  }

  lemma {:induction false} TextOf(f: seq<byte>, s: string)
    requires |s| <= |f| && (|s| < |f| ==> f[|s|] == 0)
    requires forall i :: 0 <= i < |s| ==> 0 < s[i] as int < 256 && f[i] == CharByte(s[i])
    ensures Text(f) == s
  {
    if s != "" {
      TextOf(f[1..], s[1..]);
      assert ByteChar(f[0]) == s[0];
    }
  }

  /** A string that fits is read back whole, also by a reader that ends the buffer with a zero of its own. */
  lemma FieldText(s: string, n: nat)
    requires Fits(s, n)
    ensures Text(Field(s, n)) == s && Text(Field(s, n)[..n - 1]) == s
  {
    TextOf(Field(s, n), s);
    TextOf(Field(s, n)[..n - 1], s);
  }
}
