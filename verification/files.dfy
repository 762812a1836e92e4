/** A file opened for reading through stdio: its content, the offset where the device fails if it does,
    and the stream position. */
module Files {
  import opened Bytes
  import opened Wrappers

  class FileStream {
    const content: seq<byte>
    const failsAt: Option<nat>
    var pos: nat

    constructor (content: seq<byte>, failsAt: Option<nat>)
      requires failsAt.Some? ==> failsAt.value <= |content|
      ensures this.content == content && this.failsAt == failsAt && this.pos == 0
    {
      this.content := content;
      this.failsAt := failsAt;
      this.pos := 0;
    }

    /** The end of what can be read: the failure point or the end of the file. */
    function Limit(): nat {
      if failsAt.Some? then failsAt.value else |content|
    }

    /** How many bytes reads can still return. */
    function Available(): nat
      reads this
    {
      if pos < Limit() then Limit() - pos else 0
    }

    ghost predicate Valid()
    {
      Limit() <= |content|
    }

    /** fseeko from the start of the file. */
    method Seek(offset: nat)
      modifies this
      ensures pos == offset
    {
      pos := offset;
    }

    /** fread: everything asked for, or everything up to the end or the failure. */
    method Read(buffer: array<byte>, want: nat) returns (nread: nat)
      requires Valid() && want <= buffer.Length
      modifies this, buffer
      ensures pos == old(pos) + nread
      ensures nread == if want < old(Available()) then want else old(Available())
      ensures nread > 0 ==> pos <= |content|
      ensures nread > 0 ==> buffer[..nread] == content[old(pos)..pos]
    {
      nread := if want < Available() then want else Available();
      forall k | 0 <= k < nread {
        buffer[k] := content[pos + k];
      }
      pos := pos + nread;
    }

    /** fread with no promise beyond progress: some bytes, or none at the end or the failure. */
    method ReadSome(buffer: array<byte>, want: nat) returns (nread: nat)
      requires Valid() && 0 < want <= buffer.Length
      modifies this, buffer
      ensures pos == old(pos) + nread && nread <= want
      ensures nread == 0 <==> old(Available()) == 0
      ensures nread > 0 ==> pos <= Limit() <= |content|
      ensures nread > 0 ==> buffer[..nread] == content[old(pos)..pos]
    {
      if Available() == 0 {
        return 0;
      }
      var n: nat :| 1 <= n <= want && n <= Available();
      nread := n;
      forall k | 0 <= k < nread {
        buffer[k] := content[pos + k];
      }
      pos := pos + nread;
    }
  }
}
