/** The growable text buffer used to build requests and messages. */
module TextBuf {
  import opened Common

  const MAX_BUF_LEN := 131072
  const BUF_CHUNK_SIZE := 4096

  // The errno values, negated as the source returns them.
  const E2BIG := -7
  const ENOMEM := -12
  const EINVAL := -22

  /** The capacity, a multiple of the chunk size, that holds `n` octets. */
  function Chunks(n: nat): (c: nat)
    ensures n <= c < n + 4096 && c % 4096 == 0
  {
    (n + BUF_CHUNK_SIZE - 1) / BUF_CHUNK_SIZE * BUF_CHUNK_SIZE
  }

  class Buf {
    var data: array<byte>
    var pos: nat
    var bufLen: nat
    var error: int

    ghost predicate Valid()
      reads this, data
    {
      && data.Length == bufLen
      && pos <= bufLen <= MAX_BUF_LEN
      && bufLen % BUF_CHUNK_SIZE == 0
      && error <= 0
    }

    ghost function Text(): (s: seq<byte>)
      requires Valid()
      reads this, data
    {
      data[..pos]
    }

    constructor ()
      ensures Valid() && fresh(data)
      ensures pos == 0 && bufLen == 0 && error == 0
    {
      data := new byte[0];
      pos, bufLen, error := 0, 0, 0;
    }

    /**
     Make room for `len` more octets. Fails, leaving everything but the error as it was, exactly
     when the rounded-up capacity would pass the cap. An error recorded earlier is
     reported again when the buffer is enlarged.
     */
    method EnsureSpace(len: nat) returns (r: int)
      requires Valid()
      modifies this`data, this`bufLen, this`error
      ensures Valid() && Text() == old(Text())
      ensures data == old(data) || fresh(data)
      ensures old(bufLen) <= bufLen && data[..old(bufLen)] == old(data[..])
      ensures Chunks(pos + len) <= 131072 ==> pos + len <= bufLen && error == old(error)
      ensures Chunks(pos + len) <= old(bufLen) ==> data == old(data) && bufLen == old(bufLen) && r == 0
      ensures old(bufLen) < Chunks(pos + len) <= 131072 ==> bufLen == Chunks(pos + len) && r == error
      ensures Chunks(pos + len) > 131072 ==> error == r == -7 && data == old(data) && bufLen == old(bufLen)
    {
      var newBufLen := (pos + len + BUF_CHUNK_SIZE - 1) / BUF_CHUNK_SIZE * BUF_CHUNK_SIZE;
      assert newBufLen == Chunks(pos + len);
      if newBufLen <= bufLen {
        return 0;
      }
      if newBufLen > MAX_BUF_LEN {
        error := E2BIG;
        return error;
      }
      var old_ := data;
      var d := new byte[newBufLen];
      forall i | 0 <= i < old_.Length {
        d[i] := old_[i];
      }
      data := d;
      bufLen := newBufLen;
      return error;
    }

    /** `data[pos++] = c`, where room has been made for it. */
    method Put(c: byte)
      requires Valid() && pos < bufLen
      modifies this`pos, data
      ensures Valid() && pos == old(pos) + 1
      ensures Text() == old(Text()) + [c]
    {
      data[pos] := c;
      pos := pos + 1;
      assert data[..pos - 1] == old(data[..pos]);
      assert data[..pos] == data[..pos - 1] + [c];
    }

    /** Append octets and a terminating NUL; after an error nothing happens any more. */
    method AppendBytes(bytes: seq<byte>)
      requires Valid()
      modifies this, data
      ensures Valid()
      ensures data == old(data) || fresh(data)
      ensures error == if old(error) != 0 then old(error) else if Chunks(old(pos) + |bytes| + 1) > 131072 then -7 else 0
      ensures Text() == if error != 0 then old(Text()) else old(Text()) + bytes
      ensures error == 0 ==> pos < bufLen && data[pos] == 0
    {
      if error != 0 {
        return;
      }
      var r := EnsureSpace(|bytes| + 1);
      if r != 0 {
        return;
      }
      ghost var before := Text();
      forall i | 0 <= i < |bytes| {
        data[pos + i] := bytes[i];
      }
      assert data[..pos] == before;
      assert data[pos..pos + |bytes|] == bytes;
      pos := pos + |bytes|;
      data[pos] := 0;
      assert data[..pos] == before + bytes;
    }
  }

  /** A capacity is a multiple of the chunk size, so rounding up what it holds does not pass it. */
  lemma ChunkFits(n: nat, len: nat)
    requires len % BUF_CHUNK_SIZE == 0
    ensures n <= len ==> Chunks(n) <= len
  {}

  lemma CapIsMultiple(n: nat)
    ensures Chunks(n) <= MAX_BUF_LEN <==> n <= 131072
  {
    ChunkFits(n, MAX_BUF_LEN);
  }

  lemma Four(text: seq<byte>, p: byte, q: byte, r: byte, s: byte)
    ensures text + [p] + [q] + [r] + [s] == text + [p, q, r, s]
  {}
}
