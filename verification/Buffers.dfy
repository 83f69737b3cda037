/** The read cursor (`buffer_t`) over a block of bytes. */
module Buffers {
  import opened Bytes

  class Buffer {
    const data: bytes  // what `ptr` and `size` delimit
    var offset: nat

    ghost predicate Valid()
      reads this
    {
      offset <= |data|
    }

    constructor (data: bytes)
      ensures this.data == data && offset == 0 && Valid()
    {
      this.data := data;
      offset := 0;
    }

    predicate CanRead(n: nat)
      reads this
    {
      offset + n <= |data|
    }

    method SeekCur(n: nat) returns (ok: bool)
      requires Valid()
      modifies this
      ensures Valid()
      ensures ok == old(CanRead(n))
      ensures offset == if ok then old(offset) + n else old(offset)
    {
      ok := CanRead(n);
      if ok {
        offset := offset + n;
      }
    }

    /** Reads an unsigned number of `n` bytes; on a short buffer the value is zero and
        the cursor stays. */
    method ReadUnsigned(n: nat, e: Endian) returns (ok: bool, v: nat)
      requires Valid()
      modifies this
      ensures Valid()
      ensures ok == old(CanRead(n))
      ensures offset == if ok then old(offset) + n else old(offset)
      ensures v == if ok then Decode(data[old(offset)..old(offset) + n], e) else 0
      ensures v < Pow256(n)
    {
      ok, v := CanRead(n), 0;
      if ok {
        v := Decode(data[offset..offset + n], e);
        offset := offset + n;
      }
    }

    method ReadU8() returns (ok: bool, v: u8)
      requires Valid()
      modifies this
      ensures Valid()
      ensures ok == old(CanRead(1))
      ensures offset == if ok then old(offset) + 1 else old(offset)
      ensures v == if ok then data[old(offset)] else 0
    {
      ok, v := CanRead(1), 0;
      if ok {
        v := data[offset];
        offset := offset + 1;
      }
    }

    /** The signed reads: the unsigned value, reinterpreted. */
    method ReadSigned(n: nat, e: Endian) returns (ok: bool, v: int)
      requires Valid()
      modifies this
      ensures Valid()
      ensures ok == old(CanRead(n))
      ensures offset == if ok then old(offset) + n else old(offset)
      ensures v == if ok then Signed(Decode(data[old(offset)..old(offset) + n], e), n) else 0
    {
      ok, v := CanRead(n), 0;
      if ok {
        v := Signed(Decode(data[offset..offset + n], e), n);
        var _ := SeekCur(n);
      }
    }

    /** Reads a varint of any of its four forms, minimal or not. */
    method ReadUvarint() returns (ok: bool, v: nat)
      requires Valid()
      modifies this
      ensures Valid()
      ensures ok == (old(CanRead(1)) && old(CanRead(VarintLen(data[offset]))))
      ensures !ok ==> v == 0 && offset == old(offset)
      ensures ok ==> offset == old(offset) + VarintLen(data[old(offset)])
                     && IsVarint(data[old(offset)..offset]) && v == VarintValue(data[old(offset)..offset])
    {
      ok, v := false, 0;
      if CanRead(1) && CanRead(VarintLen(data[offset])) {
        var length := VarintLen(data[offset]);
        v := VarintValue(data[offset..offset + length]);
        ok := SeekCur(length);
      }
    }
  }
}
