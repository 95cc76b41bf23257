/**
The two-cursor growable buffer of server/src/buffer.  `data` is the vector, `readPos` and `writePos`
its cursors; the readable bytes between them are the abstract value.
*/
module Buffers {

  type byte = b: int | 0 <= b < 256

  const INIT_BUFFER_SIZE: nat := 1024

  /** The stack buffer that readv spills into. */
  const SPILL_SIZE: nat := 65535

  function Min(a: int, b: int): int { if a <= b then a else b }

  class Buffer {
    var data: seq<byte>
    var readPos: nat
    var writePos: nat

    ghost predicate Valid()
      reads this
    {
      readPos <= writePos <= |data|
    }

    /** The readable bytes. */
    ghost function Contents(): seq<byte>
      requires Valid()
      reads this
    {
      data[readPos..writePos]
    }

    constructor (size: nat := INIT_BUFFER_SIZE)
      ensures Valid() && Contents() == [] && |data| == size
    {
      data := seq(size, _ => 0);
      readPos, writePos := 0, 0;
    }

    function ReadableBytes(): (n: nat)
      requires Valid()
      reads this
      ensures n == |Contents()|
    {
      writePos - readPos
    }

    function WritableBytes(): nat
      requires Valid()
      reads this
    {
      |data| - writePos
    }

    /** Compacts when the free space on both sides is enough, else grows; either keeps the contents. */
    method MakeSpace(len: nat)
      requires Valid()
      modifies this
      ensures Valid() && Contents() == old(Contents()) && WritableBytes() >= len
      ensures if old(WritableBytes()) + old(readPos) < len
              then |data| == old(writePos) + len + 1 else |data| == old(|data|) && readPos == 0
    {
      if WritableBytes() + readPos < len {
        data := data + seq(writePos + len + 1 - |data|, _ => 0);
      } else {
        var readable := ReadableBytes();
        data := data[readPos..writePos] + data[readable..];
        readPos, writePos := 0, readable;
      }
    }

    method EnsureWritable(len: nat)
      requires Valid()
      modifies this
      ensures Valid() && Contents() == old(Contents()) && WritableBytes() >= len
    {
      if WritableBytes() < len {
        MakeSpace(len);
      }
    }

    method Append(bytes: seq<byte>)
      requires Valid()
      modifies this
      ensures Valid() && Contents() == old(Contents()) + bytes
    {
      EnsureWritable(|bytes|);
      data := data[..writePos] + bytes + data[writePos + |bytes|..];
      writePos := writePos + |bytes|;
    }

    method Retrieve(len: nat)
      requires Valid() && len <= |Contents()|
      modifies this
      ensures Valid() && Contents() == old(Contents())[len..]
    {
      readPos := readPos + len;
    }

    method RetrieveAll()
      requires Valid()
      modifies this
      ensures Valid() && Contents() == []
    {
      readPos, writePos := 0, 0;
    }

    /**
    One readv into the free space and the spill buffer.  `pending` is what the socket holds and
    `kernel` what the call would return if there were room and bytes enough; negative is an error.
    */
    method ReadFd(pending: seq<byte>, kernel: int) returns (len: int)
      requires Valid()
      modifies this
      ensures Valid()
      ensures kernel < 0 ==> len == kernel && Contents() == old(Contents())
      ensures kernel >= 0 ==> 0 <= len <= |pending| && Contents() == old(Contents()) + pending[..len]
      ensures kernel >= 0 ==> len == Min(kernel, Min(|pending|, old(WritableBytes()) + SPILL_SIZE))
    {
      if kernel < 0 {
        return kernel;
      }
      var writable := WritableBytes();
      len := Min(kernel, Min(|pending|, writable + SPILL_SIZE));
      if len <= writable {
        data := data[..writePos] + pending[..len] + data[writePos + len..];
        writePos := writePos + len;
      } else {
        data := data[..writePos] + pending[..writable];
        writePos := |data|;
        assert Contents() == old(Contents()) + pending[..writable];
        Append(pending[writable..len]);
        assert pending[..len] == pending[..writable] + pending[writable..len];
      }
    }

    /** One write of the readable bytes; the kernel takes a prefix, or fails. */
    method WriteFd(kernel: int) returns (len: int)
      requires Valid()
      modifies this
      ensures Valid()
      ensures kernel < 0 ==> len == kernel && Contents() == old(Contents())
      ensures kernel >= 0 ==> len == Min(kernel, |old(Contents())|) && Contents() == old(Contents())[len..]
    {
      if kernel < 0 {
        return kernel;
      }
      len := Min(kernel, ReadableBytes());
      readPos := readPos + len;
    }
  }
}
