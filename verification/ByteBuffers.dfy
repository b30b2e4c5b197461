/** The input and output buffer of a connection: an unbounded byte queue kept in one array, with some
    room in front of the first readable byte. */
module ByteBuffers {

  type byte = b: int | 0 <= b < 256

  const CHEAP_PREPEND: nat := 8
  const INITIAL_SIZE: nat := 1024
  const EXTRA_SIZE: nat := 65536

  class ByteBuffer {
    var readindex: nat
    var writeindex: nat
    var buffer: array<byte>
    var size: nat

    ghost predicate Valid()
      reads this
    {
      CHEAP_PREPEND <= readindex <= writeindex <= size == buffer.Length
    }

    /** The readable bytes. */
    ghost function Contents(): seq<byte>
      requires Valid()
      reads this, buffer
    {
      buffer[readindex..writeindex]
    }

    constructor (initialSize: nat)
      ensures Valid() && fresh(buffer) && Contents() == [] && readindex == CHEAP_PREPEND
      ensures size == CHEAP_PREPEND + INITIAL_SIZE && WritableBytes() == INITIAL_SIZE
    {
      readindex := CHEAP_PREPEND;
      writeindex := CHEAP_PREPEND;
      size := CHEAP_PREPEND + INITIAL_SIZE;
      buffer := new byte[CHEAP_PREPEND + INITIAL_SIZE](_ => 0);
    }

    function WritableBytes(): nat
      requires Valid()
      reads this
    {
      size - writeindex
    }

    function ReadableBytes(): (n: nat)
      requires Valid()
      reads this, buffer
      ensures n == |Contents()|
    {
      writeindex - readindex
    }

    function PrependableBytes(): nat
      reads this
    {
      readindex
    }

    /** Makes room for `len` bytes: in a larger array, or by moving the readable bytes to the front if the
        room before and after them is enough. */
    method ExtendSpace(len: nat)
      requires Valid()
      modifies this, buffer
      ensures Valid() && (buffer == old(buffer) || fresh(buffer))
      ensures Contents() == old(Contents()) && WritableBytes() >= len && readindex == CHEAP_PREPEND
    {
      var readable := ReadableBytes();
      ghost var held := Contents();
      if WritableBytes() + PrependableBytes() < len + CHEAP_PREPEND {
        var newbuffer := new byte[size + len](_ => 0);
        size := size + len;
        forall i | 0 <= i < readable { newbuffer[CHEAP_PREPEND + i] := buffer[readindex + i]; }
        assert forall i | 0 <= i < readable :: newbuffer[CHEAP_PREPEND + i] == held[i];
        assert newbuffer[CHEAP_PREPEND..CHEAP_PREPEND + readable] == held;
        readindex := CHEAP_PREPEND;
        writeindex := CHEAP_PREPEND + readable;
        buffer := newbuffer;
      } else {
        forall i | 0 <= i < readable { buffer[CHEAP_PREPEND + i] := buffer[readindex + i]; }
        readindex := CHEAP_PREPEND;
        writeindex := readindex + readable;
        assert forall i | 0 <= i < readable :: buffer[CHEAP_PREPEND + i] == held[i];
        assert buffer[CHEAP_PREPEND..CHEAP_PREPEND + readable] == held;
      }
    }

    method Append(data: seq<byte>)
      requires Valid()
      modifies this, buffer
      ensures Valid() && (buffer == old(buffer) || fresh(buffer))
      ensures Contents() == old(Contents()) + data && (readindex == old(readindex) || readindex == CHEAP_PREPEND)
    {
      if WritableBytes() < |data| {
        ExtendSpace(|data|);
      }
      CopyIn(data);
      writeindex := writeindex + |data|;
    }

    /** Copies bytes behind the readable ones. */
    method CopyIn(data: seq<byte>)
      requires Valid() && |data| <= WritableBytes()
      modifies buffer
      ensures Valid() && buffer[readindex..writeindex + |data|] == old(Contents()) + data
    {
      ghost var held := Contents();
      forall i | 0 <= i < |data| { buffer[writeindex + i] := data[i]; }
      assert buffer[readindex..writeindex] == held;
      assert buffer[writeindex..writeindex + |data|] == data;
    }

    /** Takes bytes from the front; with nothing left the indices return to the start. */
    method ReadBytes(len: nat)
      requires Valid()
      modifies this
      ensures Valid() && buffer == old(buffer)
      ensures Contents() == if len < |old(Contents())| then old(Contents())[len..] else []
      ensures readindex == CHEAP_PREPEND || readindex == old(readindex) + len
    {
      if len < ReadableBytes() {
        readindex := readindex + len;
      } else {
        readindex := CHEAP_PREPEND;
        writeindex := CHEAP_PREPEND;
      }
    }

    method ReadAll()
      requires Valid()
      modifies this
      ensures Valid() && buffer == old(buffer) && Contents() == [] && readindex == CHEAP_PREPEND
    {
      readindex := CHEAP_PREPEND;
      writeindex := CHEAP_PREPEND;
    }

    /** Takes exactly `len` bytes or nothing. */
    method ReadSome(len: nat) returns (n: nat, data: seq<byte>)
      requires Valid()
      modifies this
      ensures Valid() && buffer == old(buffer)
      ensures if 0 < len <= |old(Contents())| then
                n == len && data == old(Contents())[..len] && Contents() == old(Contents())[len..]
              else n == 0 && data == [] && Contents() == old(Contents())
    {
      if len <= 0 || ReadableBytes() < len { return 0, []; }
      data := buffer[readindex..readindex + len];
      ReadBytes(len);
      n := len;
    }

    /** Moves exactly `len` bytes to another buffer, or nothing. */
    method ReadToBuffer(buf: ByteBuffer, len: nat) returns (n: nat)
      requires Valid() && buf.Valid() && buf != this && buf.buffer != buffer
      modifies this, buf, buf.buffer
      ensures Valid() && buf.Valid() && buffer == old(buffer) && (buf.buffer == old(buf.buffer) || fresh(buf.buffer))
      ensures if 0 < len <= |old(Contents())| then
                n == len && buf.Contents() == old(buf.Contents()) + old(Contents())[..len] && Contents() == old(Contents())[len..]
              else n == 0 && buf.Contents() == old(buf.Contents()) && Contents() == old(Contents())
      ensures buf.readindex == old(buf.readindex) || buf.readindex == CHEAP_PREPEND
    {
      if len <= 0 || ReadableBytes() < len { return 0; }
      buf.Append(buffer[readindex..readindex + len]);
      ReadBytes(len);
      n := len;
    }

    /** How many bytes one call of `Readv` can take: the room in the array, and an extra block on the stack if
        that room is smaller than the block. */
    function Capacity(): nat
      requires Valid()
      reads this
    {
      WritableBytes() + if WritableBytes() < EXTRA_SIZE then EXTRA_SIZE else 0
    }

    /** A scattered read. The system call is a parameter: an error, or the bytes that arrived. */
    method Readv(failed: bool, input: seq<byte>) returns (n: int)
      requires Valid() && |input| <= Capacity()
      modifies this, buffer
      ensures Valid() && (buffer == old(buffer) || fresh(buffer))
      ensures if failed then n == -1 && Contents() == old(Contents())
              else n == |input| && Contents() == old(Contents()) + input
    {
      if failed { return -1; }
      ghost var held := Contents();
      var writable := WritableBytes();
      var first := if |input| <= writable then |input| else writable;
      CopyIn(input[..first]);
      if |input| <= writable {
        writeindex := writeindex + |input|;
        assert input[..first] == input;
      } else {
        writeindex := size;
        assert Contents() == held + input[..first];
        Append(input[writable..]);
        assert held + input[..first] + input[writable..] == held + input;
      }
      n := |input|;
    }
  }
}
