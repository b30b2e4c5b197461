/** Outgoing data: packets that are copied, mapped from a file or left in the caller's memory, and a
    cursor over them that moves with every partial scattered write. */
module ByteDatas {
  import opened Sequences
  import opened ByteBuffers

  const MAX_INT: nat := 0x7FFF_FFFF

  /** A packet. Without a copy and without a file its bytes are in the caller's memory, from address `zero`
      on. The contents of its own buffer and of a mapped file are kept as sequences. */
  datatype DataPacket = DataPacket(copy: bool, copyData: seq<byte>, zero: nat, mapped: seq<byte>, fd: int, size: nat)

  /** Bytes that do not depend on the caller's memory. */
  predicate Owned(p: DataPacket) { p.copy || p.fd > 0 }

  predicate PacketOk(p: DataPacket, memory: seq<byte>) {
    if p.copy then |p.copyData| == p.size
    else if p.fd > 0 then |p.mapped| == p.size
    else p.zero + p.size <= |memory|
  }

  function Data(p: DataPacket, memory: seq<byte>): (r: seq<byte>)
    requires PacketOk(p, memory)
    ensures |r| == p.size
  {
    if p.copy then p.copyData else if p.fd > 0 then p.mapped else memory[p.zero..p.zero + p.size]
  }

  ghost predicate AllOk(ps: seq<DataPacket>, memory: seq<byte>) {
    forall i | 0 <= i < |ps| :: PacketOk(ps[i], memory)
  }

  /** All bytes of some packets. */
  ghost function Flat(ps: seq<DataPacket>, memory: seq<byte>): seq<byte>
    requires AllOk(ps, memory)
  {
    if ps == [] then [] else Data(ps[0], memory) + Flat(ps[1..], memory)
  }

  /** The packets and the place of the first byte that has not been written. */
  datatype Cursor = Cursor(datas: seq<DataPacket>, index: nat, offset: nat)

  ghost predicate Ok(c: Cursor, memory: seq<byte>) {
    && c.index < |c.datas| && c.offset <= c.datas[c.index].size && AllOk(c.datas, memory)
    && |Flat(c.datas, memory)| <= MAX_INT
  }

  /** The bytes still to be written. */
  ghost function Pending(c: Cursor, memory: seq<byte>): seq<byte>
    requires Ok(c, memory)
  {
    FlatStarts(c.datas[c.index..], memory);
    Flat(c.datas[c.index..], memory)[c.offset..]
  }

  lemma FlatStarts(ps: seq<DataPacket>, memory: seq<byte>)
    requires AllOk(ps, memory) && ps != []
    ensures |Flat(ps, memory)| >= ps[0].size
  {
  }

  predicate Remain(c: Cursor)
    requires c.datas != []
  {
    !(c.index == |c.datas| - 1 && c.offset == c.datas[|c.datas| - 1].size)
  }

  /** Where the cursor can stand: at the start, inside a packet or in the last one. */
  ghost predicate Settled(c: Cursor)
    requires c.index < |c.datas|
  {
    c.index == |c.datas| - 1 || c.offset < c.datas[c.index].size || (c.index == 0 && c.offset == 0)
  }

  ghost predicate AllEmpty(ps: seq<DataPacket>) { forall i | 0 <= i < |ps| :: ps[i].size == 0 }

  lemma {:induction false} EmptyFlat(ps: seq<DataPacket>, memory: seq<byte>)
    requires AllOk(ps, memory)
    ensures Flat(ps, memory) == [] <==> AllEmpty(ps)
    decreases |ps|
  {
    if ps != [] {
      EmptyFlat(ps[1..], memory);
      assert AllEmpty(ps) ==> AllEmpty(ps[1..]) && ps[0].size == 0;
      if AllEmpty(ps[1..]) && ps[0].size == 0 {
        forall i | 0 <= i < |ps| ensures ps[i].size == 0 { if i > 0 { assert ps[1..][i - 1].size == 0; } }
      }
    }
  }

  /** Data counts as remaining exactly while bytes are pending, except that two or more packets which are all
      empty count as remaining for ever. */
  lemma RemainExact(c: Cursor, memory: seq<byte>)
    requires Ok(c, memory) && Settled(c)
    ensures Remain(c) <==> Pending(c, memory) != [] || (c.index == 0 && |c.datas| >= 2 && AllEmpty(c.datas))
  {
    var tail := c.datas[c.index..];
    var flat := Flat(tail, memory);
    FlatStarts(tail, memory);
    assert tail[0] == c.datas[c.index];
    EmptyFlat(tail, memory);
    if c.index == |c.datas| - 1 {
      assert tail[1..] == [];
    } else if c.index == 0 && c.offset == 0 {
      assert tail == c.datas;
    }
  }

  /** Two or more empty packets never leave the queue: nothing can be written, so the cursor stays. */
  lemma EmptyPacketsRemain(memory: seq<byte>)
    ensures var empty := DataPacket(true, [], 0, [], -1, 0);
            var c := Cursor([empty, empty], 0, 0);
            Ok(c, memory) && Settled(c) && Remain(c) && Pending(c, memory) == []
  {
    var empty := DataPacket(true, [], 0, [], -1, 0);
    EmptyFlat([empty, empty], memory);
    assert [empty, empty][0..] == [empty, empty];
  }

  lemma AllOkParts(a: seq<DataPacket>, b: seq<DataPacket>, memory: seq<byte>)
    requires AllOk(a, memory) && AllOk(b, memory) && a != []
    ensures AllOk(a + b, memory) && AllOk(a[1..], memory) && PacketOk(a[0], memory)
  {
    hide PacketOk;
  }

  lemma FlatCons(ps: seq<DataPacket>, memory: seq<byte>)
    requires AllOk(ps, memory) && ps != []
    ensures PacketOk(ps[0], memory) && AllOk(ps[1..], memory)
    ensures Flat(ps, memory) == Data(ps[0], memory) + Flat(ps[1..], memory)
  {
  }

  lemma {:induction false} FlatConcat(a: seq<DataPacket>, b: seq<DataPacket>, memory: seq<byte>)
    requires AllOk(a, memory) && AllOk(b, memory)
    ensures AllOk(a + b, memory) && Flat(a + b, memory) == Flat(a, memory) + Flat(b, memory)
    decreases |a|
  {
    if a == [] {
      assert a + b == b;
    } else {
      hide PacketOk, Data, Flat, AllOk;
      AllOkParts(a, b, memory);
      FlatConcat(a[1..], b, memory);
      TailConcat(a, b);
      FlatCons(a + b, memory);
      FlatCons(a, memory);
      Regroup(Data(a[0], memory), Flat(a[1..], memory), Flat(b, memory));
    }
  }

  // ---------- The socket and the outgoing data as objects ----------

  class Socket {
    /** What the kernel has taken, in order. */
    var wire: seq<byte>

    constructor ()
      ensures wire == []
    {
      wire := [];
    }

    /** A scattered write: the kernel takes `result` bytes of the vector, or fails with -1. */
    method Writev(iovs: seq<seq<byte>>, result: int)
      requires -1 <= result <= |Joined(iovs)|
      modifies this
      ensures wire == old(wire) + if result > 0 then Joined(iovs)[..result] else []
    {
      if result > 0 {
        var all := Gather(iovs);
        wire := wire + all[..result];
      }
    }
  }

  function Joined(iovs: seq<seq<byte>>): seq<byte> {
    if iovs == [] then [] else Joined(iovs[..|iovs| - 1]) + iovs[|iovs| - 1]
  }

  method Gather(iovs: seq<seq<byte>>) returns (all: seq<byte>)
    ensures all == Joined(iovs)
  {
    all := [];
    for i := 0 to |iovs|
      invariant all == Joined(iovs[..i])
    {
      assert iovs[..i + 1][..i] == iovs[..i];
      all := all + iovs[i];
    }
    assert iovs[..|iovs|] == iovs;
  }

  class ByteData {
    var datas: seq<DataPacket>
    var currentIndex: nat
    var offset: int

    ghost predicate Valid(memory: seq<byte>)
      reads this
    {
      offset >= 0 && Ok(View(), memory) && Settled(View())
    }

    ghost function View(): Cursor
      reads this
    {
      Cursor(datas, currentIndex, if offset >= 0 then offset else 0)
    }

    constructor ()
      ensures datas == [] && currentIndex == 0 && offset == 0
    {
      datas, currentIndex, offset := [], 0, 0;
    }

    /** Adds a packet that stays in the caller's memory. */
    method AddDataZeroCopy(address: nat, size: nat, ghost memory: seq<byte>)
      requires AllOk(datas, memory) && address + size <= |memory|
      modifies this`datas
      ensures AllOk(datas, memory) && Flat(datas, memory) == old(Flat(datas, memory)) + memory[address..address + size]
    {
      AddPacket(DataPacket(false, [], address, [], -1, size), memory);
    }

    /** Adds a packet with a copy of the data: no later change of the caller's memory shows in it. */
    method AddDataCopy(data: seq<byte>, ghost memory: seq<byte>)
      requires AllOk(datas, memory)
      modifies this`datas
      ensures AllOk(datas, memory) && Flat(datas, memory) == old(Flat(datas, memory)) + data
      ensures datas != [] && Owned(datas[|datas| - 1])
    {
      AddPacket(DataPacket(true, data, 0, [], -1, |data|), memory);
    }

    /** Adds a mapped file. */
    method AddFile(fd: int, contents: seq<byte>, ghost memory: seq<byte>)
      requires fd > 0 && AllOk(datas, memory)
      modifies this`datas
      ensures AllOk(datas, memory) && Flat(datas, memory) == old(Flat(datas, memory)) + contents
      ensures datas != [] && Owned(datas[|datas| - 1])
    {
      AddPacket(DataPacket(false, [], 0, contents, fd, |contents|), memory);
    }

    method AddPacket(p: DataPacket, ghost memory: seq<byte>)
      requires AllOk(datas, memory) && PacketOk(p, memory)
      modifies this`datas
      ensures datas == old(datas) + [p]
      ensures AllOk(datas, memory) && Flat(datas, memory) == old(Flat(datas, memory)) + Data(p, memory)
    {
      FlatConcat(datas, [p], memory);
      assert [p][1..] == [] && Data(p, memory) + [] == Data(p, memory);
      datas := datas + [p];
    }

    method Remains() returns (r: bool)
      requires datas != [] && offset >= 0
      ensures r == Remain(View())
    {
      r := !(currentIndex == |datas| - 1 && offset == datas[|datas| - 1].size);
    }

    /** Moves the cursor from packet to packet until the offset is inside one. */
    method ModifyIndexAndOffset(ghost memory: seq<byte>)
      requires currentIndex < |datas| && AllOk(datas, memory)
      requires 0 <= offset <= |Flat(datas[currentIndex..], memory)|
      modifies this`currentIndex, this`offset
      ensures old(currentIndex) <= currentIndex < |datas| && 0 <= offset <= datas[currentIndex].size
      ensures currentIndex == |datas| - 1 || offset < datas[currentIndex].size
      ensures offset <= |Flat(datas[currentIndex..], memory)|
      ensures Flat(datas[currentIndex..], memory)[offset..] ==
              old(Flat(datas[currentIndex..], memory)[offset..])
    {
      hide Flat, Data, PacketOk;
      var size := |datas|;
      var i := currentIndex;
      ghost var all := Flat(datas[currentIndex..], memory)[offset..];
      while i < size
        invariant currentIndex == old(currentIndex) && 0 <= i <= size && 0 <= offset <= |Flat(datas[i..], memory)|
        invariant Flat(datas[i..], memory)[offset..] == all
      {
        FlatFrom(datas, i, memory);
        offset := offset - datas[i].size;
        if offset < 0 {
          offset := offset + datas[i].size;
          currentIndex := i;
          return;
        }
        i := i + 1;
      }
      NoPackets(datas[size..], memory);
      FlatFrom(datas, size - 1, memory);
      currentIndex := size - 1;
      offset := datas[currentIndex].size;
    }

    /** The write vector: what is left of the current packet, and the packets after it. */
    method Vector(memory: array<byte>) returns (iovs: seq<seq<byte>>)
      requires Valid(memory[..])
      ensures Joined(iovs) == Pending(View(), memory[..])
    {
      hide Flat, Data, PacketOk;
      ghost var m := memory[..];
      var first := Data(datas[currentIndex], memory[..]);
      iovs := [first[offset..]];
      FlatFrom(datas, currentIndex, m);
      assert iovs[..0] == [];
      ghost var all := Pending(View(), m);
      assert Joined(iovs) == first[offset..] by { assert [] + first[offset..] == first[offset..]; }
      var i := currentIndex + 1;
      while i < |datas|
        invariant currentIndex < i <= |datas| && |iovs| > 0
        invariant Joined(iovs) + Flat(datas[i..], m) == all
      {
        FlatFrom(datas, i, m);
        var iov := Data(datas[i], memory[..]);
        assert (iovs + [iov])[..|iovs|] == iovs;
        assert Joined(iovs) + (iov + Flat(datas[i + 1..], m)) == Joined(iovs) + iov + Flat(datas[i + 1..], m);
        iovs := iovs + [iov];
        i := i + 1;
      }
      NoPackets(datas[i..], m);
      assert Joined(iovs) + [] == Joined(iovs);
    }

    /** The cursor moves over the bytes that were written. */
    method Advance(n: nat, ghost memory: seq<byte>)
      requires Valid(memory) && n <= |Pending(View(), memory)|
      modifies this`currentIndex, this`offset
      ensures Valid(memory) && Pending(View(), memory) == old(Pending(View(), memory))[n..]
      ensures currentIndex >= old(currentIndex)
    {
      hide Flat, Data, PacketOk;
      ghost var flat := Flat(datas[currentIndex..], memory);
      FlatFrom(datas, currentIndex, memory);
      assert flat[offset + n..] == flat[offset..][n..];
      offset := offset + n;
      ModifyIndexAndOffset(memory);
    }

    /** Writes what remains; the kernel's answer is a parameter, at most the number of bytes offered. */
    method Writev(socket: Socket, memory: array<byte>, result: int) returns (n: int)
      requires Valid(memory[..]) && -1 <= result <= |Pending(View(), memory[..])|
      modifies this`currentIndex, this`offset, socket
      ensures Valid(memory[..]) && currentIndex >= old(currentIndex)
      ensures n == if old(Remain(View())) then result else 0
      ensures socket.wire + Pending(View(), memory[..]) == old(socket.wire) + old(Pending(View(), memory[..]))
      ensures n > 0 ==> socket.wire == old(socket.wire) + old(Pending(View(), memory[..]))[..n]
      ensures n <= 0 ==> socket.wire == old(socket.wire) && View() == old(View())
    {
      hide Pending, Joined;
      var remain := Remains();
      if !remain { return 0; }
      ghost var before := Pending(View(), memory[..]);
      var iovs := Vector(memory);
      socket.Writev(iovs, result);
      n := result;
      if n > 0 {
        Advance(n, memory[..]);
        WrittenAndLeft(old(socket.wire), before, n);
      } else {
        assert old(socket.wire) + [] == old(socket.wire);
      }
    }

    /** Copies what is left out of the caller's memory, so that the caller may release it. */
    method CopyDataIfNeed(memory: array<byte>)
      requires Valid(memory[..])
      modifies this`datas, this`offset
      ensures Valid(memory[..]) && Remain(View()) == old(Remain(View()))
      ensures Pending(View(), memory[..]) == old(Pending(View(), memory[..]))
      ensures Remain(View()) ==> OwnedFrom(datas, currentIndex)
    {
      hide Flat, PacketOk, Pending, Settled, Remain, Copied, Owned;
      var remain := Remains();
      if !remain { return; }
      ghost var m := memory[..];
      ghost var c := View();
      var i := currentIndex;
      FlatFrom(datas, currentIndex, m);
      while i < |datas|
        invariant currentIndex == old(currentIndex) <= i <= |datas| == |old(datas)|
        invariant Valid(m) && Remain(View())
        invariant forall k | i <= k < |datas| :: datas[k] == old(datas)[k]
        invariant i == currentIndex ==> offset == old(offset)
        invariant Pending(View(), m) == Pending(c, m)
        invariant forall k | currentIndex <= k < i :: Owned(datas[k])
      {
        var p, copied := CopyIfNeed(datas[i], memory, if i == currentIndex then offset else 0);
        PacketCopied(View(), i, p, m);
        datas := datas[i := p];
        if copied && i == currentIndex { offset := 0; }
        i := i + 1;
      }
    }

    /** A packet after `CopyIfNeed`: its own copy of the bytes from the offset on, if it needs one. */
    method CopyIfNeed(p: DataPacket, memory: array<byte>, offset: nat) returns (q: DataPacket, copied: bool)
      requires PacketOk(p, memory[..]) && offset <= p.size
      ensures copied == !Owned(p)
      ensures q == Copied(p, offset, memory[..])
    {
      if p.copy || p.fd > 0 { return p, false; }
      q := DataPacket(true, memory[p.zero + offset..p.zero + p.size], 0, p.mapped, p.fd, p.size - offset);
      copied := true;
    }
  }

  function Copied(p: DataPacket, offset: nat, memory: seq<byte>): DataPacket
    requires PacketOk(p, memory) && offset <= p.size
  {
    if Owned(p) then p
    else DataPacket(true, memory[p.zero + offset..p.zero + p.size], 0, p.mapped, p.fd, p.size - offset)
  }

  ghost predicate OwnedFrom(ps: seq<DataPacket>, index: nat) { forall k | index <= k < |ps| :: Owned(ps[k]) }

  lemma FlatFrom(ps: seq<DataPacket>, i: nat, memory: seq<byte>)
    requires i < |ps| && AllOk(ps, memory)
    ensures Flat(ps[i..], memory) == Data(ps[i], memory) + Flat(ps[i + 1..], memory)
  {
    assert ps[i..][0] == ps[i] && ps[i..][1..] == ps[i + 1..];
  }

  lemma NoPackets(ps: seq<DataPacket>, memory: seq<byte>)
    requires ps == []
    ensures Flat(ps, memory) == []
  {
  }

  /** The cursor after packet `i` has been copied. */
  ghost function CopiedAt(c: Cursor, i: nat, q: DataPacket): Cursor
    requires c.index <= i < |c.datas|
  {
    Cursor(c.datas[i := q], c.index, if i == c.index && !Owned(c.datas[i]) then 0 else c.offset)
  }

  lemma PacketCopied(c: Cursor, i: nat, q: DataPacket, memory: seq<byte>)
    requires Ok(c, memory) && Settled(c) && Remain(c) && c.index <= i < |c.datas|
    requires q == Copied(c.datas[i], if i == c.index then c.offset else 0, memory)
    ensures var d := CopiedAt(c, i, q);
            Ok(d, memory) && Settled(d) && Remain(d) && Pending(d, memory) == Pending(c, memory) && Owned(q)
  {
    hide Flat;
    var o := if i == c.index then c.offset else 0;
    var ps, qs := c.datas, c.datas[i := q];
    assert PacketOk(ps[i], memory) && PacketOk(q, memory);
    assert Data(q, memory) == if Owned(ps[i]) then Data(ps[i], memory) else Data(ps[i], memory)[o..];
    SplitFlat(ps, c.index, i, memory);
    SplitFlat(qs, c.index, i, memory);
    SplitFlat(ps, 0, i, memory);
    SplitFlat(qs, 0, i, memory);
    assert qs[c.index..i] == ps[c.index..i] && qs[i + 1..] == ps[i + 1..] && qs[0..i] == ps[0..i];
    if i == c.index { NoPackets(ps[c.index..i], memory); }
    if c.index < i { FlatFrom(ps, c.index, memory); }
  }

  lemma SplitFlat(ps: seq<DataPacket>, index: nat, i: nat, memory: seq<byte>)
    requires index <= i < |ps| && AllOk(ps, memory)
    ensures Flat(ps[index..], memory) == Flat(ps[index..i], memory) + Data(ps[i], memory) + Flat(ps[i + 1..], memory)
  {
    assert ps[index..] == ps[index..i] + ps[i..];
    FlatConcat(ps[index..i], ps[i..], memory);
    FlatFrom(ps, i, memory);
  }

  /** Data that does not need the caller's memory means the same whatever happens to that memory. */
  lemma {:induction false} OwnedIsStable(ps: seq<DataPacket>, m: seq<byte>, n: seq<byte>)
    requires AllOk(ps, m) && OwnedFrom(ps, 0)
    ensures AllOk(ps, n) && Flat(ps, n) == Flat(ps, m)
    decreases |ps|
  {
    if ps != [] {
      assert forall k | 0 <= k < |ps[1..]| :: ps[1..][k] == ps[k + 1];
      OwnedIsStable(ps[1..], m, n);
      assert Data(ps[0], n) == Data(ps[0], m);
    }
  }

  lemma WrittenAndLeft(wire: seq<byte>, pending: seq<byte>, n: nat)
    requires n <= |pending|
    ensures wire + pending[..n] + pending[n..] == wire + pending
  {
    assert pending[..n] + pending[n..] == pending;
  }
}
