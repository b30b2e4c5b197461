/** The send queue of an open connection: what has been written and what is queued is what was sent, in
    order, whatever the kernel takes of each write. */
module SendQueue {
  import opened ByteBuffers
  import opened ByteDatas

  ghost predicate QueueOk(q: seq<ByteData>, memory: seq<byte>)
    reads q
  {
    && (forall i | 0 <= i < |q| :: q[i].Valid(memory) && Remain(q[i].View()) && OwnedFrom(q[i].datas, q[i].currentIndex))
    && forall i, j | 0 <= i < j < |q| :: q[i] != q[j]
  }

  /** The bytes queued, in the order in which they will be written. */
  ghost function Queued(q: seq<ByteData>, memory: seq<byte>): seq<byte>
    requires QueueOk(q, memory)
    reads q
  {
    if q == [] then [] else Pending(q[0].View(), memory) + Queued(q[1..], memory)
  }

  lemma {:induction false} QueuedSnoc(q: seq<ByteData>, d: ByteData, memory: seq<byte>)
    requires QueueOk(q + [d], memory) && Ok(d.View(), memory)
    ensures QueueOk(q, memory) && Queued(q + [d], memory) == Queued(q, memory) + Pending(d.View(), memory)
    decreases |q|
  {
    hide Pending, Remain, OwnedFrom;
    assert forall i | 0 <= i < |q| :: q[i] == (q + [d])[i];
    if q == [] {
      assert q + [d] == [d] && [d][1..] == [];
    } else {
      assert (q + [d])[1..] == q[1..] + [d];
      QueuedSnoc(q[1..], d, memory);
    }
  }

  lemma QueuedCons(q: seq<ByteData>, memory: seq<byte>)
    requires QueueOk(q, memory) && q != []
    ensures QueueOk(q[1..], memory) && q[0] !in q[1..]
    ensures Ok(q[0].View(), memory) && Queued(q, memory) == Pending(q[0].View(), memory) + Queued(q[1..], memory)
  {
    hide Pending, Remain, OwnedFrom, Ok;
    assert forall i | 0 <= i < |q[1..]| :: q[1..][i] == q[i + 1];
  }

  /** A queue whose first item is replaced by what is left of it. */
  lemma QueueAgain(q: seq<ByteData>, memory: seq<byte>)
    requires q != [] && QueueOk(q[1..], memory) && q[0] !in q[1..]
    requires q[0].Valid(memory) && Remain(q[0].View()) && OwnedFrom(q[0].datas, q[0].currentIndex)
    ensures QueueOk(q, memory)
  {
    hide Pending, Remain, OwnedFrom, Ok, Settled;
    assert forall i | 0 < i < |q| :: q[i] == q[1..][i - 1];
  }

  /** One queued item does not need the caller's memory. */
  lemma PendingIsStable(c: Cursor, m: seq<byte>, n: seq<byte>)
    requires |m| == |n| && Ok(c, m) && OwnedFrom(c.datas, c.index)
    ensures Ok(c, n) && Pending(c, n) == Pending(c, m)
  {
    var tail := c.datas[c.index..];
    assert forall k | 0 <= k < |tail| :: tail[k] == c.datas[c.index + k];
    OwnedIsStable(tail, m, n);
    assert forall i | 0 <= i < |c.datas| :: PacketOk(c.datas[i], m) ==> PacketOk(c.datas[i], n);
    FlatLength(c.datas, m, n);
  }

  lemma {:induction false} FlatLength(ps: seq<DataPacket>, m: seq<byte>, n: seq<byte>)
    requires AllOk(ps, m) && AllOk(ps, n)
    ensures |Flat(ps, m)| == |Flat(ps, n)|
    decreases |ps|
  {
    if ps != [] { FlatLength(ps[1..], m, n); }
  }

  lemma {:induction false} QueuedIsStable(q: seq<ByteData>, m: seq<byte>, n: seq<byte>)
    requires |m| == |n| && QueueOk(q, m)
    ensures QueueOk(q, n) && Queued(q, n) == Queued(q, m)
    decreases |q|
  {
    hide Pending, Remain, Ok, Settled;
    forall i | 0 <= i < |q| ensures q[i].Valid(n) { PendingIsStable(q[i].View(), m, n); }
    if q != [] {
      PendingIsStable(q[0].View(), m, n);
      QueuedIsStable(q[1..], m, n);
    }
  }

  class TcpConnection {
    const socket: Socket
    /** The memory of the callers of `Send`. */
    const memory: array<byte>
    var sendDatas: seq<ByteData>
    var writing: bool
    /** Everything handed to the connection, in order. */
    ghost var sent: seq<byte>

    ghost predicate Valid()
      reads this, socket, memory, sendDatas
    {
      && QueueOk(sendDatas, memory[..])
      && (writing <==> sendDatas != [])
      && socket.wire + Queued(sendDatas, memory[..]) == sent
    }

    constructor (memory: array<byte>)
      ensures Valid() && fresh(socket) && this.memory == memory && sendDatas == [] && sent == []
    {
      this.memory := memory;
      sendDatas, writing, sent := [], false, [];
      socket := new Socket();
    }

    /** Hands some data to the connection. It is written at once if nothing is queued; what is left of it is
        copied and queued. */
    method SendInLoop(data: ByteData, result: int)
      requires Valid() && data.Valid(memory[..]) && data !in sendDatas
      requires -1 <= result <= |Pending(data.View(), memory[..])|
      modifies this, data, socket
      ensures Valid() && sent == old(sent) + old(Pending(data.View(), memory[..]))
      ensures socket.wire == old(socket.wire) + if old(sendDatas) == [] && result > 0 then old(Pending(data.View(), memory[..]))[..result] else []
      ensures data.Valid(memory[..]) && sendDatas == old(sendDatas) + if Remain(data.View()) then [data] else []
    {
      hide Pending, Queued, Remain, Ok, Settled, OwnedFrom, QueueOk;
      ghost var m := memory[..];
      ghost var bytes, queued, wire := Pending(data.View(), m), Queued(sendDatas, m), socket.wire;
      sent := sent + bytes;
      if |sendDatas| == 0 && !writing {
        NothingQueued(sendDatas, m);
        WriteFirst(data, result);
      } else {
        assert wire + [] == wire;
      }
      Together(wire, queued, bytes, socket.wire, Pending(data.View(), m), old(sent));
      var remain := RemainsOf(data, m);
      if remain {
        data.CopyDataIfNeed(memory);
        Enqueue(data, queued);
        if !writing { writing := true; }
      } else {
        NothingPending(data.View(), m);
        assert socket.wire + queued + [] == socket.wire + queued && old(sendDatas) + [] == old(sendDatas);
      }
    }

    /** Some of the data is written at once. */
    method WriteFirst(data: ByteData, result: int)
      requires data.Valid(memory[..]) && -1 <= result <= |Pending(data.View(), memory[..])|
      modifies data`currentIndex, data`offset, socket
      ensures data.Valid(memory[..]) && socket.wire + Pending(data.View(), memory[..]) == old(socket.wire) + old(Pending(data.View(), memory[..]))
      ensures socket.wire == old(socket.wire) + if result > 0 then old(Pending(data.View(), memory[..]))[..result] else []
    {
      hide Pending, Remain, Ok, Settled;
      if result > 0 { SomethingPending(data.View(), memory[..]); }
      assert socket.wire + [] == socket.wire;
      var n := data.Writev(socket, memory, result);
    }

    method RemainsOf(data: ByteData, ghost m: seq<byte>) returns (r: bool)
      requires data.Valid(m)
      ensures r == Remain(data.View())
    {
      r := data.Remains();
    }

    /** Queues data that has its own copy of the bytes. */
    method Enqueue(data: ByteData, ghost queued: seq<byte>)
      requires QueueOk(sendDatas, memory[..]) && queued == Queued(sendDatas, memory[..]) && data !in sendDatas
      requires data.Valid(memory[..]) && Remain(data.View()) && OwnedFrom(data.datas, data.currentIndex)
      modifies this`sendDatas
      ensures sendDatas == old(sendDatas) + [data] && QueueOk(sendDatas, memory[..])
      ensures Queued(sendDatas, memory[..]) == queued + Pending(data.View(), memory[..])
    {
      hide Pending, Remain, Ok, Settled, OwnedFrom, Queued;
      sendDatas := sendDatas + [data];
      QueuedSnoc(old(sendDatas), data, memory[..]);
    }

    /** How many bytes the oldest data offers to the kernel. */
    ghost function Offered(): nat
      requires Valid()
      reads this, socket, memory, sendDatas
    {
      if sendDatas == [] then 0
      else
        HeadOk(sendDatas, memory[..]);
        |Pending(sendDatas[0].View(), memory[..])|
    }

    /** The socket can take more: some of the oldest data is written. */
    method HandleWrite(result: int)
      requires Valid() && -1 <= result <= Offered()
      modifies this, socket, sendDatas
      ensures Valid() && sent == old(sent)
      ensures sendDatas == old(sendDatas) || (old(sendDatas) != [] && sendDatas == old(sendDatas)[1..])
      ensures result > 0 ==> |socket.wire| == old(|socket.wire|) + result
      ensures result <= 0 ==> socket.wire == old(socket.wire)
      ensures old(sendDatas) != [] ==>
                old(sendDatas)[0].Valid(memory[..]) && (sendDatas == old(sendDatas) <==> Remain(old(sendDatas)[0].View()))
    {
      hide Queued, QueueOk, Pending, Remain;
      if writing {
        var remain := WriteHead(sendDatas, result);
        if !remain { sendDatas := sendDatas[1..]; }
        if |sendDatas| == 0 { writing := false; }
      }
    }

    /** Writes from the first item of the queue; without the result it is finished. */
    method WriteHead(q: seq<ByteData>, result: int) returns (remain: bool)
      requires q == sendDatas && q != [] && Valid() && -1 <= result <= Offered()
      modifies socket, q[0]
      ensures var rest := if remain then q else q[1..];
              QueueOk(rest, memory[..]) && socket.wire + Queued(rest, memory[..]) == sent
      ensures result > 0 ==> |socket.wire| == |old(socket.wire)| + result
      ensures result <= 0 ==> socket.wire == old(socket.wire)
      ensures q[0].Valid(memory[..]) && remain == Remain(q[0].View())
    {
      HeadOk(q, memory[..]);
      hide Pending, Remain, Ok, Settled, OwnedFrom, Queued;
      ghost var m := memory[..];
      var data := q[0];
      ghost var tail := q[1..];
      QueuedCons(q, m);
      ghost var rest, before := Queued(tail, m), Pending(data.View(), m);
      WriteSome(data, result);
      remain := RemainsOf(data, m);
      Moved(old(socket.wire), before, socket.wire, Pending(data.View(), m), rest);
      if remain {
        QueueAgain(q, m);
        QueuedCons(q, m);
      } else {
        NothingPending(data.View(), m);
      }
    }

    method WriteSome(data: ByteData, result: int)
      requires data.Valid(memory[..]) && Remain(data.View()) && OwnedFrom(data.datas, data.currentIndex)
      requires -1 <= result <= |Pending(data.View(), memory[..])|
      modifies data`currentIndex, data`offset, socket
      ensures data.Valid(memory[..]) && OwnedFrom(data.datas, data.currentIndex)
      ensures socket.wire + Pending(data.View(), memory[..]) == old(socket.wire) + old(Pending(data.View(), memory[..]))
      ensures result > 0 ==> |socket.wire| == |old(socket.wire)| + result
      ensures result <= 0 ==> socket.wire == old(socket.wire)
    {
      hide Pending, Remain, Ok, Settled, OwnedFrom;
      var n := data.Writev(socket, memory, result);
      LaterOwned(data.datas, old(data.currentIndex), data.currentIndex);
    }

    /** The caller uses its memory for something else. */
    method CallerWrites(address: nat, b: byte)
      requires Valid() && address < memory.Length
      modifies memory
      ensures Valid() && Queued(sendDatas, memory[..]) == old(Queued(sendDatas, memory[..])) && sent == old(sent)
    {
      ghost var m := memory[..];
      memory[address] := b;
      QueuedIsStable(sendDatas, m, memory[..]);
    }
  }

  lemma HeadOk(q: seq<ByteData>, memory: seq<byte>)
    requires QueueOk(q, memory) && q != []
    ensures q[0].Valid(memory) && Ok(q[0].View(), memory) && Remain(q[0].View())
  {
  }

  lemma NothingQueued(q: seq<ByteData>, memory: seq<byte>)
    requires q == [] && QueueOk(q, memory)
    ensures Queued(q, memory) == []
  {
  }

  lemma Together(wire: seq<byte>, queued: seq<byte>, bytes: seq<byte>, wire': seq<byte>, left: seq<byte>, sent: seq<byte>)
    requires wire + queued == sent && wire' + left == wire + bytes && (queued == [] || wire' == wire)
    ensures wire' + queued + left == sent + bytes
  {
    if queued == [] {
      assert wire' + queued == wire' && wire + queued == wire;
    } else {
      assert left == (wire' + left)[|wire|..] == (wire + bytes)[|wire|..] == bytes;
    }
  }

  lemma SomethingPending(c: Cursor, memory: seq<byte>)
    requires Ok(c, memory) && Settled(c) && Pending(c, memory) != []
    ensures Remain(c)
  {
    RemainExact(c, memory);
  }

  lemma NothingPending(c: Cursor, memory: seq<byte>)
    requires Ok(c, memory) && Settled(c) && !Remain(c)
    ensures Pending(c, memory) == []
  {
    RemainExact(c, memory);
  }

  lemma LaterOwned(ps: seq<DataPacket>, i: nat, j: nat)
    requires OwnedFrom(ps, i) && i <= j
    ensures OwnedFrom(ps, j)
  {
  }

  lemma Moved(wire: seq<byte>, before: seq<byte>, wire': seq<byte>, after: seq<byte>, rest: seq<byte>)
    requires wire' + after == wire + before
    ensures wire' + (after + rest) == wire + (before + rest)
    ensures after == [] ==> wire' + rest == wire + (before + rest)
  {
    assert wire' + after + rest == wire' + (after + rest);
    assert wire + before + rest == wire + (before + rest);
  }
}
