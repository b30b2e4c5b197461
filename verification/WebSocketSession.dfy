/** The WebSocket session as an object: the handler that reads frames from the connection's buffer and
    collects the payload in its own, and the header of the frames it sends. */
module WebSocketSession {
  import opened ByteBuffers
  import opened WebSocketFrames
  import opened WebSocketMessages

  const MAX_INT: nat := 0x7FFF_FFFF

  class WebSocket {
    var parseState: Phase
    var miniHeader: nat
    var lengthNeedrecv: nat
    var mask: seq<byte>
    const dataBuffer: ByteBuffer
    var recvBeginIndex: nat
    var recvEndIndex: nat
    var kind: Kind
    var recvClose: bool
    var sentClose: bool
    /** Calls of the callbacks and of the connection. */
    var actions: seq<Action>

    /** The payload buffer always starts at its first byte, because it is only appended to and emptied. */
    ghost predicate Valid()
      reads this, dataBuffer, dataBuffer.buffer
    {
      && dataBuffer.Valid() && dataBuffer.readindex == CHEAP_PREPEND
      && recvBeginIndex == recvEndIndex <= |dataBuffer.Contents()| && |mask| == 4
    }

    ghost function View(): Ws
      requires dataBuffer.Valid()
      reads this, dataBuffer, dataBuffer.buffer
    {
      Ws(parseState, miniHeader, lengthNeedrecv, mask, dataBuffer.Contents(), recvBeginIndex, kind, recvClose, sentClose)
    }

    constructor ()
      ensures Valid() && fresh(dataBuffer) && fresh(dataBuffer.buffer) && View() == START && actions == []
    {
      parseState, miniHeader, lengthNeedrecv, mask := MiniHeader, 0, 0, [0, 0, 0, 0];
      recvBeginIndex, recvEndIndex, kind, recvClose, sentClose, actions := 0, 0, Binary, false, false, [];
      dataBuffer := new ByteBuffer(INITIAL_SIZE);
    }

    predicate IsFIN()
      reads this
    {
      miniHeader / 0x8000 % 2 == 1
    }

    method FragmentFIN()
      requires dataBuffer.Valid()
      modifies this`recvBeginIndex, this`recvEndIndex, dataBuffer
      ensures dataBuffer.Valid() && dataBuffer.Contents() == [] && dataBuffer.readindex == CHEAP_PREPEND
      ensures dataBuffer.buffer == old(dataBuffer.buffer) && recvBeginIndex == recvEndIndex == 0
    {
      dataBuffer.ReadAll();
      recvBeginIndex := 0;
      recvEndIndex := 0;
    }

    /** Calls the message callback with the payload. */
    method MessageCallback()
      requires dataBuffer.Valid()
      modifies this`actions, this`recvBeginIndex, this`recvEndIndex, dataBuffer
      ensures dataBuffer.Valid() && dataBuffer.Contents() == [] && dataBuffer.readindex == CHEAP_PREPEND
      ensures dataBuffer.buffer == old(dataBuffer.buffer) && recvBeginIndex == recvEndIndex == 0
      ensures actions == old(actions) + [Deliver(kind, old(dataBuffer.Contents()))]
    {
      var payload := dataBuffer.buffer[dataBuffer.readindex..dataBuffer.writeindex];
      actions := actions + [Deliver(kind, payload)];
      FragmentFIN();
    }

    /** Applies the mask to the payload of the last frame, in place. */
    method Unmask()
      requires dataBuffer.Valid() && dataBuffer.readindex == CHEAP_PREPEND && |mask| == 4
      requires recvBeginIndex <= recvEndIndex == |dataBuffer.Contents()|
      modifies dataBuffer.buffer
      ensures var was := old(dataBuffer.Contents());
              dataBuffer.Contents() == was[..recvBeginIndex] + Masked(was[recvBeginIndex..], mask)
    {
      hide Xor;
      var b := dataBuffer.buffer;
      ghost var was := b[..];
      var i := recvBeginIndex;
      while i < recvEndIndex
        invariant recvBeginIndex <= i <= recvEndIndex
        invariant forall k | 0 <= k < CHEAP_PREPEND + recvBeginIndex || CHEAP_PREPEND + i <= k < b.Length :: b[k] == was[k]
        invariant forall k | CHEAP_PREPEND + recvBeginIndex <= k < CHEAP_PREPEND + i ::
                    b[k] == Xor(was[k], mask[(k - CHEAP_PREPEND - recvBeginIndex) % 4])
      {
        assert b[CHEAP_PREPEND + i] == was[CHEAP_PREPEND + i];
        b[CHEAP_PREPEND + i] := Xor(b[CHEAP_PREPEND + i], mask[(i - recvBeginIndex) % 4]);
        i := i + 1;
      }
      MaskedRange(was, b[..], dataBuffer.writeindex, recvBeginIndex, mask);
    }

    /** The session sends a close frame, and closes if the peer has sent one. */
    method Close()
      modifies this`actions, this`sentClose
      ensures sentClose && actions == old(actions) + (if recvClose then [SendClose, ForceClose] else [SendClose])
    {
      sentClose := true;
      actions := actions + [SendClose];
      if recvClose { actions := actions + [ForceClose]; }
    }

    /** The end of a frame. */
    method HandleFragment()
      requires dataBuffer.Valid() && dataBuffer.readindex == CHEAP_PREPEND && |mask| == 4
      requires recvBeginIndex <= recvEndIndex == |dataBuffer.Contents()|
      modifies this, dataBuffer, dataBuffer.buffer
      ensures Valid() && dataBuffer.buffer == old(dataBuffer.buffer)
      ensures var (w, done) := Fragment(old(View())); View() == w && actions == old(actions) + done
    {
      hide Masked;
      Unmask();
      ghost var data := dataBuffer.Contents();
      recvBeginIndex := recvEndIndex;
      var opcode := miniHeader / 0x100 % 16;
      if opcode == 0 || opcode == 1 || opcode == 2 {
        if opcode == 1 { kind := Text; }
        if opcode == 2 { kind := Binary; }
        if IsFIN() { MessageCallback(); }
      } else if opcode == 8 {
        recvClose := true;
        if !sentClose {
          Close();
        } else {
          actions := actions + [NotifyClose, ForceClose];
        }
      } else if opcode == 9 {
        actions := actions + [SendPong];
        FragmentFIN();
      } else {
        actions := actions + [ForceClose];
      }
    }

    ghost predicate Apart(buf: ByteBuffer)
      reads this, dataBuffer, buf
    {
      buf != dataBuffer && buf.buffer != dataBuffer.buffer
    }

    /** The payload state: takes what is there, up to the end of the frame. */
    method HandlePayload(buf: ByteBuffer) returns (reply: Reply)
      requires Valid() && buf.Valid() && Apart(buf) && parseState == Payload
      requires |dataBuffer.Contents()| + |buf.Contents()| <= MAX_INT
      modifies this, dataBuffer, dataBuffer.buffer, buf
      ensures Valid() && buf.Valid() && Apart(buf) && buf.buffer == old(buf.buffer)
      ensures dataBuffer.buffer == old(dataBuffer.buffer) || fresh(dataBuffer.buffer)
      ensures var r := Handle(old(View()), old(buf.Contents()));
              View() == r.w && buf.Contents() == r.rest && actions == old(actions) + r.actions && reply == r.reply
    {
      hide Fragment;
      var recvbytes := buf.ReadableBytes();
      if recvbytes > lengthNeedrecv { recvbytes := lengthNeedrecv; }
      ghost var w, bytes := View(), buf.Contents();
      var n := buf.ReadToBuffer(dataBuffer, recvbytes);
      assert n == recvbytes && dataBuffer.Contents() == w.data + bytes[..n] && buf.Contents() == bytes[n..];
      lengthNeedrecv := lengthNeedrecv - n;
      if lengthNeedrecv != 0 { return PROCESS; }
      recvEndIndex := dataBuffer.ReadableBytes();
      parseState := MiniHeader;
      HandleFragment();
      reply := if IsFIN() then FINISH else PROCESS;
    }

    /** The states that read a header, a length or a mask. */
    method HandleUnit(data: seq<byte>) returns (ok: bool)
      requires Valid() && parseState != Payload && |data| == UnitSizeOf(parseState)
      modifies this`miniHeader, this`parseState, this`lengthNeedrecv, this`mask, this`actions
      ensures Valid()
      ensures var (v, done, n) := Unit(old(View()), data);
              View() == v && actions == old(actions) + done && ok == (done == [])
    {
      hide BigEndian;
      assert data[..|data|] == data;
      ok := true;
      match parseState {
        case MiniHeader =>
          miniHeader := BigEndian(data);
          if miniHeader / 128 % 2 == 1 {
            if miniHeader % 128 == 127 {
              parseState := Len64;
            } else if miniHeader % 128 == 126 {
              parseState := Len16;
            } else {
              parseState := MaskKey;
              lengthNeedrecv := miniHeader % 128;
            }
          } else {
            actions := actions + [ForceClose];
            ok := false;
          }
        case Len16 =>
          lengthNeedrecv := BigEndian(data);
          parseState := MaskKey;
        case Len64 =>
          lengthNeedrecv := BigEndian(data);
          parseState := MaskKey;
        case MaskKey =>
          mask := data;
          parseState := Payload;
      }
    }

    /** The message handler of the connection. */
    method HandleMessage(buf: ByteBuffer) returns (reply: Reply)
      requires Valid() && buf.Valid() && Apart(buf)
      requires |dataBuffer.Contents()| + |buf.Contents()| <= MAX_INT
      modifies this, dataBuffer, dataBuffer.buffer, buf
      ensures Valid() && buf.Valid() && Apart(buf) && buf.buffer == old(buf.buffer)
      ensures dataBuffer.buffer == old(dataBuffer.buffer) || fresh(dataBuffer.buffer)
      ensures var r := Handle(old(View()), old(buf.Contents()));
              View() == r.w && buf.Contents() == r.rest && actions == old(actions) + r.actions && reply == r.reply
    {
      hide Handle, Unit;
      while true
        invariant Valid() && buf.Valid() && Apart(buf) && buf.buffer == old(buf.buffer)
        invariant dataBuffer.buffer == old(dataBuffer.buffer) && dataBuffer.Contents() == old(dataBuffer.Contents())
        invariant |dataBuffer.Contents()| + |buf.Contents()| <= MAX_INT && actions == old(actions)
        invariant Handle(View(), buf.Contents()) == Handle(old(View()), old(buf.Contents()))
        decreases |buf.Contents()|
      {
        if parseState == Payload {
          reply := HandlePayload(buf);
          return;
        }
        HandleByUnits(View(), buf.Contents());
        var n, data := buf.ReadSome(UnitSizeOf(parseState));
        if n == 0 { return PROCESS; }
        var ok := HandleUnit(data);
        if !ok { return BAD; }
      }
    }

    /** The header of a frame that the session sends: final, without a mask, the length in the shortest form. */
    static method BuildHeader(opcode: nat, size: nat) returns (buf: seq<byte>)
      requires opcode < 16 && size < 0x1_0000_0000_0000_0000
      ensures buf == [128 + opcode, LengthCode(FormOf(size), size)] + LengthBytes(FormOf(size), size)
    {
      if size < 126 {
        buf := [128 + opcode, size];
      } else if size < 0x1_0000 {
        buf := [128 + opcode, 126] + ToBigEndian(size, 2);
      } else {
        buf := [128 + opcode, 127] + ToBigEndian(size, 8);
      }
    }
  }

  /** A call of the handler, one unit at a time. */
  lemma HandleByUnits(w: Ws, buf: seq<byte>)
    requires Inv(w) && w.phase != Payload
    ensures UnitSize(w) == UnitSizeOf(w.phase)
    ensures if |buf| < UnitSize(w) then Handle(w, buf) == Handled(w, buf, [], PROCESS)
            else
              var (v, done, n) := Unit(w, buf[..UnitSize(w)]);
              Handle(w, buf) == if done == [] then Handle(v, buf[n..]) else Handled(v, buf[n..], done, BAD)
  {
    hide BigEndian;
    if |buf| >= UnitSize(w) {
      var unit := buf[..UnitSize(w)];
      assert unit[..UnitSize(w)] == unit;
    }
  }

  function UnitSizeOf(phase: Phase): nat
    requires phase != Payload
  {
    match phase case MiniHeader => 2 case Len16 => 2 case Len64 => 8 case MaskKey => 4
  }

  function FormOf(size: nat): Form { if size < 126 then Short else if size < 0x1_0000 then Middle else Long }

  /** The length that a frame header announces, and the size of the header (section 5.2 of RFC 6455). */
  function Announced(header: seq<byte>): (nat, nat)
    requires |header| >= 2
  {
    var code := header[1] % 128;
    if code == 126 && |header| >= 4 then (BigEndian(header[2..4]), 4)
    else if code == 127 && |header| >= 10 then (BigEndian(header[2..10]), 10)
    else (code, 2)
  }

  /** Whatever follows the header, its length is read back exactly, and the shortest form that fits is used. */
  lemma HeaderRoundTrip(opcode: nat, size: nat, rest: seq<byte>)
    requires opcode < 16 && size < 0x1_0000_0000_0000_0000
    ensures var header := [128 + opcode, LengthCode(FormOf(size), size)] + LengthBytes(FormOf(size), size);
            && Announced(header + rest) == (size, |header|)
            && Fits(FormOf(size), size) && (forall form :: Fits(form, size) ==> |LengthBytes(form, size)| >= |LengthBytes(FormOf(size), size)|)
  {
    hide BigEndian;
    var header: seq<byte> := [128 + opcode, LengthCode(FormOf(size), size)] + LengthBytes(FormOf(size), size);
    WidePower();
    if size >= 126 {
      var k := if size < 0x1_0000 then 2 else 8;
      BigEndianRoundTrip(size, k);
      assert (header + rest)[2..2 + k] == ToBigEndian(size, k);
    }
  }

  lemma MaskedRange(was: seq<byte>, now: seq<byte>, end: nat, begin: nat, mask: seq<byte>)
    requires |mask| == 4 && |now| == |was| && CHEAP_PREPEND + begin <= end <= |was|
    requires forall k | 0 <= k < CHEAP_PREPEND + begin || end <= k < |was| :: now[k] == was[k]
    requires forall k | CHEAP_PREPEND + begin <= k < end :: now[k] == Xor(was[k], mask[(k - CHEAP_PREPEND - begin) % 4])
    ensures var old_data, new_data := was[CHEAP_PREPEND..end], now[CHEAP_PREPEND..end];
            new_data == old_data[..begin] + Masked(old_data[begin..], mask)
  {
    hide Xor;
    var x, y := was[CHEAP_PREPEND..end], now[CHEAP_PREPEND..end];
    forall k | 0 <= k < |y| ensures y[k] == (x[..begin] + Masked(x[begin..], mask))[k] {
      assert y[k] == now[CHEAP_PREPEND + k];
      if k >= begin {
        assert x[begin..][k - begin] == was[CHEAP_PREPEND + k];
        assert Masked(x[begin..], mask)[k - begin] == Xor(was[CHEAP_PREPEND + k], mask[(k - begin) % 4]);
      }
    }
  }
}
