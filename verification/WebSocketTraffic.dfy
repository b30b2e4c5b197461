/** Streams in which control frames come between messages (sections 5.4 and 5.5 of RFC 6455): what every frame
    makes the connection do, under any schedule. */
module WebSocketTraffic {
  import opened Sequences
  import opened ByteBuffers
  import opened WebSocketFrames
  import opened WebSocketMessages

  /** What a peer sends before its connection ends: messages, and pings between them. */
  datatype Item = Data(m: Message) | Ping(f: Piece, fin: bool)

  /** What ends a connection: nothing yet, a close frame, a frame with an opcode that the decoder does not know
      (pongs among them), or the two header bytes of a frame without a mask. */
  datatype Last = Open | CloseFrame(f: Piece, fin: bool) | UnknownFrame(op: nat, f: Piece, fin: bool) | NoMask(first: byte, length: nat)

  predicate Unknown(op: nat) { 2 < op < 8 || 9 < op < 16 }

  ghost predicate ItemOk(i: Item) { match i case Data(m) => Proper(m) case Ping(f, _) => Sendable(f) }

  ghost predicate LastOk(l: Last) {
    match l
    case Open => true
    case CloseFrame(f, _) => Sendable(f)
    case UnknownFrame(op, f, _) => Unknown(op) && Sendable(f)
    case NoMask(_, length) => length < 128
  }

  ghost function ItemWire(i: Item): seq<byte>
    requires ItemOk(i)
  {
    match i case Data(m) => WireFrom(m.fragments, KindCode(m.kind)) case Ping(f, fin) => Wire(f, fin, 9)
  }

  ghost function LastWire(l: Last): seq<byte>
    requires LastOk(l)
  {
    match l
    case Open => []
    case CloseFrame(f, fin) => Wire(f, fin, 8)
    case UnknownFrame(op, f, fin) => Wire(f, fin, op)
    case NoMask(first, length) => [first, length]
  }

  ghost function TrafficWire(items: seq<Item>, last: Last): seq<byte>
    requires LastOk(last) && forall i | 0 <= i < |items| :: ItemOk(items[i])
  {
    if items == [] then LastWire(last) else ItemWire(items[0]) + TrafficWire(items[1..], last)
  }

  /** What has to be done: a message is delivered, a ping is answered. */
  function ItemAction(i: Item): Action {
    match i case Data(m) => Deliver(m.kind, PayloadOf(m.fragments)) case Ping(_, _) => SendPong
  }

  /** `sent` says whether a close has been sent before. */
  function LastActions(l: Last, sent: bool): seq<Action> {
    match l
    case Open => []
    case CloseFrame(_, _) => if sent then [NotifyClose, ForceClose] else [SendClose, ForceClose]
    case UnknownFrame(_, _, _) => [ForceClose]
    case NoMask(_, _) => [ForceClose]
  }

  function TrafficActions(items: seq<Item>, last: Last, sent: bool): seq<Action> {
    if items == [] then LastActions(last, sent) else [ItemAction(items[0])] + TrafficActions(items[1..], last, sent)
  }

  /** A ping is answered once, and nothing of it is left for the frames behind it. */
  lemma PingRead(w: Ws, data: seq<byte>, f: Piece, fin: bool, rest: seq<byte>) returns (v: Ws)
    requires Sendable(f) && Between(w, data)
    ensures Between(v, []) && v.kind == w.kind && v.sentClose == w.sentClose && v.recvClose == w.recvClose
    ensures Decode(w, Wire(f, fin, 9) + rest) == [SendPong] + Decode(v, rest)
  {
    hide Decode, Masked, MiniOf, Wire, Opcode;
    FrameMeans(w, data, f, fin, 9, rest);
    Unmasked(w, data, f, fin, 9);
    v := Fragment(AtEnd(w, f, fin, 9)).0;
  }

  /** A close is answered by a close, or notified if one has been sent, and the connection is cut. */
  lemma CloseRead(w: Ws, data: seq<byte>, f: Piece, fin: bool, rest: seq<byte>) returns (v: Ws)
    requires Sendable(f) && Between(w, data)
    ensures Inv(v) && v.recvClose && v.sentClose && v.phase == MiniHeader
    ensures Decode(w, Wire(f, fin, 8) + rest) ==
            (if w.sentClose then [NotifyClose, ForceClose] else [SendClose, ForceClose]) + Decode(v, rest)
  {
    hide Decode, Masked, MiniOf, Wire, Opcode;
    FrameMeans(w, data, f, fin, 8, rest);
    Unmasked(w, data, f, fin, 8);
    v := Fragment(AtEnd(w, f, fin, 8)).0;
  }

  lemma UnknownRead(w: Ws, data: seq<byte>, op: nat, f: Piece, fin: bool, rest: seq<byte>) returns (v: Ws)
    requires Sendable(f) && Unknown(op) && Between(w, data)
    ensures Inv(v) && v.phase == MiniHeader && Decode(w, Wire(f, fin, op) + rest) == [ForceClose] + Decode(v, rest)
  {
    hide Decode, Masked, MiniOf, Wire, Opcode;
    FrameMeans(w, data, f, fin, op, rest);
    Unmasked(w, data, f, fin, op);
    v := Fragment(AtEnd(w, f, fin, op)).0;
  }

  /** A frame without a mask: two bytes are enough to cut the connection, and the call says BAD. */
  lemma NoMaskRead(w: Ws, first: byte, length: nat, rest: seq<byte>) returns (v: Ws)
    requires Inv(w) && w.phase == MiniHeader && length < 128
    ensures Inv(v) && v == w.(mini := first * 256 + length) && Decode(w, [first, length] + rest) == [ForceClose] + Decode(v, rest)
    ensures Handle(w, [first, length] + rest) == Handled(v, rest, [ForceClose], BAD)
  {
    var header: seq<byte> := [first, length];
    HeaderNumber(first, length);
    assert (header + rest)[..2] == header && (header + rest)[2..] == rest;
    v := w.(mini := first * 256 + length);
    hide Decode, BigEndian;
    assert TakeHeader(w, first * 256 + length) == (v, [ForceClose]);
    HandleStep(w, header, rest);
    assert header[..2] == header && header[2..] == [] && [] + rest == rest;
  }

  lemma HeaderNumber(first: byte, length: nat)
    requires length < 128
    ensures BigEndian([first, length]) == first * 256 + length
    ensures (first * 256 + length) % 128 == length && (first * 256 + length) / 128 % 2 == 0
  {
    var s: seq<byte> := [first, length];
    assert s[..1] == [first] && [first][..0] == [];
    assert BigEndian([first]) == BigEndian([first][..0]) * 256 + first;
    assert (first * 256 + length) / 128 == first * 2;
  }

  lemma ItemRead(w: Ws, i: Item, rest: seq<byte>) returns (v: Ws)
    requires Between(w, []) && ItemOk(i)
    ensures Between(v, []) && v.sentClose == w.sentClose
    ensures Decode(w, ItemWire(i) + rest) == [ItemAction(i)] + Decode(v, rest)
  {
    hide Decode, Wire, WireFrom, PayloadOf, Sendable;
    match i
    case Data(m) =>
      v := FragmentsRead(w, [], m.fragments, KindCode(m.kind), rest);
      assert [] + PayloadOf(m.fragments) == PayloadOf(m.fragments);
    case Ping(f, fin) => v := PingRead(w, [], f, fin, rest);
  }

  lemma LastRead(w: Ws, l: Last)
    requires Between(w, []) && LastOk(l)
    ensures Decode(w, LastWire(l)) == LastActions(l, w.sentClose)
  {
    hide Decode, Wire, Sendable;
    assert LastWire(l) + [] == LastWire(l);
    match l
    case Open => Nothing(w);
    case CloseFrame(f, fin) => var v := CloseRead(w, [], f, fin, []); Nothing(v);
    case UnknownFrame(op, f, fin) => var v := UnknownRead(w, [], op, f, fin, []); Nothing(v);
    case NoMask(first, length) => var v := NoMaskRead(w, first, length, []); Nothing(v);
  }

  lemma Nothing(w: Ws)
    requires Inv(w) && w.phase == MiniHeader
    ensures Decode(w, []) == []
  {
  }

  lemma {:induction false} TrafficRead(w: Ws, items: seq<Item>, last: Last)
    requires Between(w, []) && LastOk(last) && forall i | 0 <= i < |items| :: ItemOk(items[i])
    ensures Decode(w, TrafficWire(items, last)) == TrafficActions(items, last, w.sentClose)
    decreases |items|
  {
    hide Decode, ItemOk, LastOk, ItemWire, LastWire, ItemAction, LastActions;
    if items == [] {
      LastRead(w, last);
    } else {
      var v := ItemRead(w, items[0], TrafficWire(items[1..], last));
      TrafficRead(v, items[1..], last);
    }
  }

  /** A connection on which a close has been sent, or not. */
  function Opened(sent: bool): Socket { Socket(START.(sentClose := sent), [], []) }

  /** Under every schedule the actions done are a prefix of those that the stream asks for, message by message and
      control frame by control frame, and all of them when everything has arrived and no complete frame waits. */
  lemma Traffic(items: seq<Item>, last: Last, sent: bool, events: seq<Event>, future: seq<byte>)
    requires LastOk(last) && forall i | 0 <= i < |items| :: ItemOk(items[i])
    requires Arrived(events) + future == TrafficWire(items, last)
    ensures var r, all := RunAll(Opened(sent), events), TrafficActions(items, last, sent);
            r.done <= all && (Waiting(r) == 0 && future == [] ==> r.done == all)
  {
    hide Decode, RunAll, Frames, TrafficWire, TrafficActions;
    var c := Opened(sent);
    TrafficRead(c.w, items, last);
    RunMeaning(c, events, future);
    var r := RunAll(c, events);
    assert [] + Arrived(events) + future == Arrived(events) + future;
    assert [] + Decode(c.w, Arrived(events) + future) == Decode(c.w, Arrived(events) + future);
    if Waiting(r) == 0 && future == [] {
      assert r.buf + [] == r.buf;
      NothingWaits(r.w, r.buf);
      assert r.done + [] == r.done;
    }
  }

  /** A ping inside a message is answered too, but it takes the fragments before it away: what is delivered is the
      payload of the fragments behind it. */
  lemma PingInside(w: Ws, kind: Kind, f: Piece, ping: Piece, more: seq<Piece>, rest: seq<byte>) returns (v: Ws)
    requires Between(w, []) && Sendable(f) && Sendable(ping) && more != [] && forall i | 0 <= i < |more| :: Sendable(more[i])
    ensures Between(v, [])
    ensures Decode(w, Wire(f, false, KindCode(kind)) + (Wire(ping, true, 9) + (WireFrom(more, 0) + rest))) ==
            [SendPong, Deliver(kind, PayloadOf(more))] + Decode(v, rest)
    ensures PayloadOf([f] + more) == PayloadOf(more) <==> f.payload == []
  {
    hide Decode, Wire, WireFrom, PayloadOf, Sendable;
    var behind := WireFrom(more, 0) + rest;
    var a := FrameRead(w, [], f, false, KindCode(kind), Wire(ping, true, 9) + behind);
    var b := PingRead(a, [] + f.payload, ping, true, behind);
    v := FragmentsRead(b, [], more, 0, rest);
    assert [] + Decode(a, Wire(ping, true, 9) + behind) == Decode(a, Wire(ping, true, 9) + behind);
    assert [] + PayloadOf(more) == PayloadOf(more);
    assert [SendPong] + ([Deliver(kind, PayloadOf(more))] + Decode(v, rest)) == [SendPong, Deliver(kind, PayloadOf(more))] + Decode(v, rest);
    FirstPayload(f, more);
  }

  lemma FirstPayload(f: Piece, more: seq<Piece>)
    ensures PayloadOf([f] + more) == f.payload + PayloadOf(more)
    ensures f.payload + PayloadOf(more) == PayloadOf(more) <==> f.payload == []
  {
    assert ([f] + more)[1..] == more;
    assert |f.payload + PayloadOf(more)| == |f.payload| + |PayloadOf(more)|;
  }
}
