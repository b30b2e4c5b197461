/** Messages that arrive as masked, possibly fragmented frames are delivered as they were sent. */
module WebSocketMessages {
  import opened ByteBuffers
  import opened Sequences
  import opened WebSocketFrames

  // ---------- Runs ----------

  /** What can happen to a connection: bytes arrive, or the handler is called. */
  datatype Event = Arrive(bytes: seq<byte>) | Call

  datatype Socket = Socket(w: Ws, buf: seq<byte>, done: seq<Action>)

  function Apply(c: Socket, e: Event): Socket
    requires Inv(c.w)
  {
    match e
    case Arrive(bytes) => c.(buf := c.buf + bytes)
    case Call => var r := Handle(c.w, c.buf); Socket(r.w, r.rest, c.done + r.actions)
  }

  function Arrived(events: seq<Event>): seq<byte> {
    if events == [] then [] else (if events[0].Arrive? then events[0].bytes else []) + Arrived(events[1..])
  }

  function RunAll(c: Socket, events: seq<Event>): (r: Socket)
    requires Inv(c.w)
    ensures Inv(r.w)
    decreases |events|
  {
    if events == [] then c
    else
      HandleKeeps(c.w, c.buf);
      RunAll(Apply(c, events[0]), events[1..])
  }

  /** Whatever the schedule, what has been done together with what is still to come is what the whole stream
      means; `future` are bytes that have not arrived yet. */
  lemma {:induction false} RunMeaning(c: Socket, events: seq<Event>, future: seq<byte>)
    requires Inv(c.w)
    ensures var r := RunAll(c, events);
            && Inv(r.w)
            && c.done + Decode(c.w, c.buf + Arrived(events) + future) == r.done + Decode(r.w, r.buf + future)
    decreases |events|
  {
    hide Decode, Handle;
    if events == [] {
      assert c.buf + [] == c.buf;
    } else {
      var d := Apply(c, events[0]);
      var f := Arrived(events[1..]) + future;
      HandleStep(c.w, c.buf, f);
      RunMeaning(d, events[1..], future);
      match events[0]
      case Arrive(bytes) =>
        assert c.buf + (bytes + Arrived(events[1..])) + future == (c.buf + bytes) + Arrived(events[1..]) + future;
      case Call =>
        var r := Handle(c.w, c.buf);
        assert Arrived(events) == Arrived(events[1..]) by { assert [] + Arrived(events[1..]) == Arrived(events[1..]); }
        assert c.buf + Arrived(events[1..]) + future == c.buf + f;
        assert r.rest + f == r.rest + Arrived(events[1..]) + future;
        assert c.done + (r.actions + Decode(r.w, r.rest + f)) == (c.done + r.actions) + Decode(r.w, r.rest + f);
    }
  }

  const OPEN := Socket(START, [], [])

  // ---------- How many calls it takes ----------

  /** The unit ends the call that reads it: the payload of a frame, or the header of a frame without a mask. */
  predicate EndsCall(w: Ws, s: seq<byte>)
    requires Inv(w) && UnitSize(w) <= |s|
  {
    w.phase == Payload || Unit(w, s).1 != []
  }

  /** How many frames are complete in a stream; one without a mask ends with its header. */
  function Frames(w: Ws, s: seq<byte>): nat
    requires Inv(w)
    decreases |s|, w.phase == Payload
  {
    if |s| < UnitSize(w) then 0
    else (if EndsCall(w, s) then 1 else 0) + Frames(Unit(w, s).0, s[UnitSize(w)..])
  }

  lemma FramesPartial(w: Ws, a: seq<byte>, f: seq<byte>)
    requires Inv(w) && w.phase == Payload && |a| < w.need
    ensures Frames(w, a + f) == Frames(w.(data := w.data + a, need := w.need - |a|), f) && Frames(w, a) == 0
  {
    hide Fragment;
    var v := w.(data := w.data + a, need := w.need - |a|);
    var s := a + f;
    if |s| >= w.need {
      var n := w.need - |a|;
      assert s[..w.need] == a + f[..n];
      assert w.data + (a + f[..n]) == v.data + f[..n];
      assert s[w.need..] == f[n..];
    }
  }

  lemma FramesUnit(w: Ws, buf: seq<byte>, f: seq<byte>)
    requires Inv(w) && UnitSize(w) <= |buf|
    ensures Unit(w, buf + f) == Unit(w, buf)
    ensures Frames(w, buf + f) == (if EndsCall(w, buf) then 1 else 0) + Frames(Unit(w, buf).0, buf[UnitSize(w)..] + f)
  {
    hide Fragment, TakeHeader;
    UnitAgain(w, buf, f);
    var n := UnitSize(w);
    assert (buf + f)[n..] == buf[n..] + f;
  }

  lemma FramesNone(w: Ws, buf: seq<byte>)
    requires Inv(w) && |buf| < UnitSize(w)
    ensures Frames(w, buf) == 0
  {
  }

  /** A call takes one frame if one is complete, and none otherwise. */
  lemma {:induction false} HandleFrames(w: Ws, buf: seq<byte>, f: seq<byte>)
    requires Inv(w)
    ensures var r := Handle(w, buf);
            Inv(r.w) && Frames(w, buf + f) == (if Frames(w, buf) > 0 then 1 else 0) + Frames(r.w, r.rest + f)
    decreases |buf|
  {
    hide Frames, Fragment, TakeHeader;
    HandleKeeps(w, buf);
    assert buf + [] == buf;
    if |buf| < UnitSize(w) {
      FramesNone(w, buf);
      if w.phase == Payload {
        FramesPartial(w, buf, f);
        assert buf[..|buf|] == buf && buf[|buf|..] + f == f;
      }
    } else {
      FramesUnit(w, buf, f);
      FramesUnit(w, buf, []);
      var v, rest := Unit(w, buf).0, buf[UnitSize(w)..];
      assert rest + [] == rest;
      if !EndsCall(w, buf) { HandleFrames(v, rest, f); }
    }
  }

  /** How many complete frames wait in the buffer. */
  function Waiting(c: Socket): nat
    requires Inv(c.w)
  {
    Frames(c.w, c.buf)
  }

  /** With no complete frame in the buffer there is nothing to do. */
  lemma {:induction false} NothingWaits(w: Ws, s: seq<byte>)
    requires Inv(w) && Frames(w, s) == 0
    ensures Decode(w, s) == []
    decreases |s|, w.phase == Payload
  {
    hide Fragment, TakeHeader;
    if |s| >= UnitSize(w) { NothingWaits(Unit(w, s).0, s[UnitSize(w)..]); }
  }

  // ---------- Any schedule of calls ----------

  /** Over every schedule the actions done are a prefix of those the stream asks for, and all of them once
      the stream has arrived and no complete frame waits in the buffer. */
  lemma AnySchedule(events: seq<Event>, future: seq<byte>)
    ensures var r := RunAll(OPEN, events);
            && r.done <= Decode(START, Arrived(events) + future)
            && (Waiting(r) == 0 && future == [] ==> r.done == Decode(START, Arrived(events)))
  {
    hide Decode, RunAll, Frames;
    RunMeaning(OPEN, events, future);
    var r := RunAll(OPEN, events);
    assert [] + Arrived(events) + future == Arrived(events) + future;
    assert [] + Decode(START, Arrived(events) + future) == Decode(START, Arrived(events) + future);
    if Waiting(r) == 0 && future == [] {
      assert r.buf + [] == r.buf && Arrived(events) + [] == Arrived(events);
      NothingWaits(r.w, r.buf);
      assert r.done + [] == r.done;
    }
  }

  function Calls(k: nat): seq<Event> { if k == 0 then [] else [Call] + Calls(k - 1) }

  /** Every call takes one of the frames that wait: the buffer holds no complete frame any more after exactly as
      many calls as there were frames. */
  lemma {:induction false} CallsDrain(c: Socket, k: nat)
    requires Inv(c.w)
    ensures var r := RunAll(c, Calls(k));
            Inv(r.w) && Waiting(r) == if k < Waiting(c) then Waiting(c) - k else 0
    decreases k
  {
    hide Frames, Handle;
    if k > 0 {
      HandleFrames(c.w, c.buf, []);
      var d := Apply(c, Call);
      assert c.buf + [] == c.buf && d.buf + [] == d.buf;
      assert Calls(k)[1..] == Calls(k - 1);
      CallsDrain(d, k - 1);
    }
  }

  /** One read of the socket: bytes arrive and the handler is called once. */
  function ReadOnce(c: Socket, bytes: seq<byte>): (r: Socket)
    requires Inv(c.w)
    ensures Inv(r.w)
  {
    HandleKeeps(c.w, c.buf + bytes);
    Apply(Apply(c, Arrive(bytes)), Call)
  }

  /** No frame is left waiting after any of these reads. */
  predicate Prompt(c: Socket, inputs: seq<seq<byte>>)
    requires Inv(c.w)
    decreases |inputs|
  {
    inputs == [] || (Waiting(ReadOnce(c, inputs[0])) == 0 && Prompt(ReadOnce(c, inputs[0]), inputs[1..]))
  }

  /** Every read completes at most one frame of the stream, of which `s` has arrived. */
  predicate Singly(s: seq<byte>, inputs: seq<seq<byte>>)
    decreases |inputs|
  {
    inputs == [] || (Frames(START, s + inputs[0]) <= Frames(START, s) + 1 && Singly(s + inputs[0], inputs[1..]))
  }

  /** One call for each read is enough if and only if no read completes more than one frame. */
  lemma OneCallEach(inputs: seq<seq<byte>>)
    ensures Prompt(OPEN, inputs) <==> Singly([], inputs)
  {
    hide Prompt, Singly, Frames;
    forall f: seq<byte> ensures Frames(START, [] + f) == 0 + Frames(OPEN.w, OPEN.buf + f) {}
    FramesNone(START, []);
    PromptFrom(OPEN, [], 0, inputs);
  }

  lemma {:induction false} PromptFrom(c: Socket, s: seq<byte>, taken: nat, inputs: seq<seq<byte>>)
    requires Inv(c.w) && Waiting(c) == 0
    requires forall f: seq<byte> :: Frames(START, s + f) == taken + Frames(c.w, c.buf + f)
    ensures Prompt(c, inputs) <==> Singly(s, inputs)
    decreases |inputs|
  {
    hide Frames, Handle;
    if inputs != [] {
      var b := inputs[0];
      var d, all := ReadOnce(c, b), c.buf + b;
      var more := Frames(c.w, all);
      assert s + [] == s && c.buf + [] == c.buf;
      assert Frames(START, s) == taken by { assert Frames(START, s + []) == taken + Frames(c.w, c.buf + []); }
      assert Frames(START, s + b) == taken + more;
      HandleFrames(c.w, all, []);
      assert all + [] == all && d.buf + [] == d.buf;
      if Waiting(d) == 0 {
        var now := taken + if more > 0 then 1 else 0;
        forall f: seq<byte> ensures Frames(START, (s + b) + f) == now + Frames(d.w, d.buf + f) {
          assert (s + b) + f == s + (b + f) && c.buf + (b + f) == all + f;
          assert Frames(START, s + (b + f)) == taken + Frames(c.w, c.buf + (b + f));
          HandleFrames(c.w, all, f);
        }
        PromptFrom(d, s + b, now, inputs[1..]);
      }
    }
  }

  // ---------- Sent frames ----------

  /** How the length of a payload is written (section 5.2): seven, sixteen or sixty-four bits. */
  datatype Form = Short | Middle | Long

  predicate Fits(form: Form, n: nat) {
    match form case Short => n < 126 case Middle => n < 0x1_0000 case Long => n < 0x1_0000_0000_0000_0000
  }

  function LengthCode(form: Form, n: nat): nat { match form case Short => n case Middle => 126 case Long => 127 }

  function LengthBytes(form: Form, n: nat): seq<byte> {
    match form case Short => [] case Middle => ToBigEndian(n, 2) case Long => ToBigEndian(n, 8)
  }

  /** A fragment of a message: its payload, the mask it is sent with, the form of its length and the reserved
      bits, which the decoder does not look at. */
  datatype Piece = Piece(payload: seq<byte>, mask: seq<byte>, form: Form, rsv: nat)

  ghost predicate Sendable(f: Piece) { |f.mask| == 4 && Fits(f.form, |f.payload|) && f.rsv < 8 }

  function HeaderBytes(f: Piece, fin: bool, op: nat): seq<byte>
    requires Sendable(f) && op < 16
  {
    [(if fin then 128 else 0) + f.rsv * 16 + op, 128 + LengthCode(f.form, |f.payload|)]
  }

  /** A frame on the wire. */
  function Wire(f: Piece, fin: bool, op: nat): seq<byte>
    requires Sendable(f) && op < 16
  {
    HeaderBytes(f, fin, op) + LengthBytes(f.form, |f.payload|) + f.mask + Masked(f.payload, f.mask)
  }

  /** A message: the first frame carries its kind, the others are continuations, the last is final. */
  datatype Message = Message(kind: Kind, fragments: seq<Piece>)

  function KindCode(k: Kind): nat { if k == Text then 1 else 2 }

  /** The frames from some fragment on; `op` belongs to the first of them. */
  function WireFrom(fs: seq<Piece>, op: nat): seq<byte>
    requires op < 16 && forall i | 0 <= i < |fs| :: Sendable(fs[i])
  {
    if fs == [] then [] else Wire(fs[0], |fs| == 1, op) + WireFrom(fs[1..], 0)
  }

  ghost predicate Proper(m: Message) {
    m.fragments != [] && forall i | 0 <= i < |m.fragments| :: Sendable(m.fragments[i])
  }

  function PayloadOf(fs: seq<Piece>): seq<byte> {
    if fs == [] then [] else fs[0].payload + PayloadOf(fs[1..])
  }

  function WireAll(ms: seq<Message>): seq<byte>
    requires forall i | 0 <= i < |ms| :: Proper(ms[i])
  {
    if ms == [] then []
    else
      assert Proper(ms[0]);
      WireFrom(ms[0].fragments, KindCode(ms[0].kind)) + WireAll(ms[1..])
  }

  function Deliveries(ms: seq<Message>): seq<Action> {
    if ms == [] then [] else [Deliver(ms[0].kind, PayloadOf(ms[0].fragments))] + Deliveries(ms[1..])
  }

  /** A decoder between two frames, with `data` of the message so far, unmasked. */
  ghost predicate Between(w: Ws, data: seq<byte>) { Inv(w) && w.phase == MiniHeader && w.data == data && w.begin == |data| }

  function MiniOf(f: Piece, fin: bool, op: nat): nat
    requires Sendable(f) && op < 16
  {
    ((if fin then 128 else 0) + f.rsv * 16 + op) * 256 + 128 + LengthCode(f.form, |f.payload|)
  }

  lemma MiniRead(f: Piece, fin: bool, op: nat)
    requires Sendable(f) && op < 16
    ensures var mini := MiniOf(f, fin, op);
            && mini / 128 % 2 == 1 && mini % 128 == LengthCode(f.form, |f.payload|)
            && mini / 0x8000 % 2 == (if fin then 1 else 0) && mini / 0x100 % 16 == op
            && BigEndian(HeaderBytes(f, fin, op)) == mini
  {
    var a, b := (if fin then 128 else 0) + f.rsv * 16 + op, 128 + LengthCode(f.form, |f.payload|);
    var s: seq<byte> := [a, b];
    assert s[..1] == [a] && [a][..0] == [];
    assert BigEndian([a]) == BigEndian([a][..0]) * 256 + a;
    assert MiniOf(f, fin, op) == a * 256 + b;
    assert (a * 256 + b) / 128 == a * 2 + 1 && (a * 256 + b) / 0x100 == a && (a * 256 + b) / 0x8000 == a / 128;
  }

  /** A call reads on over a complete unit that does nothing. */
  lemma OneUnit(w: Ws, unit: seq<byte>, rest: seq<byte>)
    requires Inv(w) && |unit| == UnitSize(w) && w.phase != Payload && Unit(w, unit).1 == []
    ensures Handle(w, unit + rest) == Handle(Unit(w, unit).0, rest)
  {
    hide Fragment, TakeHeader;
    var n := |unit|;
    assert (unit + rest)[..n] == unit && unit[..n] == unit && (unit + rest)[n..] == rest;
  }

  function KindOf(op: nat, k: Kind): Kind { if op == 1 then Text else if op == 2 then Binary else k }

  function AfterHeader(w: Ws, f: Piece, mini: nat): Ws {
    match f.form
    case Short => w.(mini := mini, phase := MaskKey, need := |f.payload|)
    case Middle => w.(mini := mini, phase := Len16)
    case Long => w.(mini := mini, phase := Len64)
  }

  lemma HeaderRead(w: Ws, f: Piece, fin: bool, op: nat, rest: seq<byte>)
    requires Sendable(f) && op < 16 && Inv(w) && w.phase == MiniHeader
    ensures Handle(w, HeaderBytes(f, fin, op) + rest) == Handle(AfterHeader(w, f, MiniOf(f, fin, op)), rest)
  {
    hide Handle, BigEndian;
    var header, mini := HeaderBytes(f, fin, op), MiniOf(f, fin, op);
    MiniRead(f, fin, op);
    assert header[..2] == header;
    assert TakeHeader(w, mini) == (AfterHeader(w, f, mini), []);
    OneUnit(w, header, rest);
  }

  /** The header and the length of a frame. */
  lemma LengthRead(w: Ws, f: Piece, fin: bool, op: nat, rest: seq<byte>) returns (v: Ws)
    requires Sendable(f) && op < 16 && Inv(w) && w.phase == MiniHeader
    ensures v == w.(mini := MiniOf(f, fin, op), phase := MaskKey, need := |f.payload|)
    ensures Handle(w, HeaderBytes(f, fin, op) + (LengthBytes(f.form, |f.payload|) + rest)) == Handle(v, rest)
  {
    hide Handle, HeaderBytes, MiniOf, BigEndian;
    var n, mini := |f.payload|, MiniOf(f, fin, op);
    HeaderRead(w, f, fin, op, LengthBytes(f.form, n) + rest);
    var u := AfterHeader(w, f, mini);
    v := w.(mini := mini, phase := MaskKey, need := n);
    if f.form == Short {
      assert LengthBytes(f.form, n) + rest == rest;
    } else {
      var k := if f.form == Middle then 2 else 8;
      WidePower();
      BigEndianRoundTrip(n, k);
      var bytes := ToBigEndian(n, k);
      assert bytes[..k] == bytes;
      OneUnit(u, bytes, rest);
    }
  }

  lemma WidePower()
    ensures Pow256(2) == 0x1_0000 && Pow256(8) == 0x1_0000_0000_0000_0000
  {
    assert Pow256(4) == 0x1_0000_0000;
    assert Pow256(6) == 0x1_0000 * Pow256(4);
  }

  /** The decoder when the payload of a frame is complete, before it is unmasked. */
  function AtEnd(w: Ws, f: Piece, fin: bool, op: nat): Ws
    requires Sendable(f) && op < 16
  {
    w.(mini := MiniOf(f, fin, op), phase := MiniHeader, need := 0, mask := f.mask, data := w.data + Masked(f.payload, f.mask))
  }

  lemma WireParts(f: Piece, fin: bool, op: nat, rest: seq<byte>)
    requires Sendable(f) && op < 16
    ensures Wire(f, fin, op) + rest ==
            HeaderBytes(f, fin, op) + (LengthBytes(f.form, |f.payload|) + (f.mask + (Masked(f.payload, f.mask) + rest)))
  {
    hide Masked, LengthBytes, HeaderBytes;
  }

  /** One call on a buffer that begins with a frame takes exactly that frame; it says FINISH exactly if the final
      bit is set. */
  lemma FrameTaken(w: Ws, data: seq<byte>, f: Piece, fin: bool, op: nat, rest: seq<byte>)
    requires Sendable(f) && op < 16 && Between(w, data)
    ensures var b := AtEnd(w, f, fin, op);
            Inv(b) && Handle(w, Wire(f, fin, op) + rest) ==
                      Handled(Fragment(b).0, rest, Fragment(b).1, if fin then FINISH else PROCESS)
  {
    var masked, b := Masked(f.payload, f.mask), AtEnd(w, f, fin, op);
    WireParts(f, fin, op, rest);
    MiniRead(f, fin, op);
    hide Handle, LengthBytes, LengthCode, HeaderBytes, MiniOf, Wire;
    var a := LengthRead(w, f, fin, op, f.mask + (masked + rest));
    assert f.mask[..4] == f.mask;
    OneUnit(a, f.mask, masked + rest);
    PayloadTaken(a.(mask := f.mask, phase := Payload), masked, rest);
    FragmentKeepsMini(b);
  }

  lemma PayloadTaken(a: Ws, payload: seq<byte>, rest: seq<byte>)
    requires Inv(a) && a.phase == Payload && a.need == |payload|
    ensures var b := a.(phase := MiniHeader, need := 0, data := a.data + payload);
            Handle(a, payload + rest) ==
            Handled(Fragment(b).0, rest, Fragment(b).1, if IsFin(Fragment(b).0) then FINISH else PROCESS)
  {
    hide Fragment;
    var n := |payload|;
    assert (payload + rest)[..n] == payload && (payload + rest)[n..] == rest;
  }

  lemma FragmentKeepsMini(b: Ws)
    requires Inv(b)
    ensures Fragment(b).0.mini == b.mini
  {
  }

  /** What a frame means in a stream. */
  lemma FrameMeans(w: Ws, data: seq<byte>, f: Piece, fin: bool, op: nat, rest: seq<byte>)
    requires Sendable(f) && op < 16 && Between(w, data)
    ensures var b := AtEnd(w, f, fin, op);
            Inv(b) && Inv(Fragment(b).0)
            && Decode(w, Wire(f, fin, op) + rest) == Fragment(b).1 + Decode(Fragment(b).0, rest)
  {
    hide Decode, Handle, Fragment, Wire, AtEnd;
    FrameTaken(w, data, f, fin, op, []);
    HandleStep(w, Wire(f, fin, op), rest);
    assert Wire(f, fin, op) + [] == Wire(f, fin, op) && [] + rest == rest;
  }

  /** The payload of the frame that ends is unmasked; what was there before it stays. */
  lemma Unmasked(w: Ws, data: seq<byte>, f: Piece, fin: bool, op: nat)
    requires Sendable(f) && op < 16 && Between(w, data)
    ensures var b := AtEnd(w, f, fin, op);
            && b.begin == |data| <= |b.data| && |b.mask| == 4
            && b.data[..b.begin] + Masked(b.data[b.begin..], b.mask) == data + f.payload
            && Opcode(b) == op && IsFin(b) == fin
  {
    MiniRead(f, fin, op);
    MaskTwice(f.payload, f.mask);
    var masked := Masked(f.payload, f.mask);
    assert (data + masked)[..|data|] == data && (data + masked)[|data|..] == masked;
    hide Masked, MiniOf;
  }

  /** One frame: its payload is added to the message, which is delivered if the frame is final. */
  lemma FrameRead(w: Ws, data: seq<byte>, f: Piece, fin: bool, op: nat, rest: seq<byte>) returns (v: Ws)
    requires Sendable(f) && op <= 2 && Between(w, data)
    ensures v.kind == KindOf(op, w.kind) && Between(v, if fin then [] else data + f.payload)
    ensures v.sentClose == w.sentClose
    ensures Decode(w, Wire(f, fin, op) + rest) ==
            (if fin then [Deliver(v.kind, data + f.payload)] else []) + Decode(v, rest)
  {
    hide Decode, Masked, MiniOf, Wire, Opcode;
    FrameMeans(w, data, f, fin, op, rest);
    Unmasked(w, data, f, fin, op);
    v := Fragment(AtEnd(w, f, fin, op)).0;
  }

  lemma {:induction false} FragmentsRead(w: Ws, data: seq<byte>, fs: seq<Piece>, op: nat, rest: seq<byte>) returns (v: Ws)
    requires fs != [] && op <= 2 && Between(w, data) && forall i | 0 <= i < |fs| :: Sendable(fs[i])
    ensures Between(v, []) && v.sentClose == w.sentClose
    ensures Decode(w, WireFrom(fs, op) + rest) == [Deliver(KindOf(op, w.kind), data + PayloadOf(fs))] + Decode(v, rest)
    decreases |fs|
  {
    hide Decode, Wire, Sendable, Inv, WireFrom, PayloadOf, KindOf;
    var f, tail := fs[0], fs[1..];
    FirstFragment(fs, op, data, rest);
    var u := FrameRead(w, data, f, tail == [], op, WireFrom(tail, 0) + rest);
    if tail == [] {
      NoFragments(tail, data + f.payload, rest);
      v := u;
    } else {
      v := FragmentsRead(u, data + f.payload, tail, 0, rest);
      KindKept(op, w.kind);
      assert [] + Decode(u, WireFrom(tail, 0) + rest) == Decode(u, WireFrom(tail, 0) + rest);
    }
  }

  lemma KindKept(op: nat, kind: Kind)
    ensures KindOf(0, KindOf(op, kind)) == KindOf(op, kind)
  {
  }

  lemma FirstFragment(fs: seq<Piece>, op: nat, data: seq<byte>, rest: seq<byte>)
    requires fs != [] && op < 16 && forall i | 0 <= i < |fs| :: Sendable(fs[i])
    ensures WireFrom(fs, op) + rest == Wire(fs[0], fs[1..] == [], op) + (WireFrom(fs[1..], 0) + rest)
    ensures data + PayloadOf(fs) == (data + fs[0].payload) + PayloadOf(fs[1..])
  {
    FirstWire(fs, op);
    hide Wire, Sendable, WireFrom, PayloadOf;
    Regroup(Wire(fs[0], fs[1..] == [], op), WireFrom(fs[1..], 0), rest);
    FirstBytes(fs);
    Regroup(data, fs[0].payload, PayloadOf(fs[1..]));
  }

  lemma FirstWire(fs: seq<Piece>, op: nat)
    requires fs != [] && op < 16 && forall i | 0 <= i < |fs| :: Sendable(fs[i])
    ensures WireFrom(fs, op) == Wire(fs[0], fs[1..] == [], op) + WireFrom(fs[1..], 0)
  {
    hide Wire, Sendable;
  }

  lemma FirstBytes(fs: seq<Piece>)
    requires fs != []
    ensures PayloadOf(fs) == fs[0].payload + PayloadOf(fs[1..])
  {
  }

  lemma NoFragments(fs: seq<Piece>, data: seq<byte>, rest: seq<byte>)
    requires fs == []
    ensures WireFrom(fs, 0) + rest == rest && data + PayloadOf(fs) == data
  {
  }

  lemma {:induction false} MessagesRead(w: Ws, ms: seq<Message>)
    requires Between(w, []) && forall i | 0 <= i < |ms| :: Proper(ms[i])
    ensures Decode(w, WireAll(ms)) == Deliveries(ms)
    decreases |ms|
  {
    hide WireFrom, PayloadOf;
    if ms != [] {
      hide Decode;
      var m := ms[0];
      assert Proper(m);
      var v := FragmentsRead(w, [], m.fragments, KindCode(m.kind), WireAll(ms[1..]));
      assert [] + PayloadOf(m.fragments) == PayloadOf(m.fragments);
      MessagesRead(v, ms[1..]);
    }
  }

  /** Sections 5.2 to 5.4 of RFC 6455: however the bytes arrive and whenever the handler is called, the
      messages delivered are a prefix of those sent, each with its kind and its whole payload, and all of
      them once everything has arrived and no complete frame waits in the buffer. */
  lemma Reassembly(ms: seq<Message>, events: seq<Event>, future: seq<byte>)
    requires (forall i | 0 <= i < |ms| :: Proper(ms[i])) && Arrived(events) + future == WireAll(ms)
    ensures var r := RunAll(OPEN, events);
            r.done <= Deliveries(ms) && (Waiting(r) == 0 && future == [] ==> r.done == Deliveries(ms))
  {
    hide RunAll, Decode;
    AnySchedule(events, future);
    MessagesRead(START, ms);
    if future == [] { assert Arrived(events) + future == Arrived(events); }
  }

  /** One call of the handler for each read. */
  function Schedule(inputs: seq<seq<byte>>): seq<Event> {
    if inputs == [] then [] else [Arrive(inputs[0]), Call] + Schedule(inputs[1..])
  }

  lemma {:induction false} PromptEnd(c: Socket, inputs: seq<seq<byte>>)
    requires Inv(c.w) && Waiting(c) == 0 && Prompt(c, inputs)
    ensures Waiting(RunAll(c, Schedule(inputs))) == 0
    decreases |inputs|
  {
    hide Frames, Handle;
    if inputs != [] {
      var events := Schedule(inputs);
      assert events[1..][0] == Call && events[1..][1..] == Schedule(inputs[1..]);
      HandleKeeps(c.w, c.buf);
      assert RunAll(c, events) == RunAll(ReadOnce(c, inputs[0]), Schedule(inputs[1..]));
      PromptEnd(ReadOnce(c, inputs[0]), inputs[1..]);
    }
  }

  /** With one call for each read, messages are all delivered when the last byte has been read if no read
      completes more than one frame. */
  lemma ReadsDeliver(ms: seq<Message>, inputs: seq<seq<byte>>)
    requires (forall i | 0 <= i < |ms| :: Proper(ms[i])) && Arrived(Schedule(inputs)) == WireAll(ms) && Singly([], inputs)
    ensures RunAll(OPEN, Schedule(inputs)).done == Deliveries(ms)
  {
    hide RunAll, Frames, Prompt, Singly, Proper;
    OneCallEach(inputs);
    FramesNone(START, []);
    PromptEnd(OPEN, inputs);
    assert Arrived(Schedule(inputs)) + [] == WireAll(ms);
    Reassembly(ms, Schedule(inputs), []);
  }
}
