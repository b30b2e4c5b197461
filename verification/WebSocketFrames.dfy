/** Decoding of WebSocket frames (section 5.2 of RFC 6455) as `WebSocket` does it, on values: what one
    call of the handler does with the bytes that are there, and what a whole stream of bytes means. */
module WebSocketFrames {
  import opened Arithmetic
  import opened ByteBuffers

  datatype Phase = MiniHeader | Len16 | Len64 | MaskKey | Payload
  datatype Kind = Text | Binary
  datatype Action = Deliver(kind: Kind, payload: seq<byte>) | SendPong | SendClose | NotifyClose | ForceClose
  datatype Reply = PROCESS | FINISH | BAD

  /** The decoder between two reads. `data` is the payload of the message so far; it is unmasked up to
      `begin`. */
  datatype Ws = Ws(
    phase: Phase, mini: nat, need: nat, mask: seq<byte>, data: seq<byte>, begin: nat,
    kind: Kind, recvClose: bool, sentClose: bool)

  ghost predicate Inv(w: Ws) { w.begin <= |w.data| && |w.mask| == 4 }

  const START := Ws(MiniHeader, 0, 0, [0, 0, 0, 0], [], 0, Binary, false, false)

  // ---------- Bytes ----------

  /** Exclusive or of the low `k` bits. */
  function XorBits(a: nat, b: nat, k: nat): (r: nat) {
    if k == 0 then 0 else (a % 2 + b % 2) % 2 + 2 * XorBits(a / 2, b / 2, k - 1)
  }

  lemma {:induction false} XorBelow(a: nat, b: nat, k: nat)
    ensures XorBits(a, b, k) < Pow2(k)
  {
    if k > 0 { XorBelow(a / 2, b / 2, k - 1); }
  }

  lemma {:induction false} XorTwice(a: nat, b: nat, k: nat)
    requires a < Pow2(k)
    ensures XorBits(XorBits(a, b, k), b, k) == a
  {
    if k > 0 {
      assert a / 2 < Pow2(k - 1);
      XorTwice(a / 2, b / 2, k - 1);
      hide Pow2;
      var r := XorBits(a / 2, b / 2, k - 1);
      LowBit(a % 2, b % 2, r);
      assert XorBits(a, b, k) == (a % 2 + b % 2) % 2 + 2 * r;
    }
  }

  lemma LowBit(a: nat, b: nat, r: nat)
    requires a < 2 && b < 2
    ensures var x := (a + b) % 2 + 2 * r; x % 2 == (a + b) % 2 && x / 2 == r && (x % 2 + b) % 2 == a
  {
  }

  function Xor(a: byte, b: byte): byte {
    XorBelow(a, b, 8);
    assert Pow2(8) == 256 by { assert Pow2(4) == 16; }
    XorBits(a, b, 8)
  }

  lemma XorByteTwice(a: byte, b: byte)
    ensures Xor(Xor(a, b), b) == a
  {
    assert Pow2(8) == 256 by { assert Pow2(4) == 16; }
    XorTwice(a, b, 8);
  }

  /** A payload with the mask applied to it. */
  function Masked(payload: seq<byte>, mask: seq<byte>): (r: seq<byte>)
    requires |mask| == 4
    ensures |r| == |payload| && forall i | 0 <= i < |r| :: r[i] == Xor(payload[i], mask[i % 4])
  {
    seq(|payload|, i requires 0 <= i < |payload| => Xor(payload[i], mask[i % 4]))
  }

  lemma MaskTwice(payload: seq<byte>, mask: seq<byte>)
    requires |mask| == 4
    ensures Masked(Masked(payload, mask), mask) == payload
  {
    forall i | 0 <= i < |payload| ensures Masked(Masked(payload, mask), mask)[i] == payload[i] {
      XorByteTwice(payload[i], mask[i % 4]);
    }
  }

  /** Network byte order. */
  function BigEndian(b: seq<byte>): nat {
    if b == [] then 0 else BigEndian(b[..|b| - 1]) * 256 + b[|b| - 1]
  }

  function ToBigEndian(n: nat, k: nat): (r: seq<byte>)
    ensures |r| == k
  {
    if k == 0 then [] else ToBigEndian(n / 256, k - 1) + [n % 256]
  }

  function Pow256(k: nat): nat { if k == 0 then 1 else 256 * Pow256(k - 1) }

  lemma {:induction false} BigEndianRoundTrip(n: nat, k: nat)
    requires n < Pow256(k)
    ensures BigEndian(ToBigEndian(n, k)) == n
  {
    if k > 0 {
      BigEndianRoundTrip(n / 256, k - 1);
      assert ToBigEndian(n, k)[..k - 1] == ToBigEndian(n / 256, k - 1);
    }
  }

  // ---------- The handler ----------

  predicate IsFin(w: Ws) { w.mini / 0x8000 % 2 == 1 }
  function Opcode(w: Ws): nat { w.mini / 0x100 % 16 }

  /** The end of a frame: its payload is unmasked in place, and the message is delivered if it is the last
      frame of one. */
  function Fragment(w0: Ws): (Ws, seq<Action>)
    requires Inv(w0)
  {
    var data := w0.data[..w0.begin] + Masked(w0.data[w0.begin..], w0.mask);
    var op := Opcode(w0);
    var w := w0.(data := data, begin := |data|, kind := if op == 1 then Text else if op == 2 then Binary else w0.kind);
    if op <= 2 then
      if IsFin(w) then (w.(data := [], begin := 0), [Deliver(w.kind, data)]) else (w, [])
    else if op == 8 then
      if w.sentClose then (w.(recvClose := true), [NotifyClose, ForceClose])
      else (w.(recvClose := true, sentClose := true), [SendClose, ForceClose])
    else if op == 9 then (w.(data := [], begin := 0), [SendPong])
    else (w, [ForceClose])
  }

  /** The two bytes that begin a frame. A frame without a mask closes the connection. */
  function TakeHeader(w: Ws, mini: nat): (Ws, seq<Action>) {
    var len := mini % 128;
    if mini / 128 % 2 == 0 then (w.(mini := mini), [ForceClose])
    else if len == 127 then (w.(mini := mini, phase := Len64), [])
    else if len == 126 then (w.(mini := mini, phase := Len16), [])
    else (w.(mini := mini, phase := MaskKey, need := len), [])
  }

  datatype Handled = Handled(w: Ws, rest: seq<byte>, actions: seq<Action>, reply: Reply)

  /** One call of the handler with the bytes in the buffer: it reads on until a part of the frame is
      missing or a frame is complete. */
  function Handle(w: Ws, buf: seq<byte>): Handled
    requires Inv(w)
    decreases |buf|
  {
    match w.phase
    case MiniHeader =>
      if |buf| < 2 then Handled(w, buf, [], PROCESS)
      else
        var (v, actions) := TakeHeader(w, BigEndian(buf[..2]));
        if actions != [] then Handled(v, buf[2..], actions, BAD) else Handle(v, buf[2..])
    case Len16 =>
      if |buf| < 2 then Handled(w, buf, [], PROCESS)
      else Handle(w.(need := BigEndian(buf[..2]), phase := MaskKey), buf[2..])
    case Len64 =>
      if |buf| < 8 then Handled(w, buf, [], PROCESS)
      else Handle(w.(need := BigEndian(buf[..8]), phase := MaskKey), buf[8..])
    case MaskKey =>
      if |buf| < 4 then Handled(w, buf, [], PROCESS)
      else Handle(w.(mask := buf[..4], phase := Payload), buf[4..])
    case Payload =>
      var n := if |buf| > w.need then w.need else |buf|;
      var v := w.(data := w.data + buf[..n], need := w.need - n);
      if v.need > 0 then Handled(v, buf[n..], [], PROCESS)
      else
        var (u, actions) := Fragment(v.(phase := MiniHeader));
        Handled(u, buf[n..], actions, if IsFin(u) then FINISH else PROCESS)
  }

  // ---------- The stream ----------

  /** One complete unit of the stream (a header, a length, a mask or a payload), if it is there. */
  function Unit(w: Ws, s: seq<byte>): (r: (Ws, seq<Action>, nat))
    requires Inv(w) && UnitSize(w) <= |s|
    ensures Inv(r.0) && r.2 == UnitSize(w) && (w.phase == Payload ==> r.0.phase == MiniHeader)
  {
    var n := UnitSize(w);
    match w.phase
    case MiniHeader => var (v, actions) := TakeHeader(w, BigEndian(s[..2])); (v, actions, n)
    case Len16 => (w.(need := BigEndian(s[..2]), phase := MaskKey), [], n)
    case Len64 => (w.(need := BigEndian(s[..8]), phase := MaskKey), [], n)
    case MaskKey => (w.(mask := s[..4], phase := Payload), [], n)
    case Payload =>
      var (u, actions) := Fragment(w.(phase := MiniHeader, data := w.data + s[..n], need := 0));
      (u, actions, n)
  }

  function UnitSize(w: Ws): nat {
    match w.phase case MiniHeader => 2 case Len16 => 2 case Len64 => 8 case MaskKey => 4 case Payload => w.need
  }

  /** Everything a stream of bytes makes the decoder do. */
  function Decode(w: Ws, s: seq<byte>): seq<Action>
    requires Inv(w)
    decreases |s|, w.phase == Payload
  {
    if |s| < UnitSize(w) then []
    else
      var (v, actions, n) := Unit(w, s);
      actions + Decode(v, s[n..])
  }

  // ---------- Chunks do not matter ----------

  /** A part of a payload that has arrived can be taken already. */
  lemma PartialPayload(w: Ws, a: seq<byte>, f: seq<byte>)
    requires Inv(w) && w.phase == Payload && |a| < w.need
    ensures Decode(w, a + f) == Decode(w.(data := w.data + a, need := w.need - |a|), f)
  {
    hide Fragment;
    var v := w.(data := w.data + a, need := w.need - |a|);
    var s := a + f;
    if |s| >= w.need {
      var n := w.need - |a|;
      assert s[..w.need] == a + f[..n];
      assert w.data + (a + f[..n]) == v.data + f[..n];
      assert s[w.need..] == f[n..];
    }
  }

  lemma HandleKeeps(w: Ws, buf: seq<byte>)
    requires Inv(w)
    ensures Inv(Handle(w, buf).w)
    decreases |buf|
  {
    match w.phase
    case MiniHeader => if |buf| >= 2 { HandleKeeps(TakeHeader(w, BigEndian(buf[..2])).0, buf[2..]); }
    case Len16 => if |buf| >= 2 { HandleKeeps(w.(need := BigEndian(buf[..2]), phase := MaskKey), buf[2..]); }
    case Len64 => if |buf| >= 8 { HandleKeeps(w.(need := BigEndian(buf[..8]), phase := MaskKey), buf[8..]); }
    case MaskKey => if |buf| >= 4 { HandleKeeps(w.(mask := buf[..4], phase := Payload), buf[4..]); }
    case Payload =>
  }

  lemma UnitAgain(w: Ws, buf: seq<byte>, f: seq<byte>)
    requires Inv(w) && UnitSize(w) <= |buf|
    ensures Unit(w, buf + f) == Unit(w, buf)
    ensures Decode(w, buf + f) == Unit(w, buf).1 + Decode(Unit(w, buf).0, buf[UnitSize(w)..] + f)
  {
    hide Fragment, TakeHeader;
    var n := UnitSize(w);
    assert (buf + f)[..n] == buf[..n] && (buf + f)[n..] == buf[n..] + f;
  }

  /** A call of the handler keeps what the stream means: what it does now, followed by what the rest of the
      buffer and all bytes to come will do, is what the decoder had to do before the call. */
  lemma {:induction false} HandleStep(w: Ws, buf: seq<byte>, f: seq<byte>)
    requires Inv(w)
    ensures var r := Handle(w, buf); Inv(r.w) && Decode(w, buf + f) == r.actions + Decode(r.w, r.rest + f)
    decreases |buf|
  {
    hide Decode, Fragment, TakeHeader;
    HandleKeeps(w, buf);
    if w.phase == Payload {
      if |buf| < w.need {
        PartialPayload(w, buf, f);
        assert buf[..|buf|] == buf && buf[|buf|..] + f == f;
      } else {
        UnitAgain(w, buf, f);
      }
    } else if |buf| >= UnitSize(w) {
      UnitAgain(w, buf, f);
      var v, actions := Unit(w, buf).0, Unit(w, buf).1;
      if actions == [] {
        HandleStep(v, buf[UnitSize(w)..], f);
      }
    }
  }
}
