/** The parser as a function of the byte stream: each byte runs `HttpStep.Exec` until the pass ends
    it, header bytes are counted, and what the callbacks see is one stream of signals and pieces in
    which neighbouring pieces of a kind are glued together. */
module HttpStream {
  import opened HttpStep

  datatype Event = Data(piece: Piece, bytes: string) | Signalled(signal: Signal)

  type Log = seq<Event>

  predicate EndsWith(log: Log, k: Piece) {
    log != [] && log[|log| - 1].Data? && log[|log| - 1].piece == k
  }

  /** Reports some bytes of a piece; they are glued to the last piece if it is of the same kind. */
  function Emit(log: Log, k: Piece, bytes: string): Log {
    if EndsWith(log, k) then log[..|log| - 1] + [Data(k, log[|log| - 1].bytes + bytes)] else log + [Data(k, bytes)]
  }

  lemma EmitEmit(log: Log, k: Piece, a: string, b: string)
    ensures Emit(Emit(log, k, a), k, b) == Emit(log, k, a + b)
    ensures EndsWith(Emit(log, k, a), k)
  {
    if EndsWith(log, k) {
      assert (log[|log| - 1].bytes + a) + b == log[|log| - 1].bytes + (a + b);
    }
  }

  lemma EmitEnds(log: Log, k: Piece, bytes: string)
    ensures EndsWith(Emit(log, k, bytes), k)
  {
  }

  lemma EmitNothing(log: Log, k: Piece)
    requires EndsWith(log, k)
    ensures Emit(log, k, []) == log
  {
    assert log[|log| - 1].bytes + [] == log[|log| - 1].bytes;
  }

  function ApplyOp(log: Log, op: Op, ch: char): Log {
    match op
    case Begin(k) => Emit(log, k, [ch])
    case Continue(k) => Emit(log, k, [ch])
    case Flush(k) => log
    case Finish(k) => Emit(log, k, [ch])
    case Empty(k) => Emit(log, k, [])
    case Notify(s) => log + [Signalled(s)]
  }

  /** A pass has at most one effect on the stream. */
  function ApplyOps(log: Log, ops: seq<Op>, ch: char): Log {
    if ops == [] then log else ApplyOp(log, ops[0], ch)
  }

  datatype Step = Done(p: Parser, log: Log) | Left(p: Parser, log: Log) | Bad(e: Errno)

  /** All passes of one byte. */
  function Passes(p: Parser, log: Log, ch: char): Step
    decreases Rank(p.st)
  {
    match Exec(p, ch)
    case Fail(e) => Bad(e)
    case Next(q, ops) => Done(q, ApplyOps(log, ops, ch))
    case Exit(q, ops) => Left(q, ApplyOps(log, ops, ch))
    case Again(q, ops) => AgainGoesDown(p, ch); Passes(q, ApplyOps(log, ops, ch), ch)
  }

  function Counted(p: Parser): Parser {
    if p.st.ParsingHeader() then p.(nread := p.nread + 1) else p
  }

  function ByteStep(p: Parser, log: Log, ch: char): Step {
    if p.st.ParsingHeader() && p.nread + 1 > MAX_HEADER_SIZE then Bad(HeaderOverflow)
    else Passes(Counted(p), log, ch)
  }

  /** The fate of a stream: all bytes taken, left after an upgrade with `used` bytes taken, or an error at
      the byte `at`. */
  datatype Outcome = All(p: Parser, log: Log) | Exited(p: Parser, log: Log, used: nat) | Failed(e: Errno, at: nat)

  function Later(n: nat, o: Outcome): Outcome {
    match o
    case All(_, _) => o
    case Exited(_, _, used) => o.(used := used + n)
    case Failed(_, at) => o.(at := at + n)
  }

  function RunBytes(p: Parser, log: Log, data: string): Outcome
    decreases |data|
  {
    if data == [] then All(p, log)
    else
      match ByteStep(p, log, data[0])
      case Bad(e) => Failed(e, 0)
      case Left(q, l) => Exited(q, l, 1)
      case Done(q, l) => Later(1, RunBytes(q, l, data[1..]))
  }

  /** The stream is processed the same way however it is cut. */
  lemma {:induction false} RunConcat(p: Parser, log: Log, a: string, b: string)
    ensures var r := RunBytes(p, log, a);
            RunBytes(p, log, a + b) == if r.All? then Later(|a|, RunBytes(r.p, r.log, b)) else r
    decreases |a|
  {
    if a == [] {
      assert a + b == b;
    } else {
      assert (a + b)[1..] == a[1..] + b;
      match ByteStep(p, log, a[0])
      case Done(q, l) => RunConcat(q, l, a[1..], b);
      case _ =>
    }
  }

  // ---------- The invariant behind the parser's assertions ----------

  ghost predicate HeaderInv(s: HeaderSt, p: Parser) {
    && (s.Field? || s.DiscardWs? || s.DiscardWsAlmostDone? || s.DiscardLws? ==> p.hs.OfField())
    && (s.Value? || s.AlmostDone? || s.ValueLws? || s.ValueStart? ==> p.hs.OfValue())
  }

  ghost predicate FrameInv(s: FrameSt, p: Parser) {
    && (s.SizeStart? ==> p.nread == 0 && p.flags.chunked)
    && (s.Size? || s.Parameters? || s.SizeAlmostDone? ==> p.flags.chunked && p.length < ULLONG_MAX)
  }

  ghost predicate BodyInv(s: BodySt, p: Parser) {
    && (s.ChunkData? ==> p.flags.chunked && 0 < p.length < ULLONG_MAX)
    && (s.ChunkDataAlmostDone? ==> p.flags.chunked && p.length == 0)
    && (s.ChunkDataDone? ==> p.flags.chunked)
    && (s.Identity? ==> 0 < p.length < ULLONG_MAX)
  }

  ghost predicate Inv(p: Parser) {
    && p.nread <= MAX_HEADER_SIZE
    && p.length <= ULLONG_MAX
    && p.index < 32
    && !p.flags.skipBody
    && match p.st
       case Line(s) => s.ReqMethod? ==> p.verb < METHOD_COUNT
       case Url(_) => true
       case Header(s) => HeaderInv(s, p)
       case Frame(s) => FrameInv(s, p)
       case Body(s) => BodyInv(s, p)
  }

  /** In the states that resume a piece at the start of a buffer, the stream ends with that piece. */
  ghost predicate LogOk(st: St, log: Log) {
    && (st.Url? ==> EndsWith(log, UrlPiece))
    && (st == Header(Field) ==> EndsWith(log, FieldPiece))
    && (st == Header(Value) ==> EndsWith(log, ValuePiece))
  }

  /** As `Inv`, during the passes of a byte: a header byte has been counted already. */
  ghost predicate InvInside(p: Parser) {
    if p.st == Frame(SizeStart) then p.nread == 1 && Inv(p.(nread := 0)) else Inv(p)
  }

  lemma CountedInv(p: Parser)
    requires Inv(p) && (p.st.ParsingHeader() ==> p.nread + 1 <= MAX_HEADER_SIZE)
    ensures InvInside(Counted(p))
  {
  }

  lemma ValueByteOk(v: Val, ch: char)
    requires v.hs.OfValue() && v.length <= ULLONG_MAX && v.index < 32 && ValueByte(v, ch).ValOk?
    ensures var w := ValueByte(v, ch).v;
            w.hs.OfValue() && w.length <= ULLONG_MAX && w.index < 32 && w.flags.skipBody == v.flags.skipBody
    ensures var w := ValueByte(v, ch).v; v.length < ULLONG_MAX ==> w.length < ULLONG_MAX
    ensures var w := ValueByte(v, ch).v; w.flags.chunked == v.flags.chunked
  {
  }

  predicate Takes(ops: seq<Op>, k: Piece) { ops == [Begin(k)] || ops == [Continue(k)] }

  /** A pass reports its byte as part of a piece exactly if it stays in, or enters, that piece. */
  predicate InPiece(st: St, ops: seq<Op>) {
    && (st.Url? <==> Takes(ops, UrlPiece))
    && (st == Header(Field) <==> Takes(ops, FieldPiece))
    && (st == Header(Value) <==> Takes(ops, ValuePiece))
    && (Takes(ops, BodyPiece) ==>
          st == Body(ChunkData) || st == Body(ChunkDataAlmostDone) || st == Body(Identity))
    && |ops| <= 1
  }

  ghost predicate GoodPass(r: Pass) {
    match r
    case Fail(_) => true
    case Again(q, ops) => Inv(q) && q.st != Frame(SizeStart) && InPiece(q.st, ops)
    case Next(q, ops) => Inv(q) && InPiece(q.st, ops)
    case Exit(q, ops) => Inv(q) && InPiece(q.st, ops)
  }

  lemma NameByteOk(n: Name, c: char)
    requires n.hs.OfField() && n.index < 32
    ensures NameByte(n, c).hs.OfField() && NameByte(n, c).index < 32
  {
  }

  lemma ValueGood(p: Parser, ch: char)
    requires Inv(p) && p.st == Header(Value)
    ensures GoodPass(ValuePass(p, ch))
  {
    if ch != '\r' && ch != '\n' {
      var v := Val(p.hs, p.index, p.flags, p.length);
      if ValueByte(v, ch).ValOk? { ValueByteOk(v, ch); }
    }
  }

  lemma MethodGood(p: Parser, ch: char)
    requires Inv(p) && p.st == Line(ReqMethod)
    ensures GoodPass(MethodPass(p, ch))
  {
  }

  lemma LineGood(p: Parser, s: LineSt, ch: char)
    requires Inv(p) && p.st == Line(s)
    ensures GoodPass(LinePass(p, s, ch))
  {
    hide MethodPass, StartPass;
    if s.ReqMethod? { MethodGood(p, ch); }
    if s.StartReq? { StartGood(p, ch); }
  }

  lemma StartGood(p: Parser, ch: char)
    requires Inv(p) && p.st == Line(StartReq)
    ensures GoodPass(StartPass(p, ch))
  {
  }

  lemma UrlGood(p: Parser, u: UrlSt, ch: char)
    requires Inv(p) && p.st == Url(u)
    ensures GoodPass(UrlPass(p, u, ch))
  {
  }

  lemma FieldGood(p: Parser, ch: char)
    requires Inv(p) && p.st == Header(Field)
    ensures GoodPass(FieldPass(p, ch))
  {
    NameByteOk(Name(p.hs, p.index, p.usesTe), TokenOf(ch));
  }

  lemma ValueStartGood(p: Parser, ch: char)
    requires Inv(p) && (p.st == Header(DiscardWs) || p.st == Header(ValueStart))
    ensures GoodPass(ValueStartPass(p, ch))
  {
  }

  lemma FieldStartGood(p: Parser, ch: char)
    requires Inv(p) && p.st == Header(FieldStart)
    ensures GoodPass(FieldStartPass(p, ch))
  {
  }

  lemma FinishKeeps(flags: Flags, hs: Hs)
    ensures FinishValue(flags, hs).skipBody == flags.skipBody
  {
    ConnectionKeeps(flags, hs);
    hide SetConnection;
  }

  lemma ConnectionKeeps(flags: Flags, hs: Hs)
    ensures SetConnection(flags, hs).skipBody == flags.skipBody
  {
    match hs
    case ConnKeepAlive =>
    case ConnClose =>
    case ConnUpgrade =>
    case _ =>
  }

  lemma FoldGood(p: Parser, ch: char)
    requires Inv(p) && p.st == Header(ValueLws)
    ensures GoodPass(ValueLwsPass(p, ch))
  {
    FinishKeeps(p.flags, p.hs);
    hide FinishValue;
  }

  lemma EmptyValueGood(p: Parser, ch: char)
    requires Inv(p) && p.st == Header(DiscardLws)
    ensures GoodPass(DiscardLwsPass(p, ch))
  {
    FinishKeeps(p.flags, p.hs);
    hide FinishValue;
  }

  lemma HeaderGood(p: Parser, s: HeaderSt, ch: char)
    requires Inv(p) && p.st == Header(s)
    ensures GoodPass(HeaderPass(p, s, ch))
  {
    match s
    case FieldStart => FieldStartGood(p, ch);
    case Field => FieldGood(p, ch);
    case DiscardWs => ValueStartGood(p, ch);
    case ValueStart => ValueStartGood(p, ch);
    case Value => ValueGood(p, ch);
    case ValueLws => FoldGood(p, ch);
    case DiscardLws => EmptyValueGood(p, ch);
    case DiscardWsAlmostDone =>
    case AlmostDone =>
  }

  lemma HeadersDoneGood(p: Parser, ch: char)
    requires Inv(p) && p.st == Frame(HeadersDone)
    ensures GoodPass(HeadersDonePass(p, ch))
  {
  }

  lemma HeadersAlmostDoneGood(p: Parser, ch: char)
    requires Inv(p) && p.st == Frame(HeadersAlmostDone)
    ensures GoodPass(HeadersAlmostDonePass(p, ch))
  {
  }

  lemma SizeGood(p: Parser, ch: char)
    requires InvInside(p)
    ensures p.st == Frame(SizeStart) ==> GoodPass(ChunkSizeStartPass(p, ch))
    ensures p.st == Frame(Size) ==> GoodPass(ChunkSizePass(p, ch))
  {
  }

  lemma SizeAlmostDoneGood(p: Parser, ch: char)
    requires Inv(p) && p.st == Frame(SizeAlmostDone)
    ensures GoodPass(ChunkSizeAlmostDonePass(p, ch))
  {
  }

  lemma FrameGood(p: Parser, s: FrameSt, ch: char)
    requires InvInside(p) && p.st == Frame(s)
    ensures GoodPass(FramePass(p, s, ch))
  {
    hide HeadersAlmostDonePass, HeadersDonePass, ChunkSizeStartPass, ChunkSizePass, ChunkSizeAlmostDonePass;
    match s
    case HeadersAlmostDone => HeadersAlmostDoneGood(p, ch);
    case HeadersDone => HeadersDoneGood(p, ch);
    case SizeStart => SizeGood(p, ch);
    case Size => SizeGood(p, ch);
    case SizeAlmostDone => SizeAlmostDoneGood(p, ch);
    case Parameters =>
  }

  lemma BodyGood(p: Parser, s: BodySt, ch: char)
    requires Inv(p) && p.st == Body(s)
    ensures GoodPass(BodyStatePass(p, s, ch))
  {
  }

  lemma ExecGood(p: Parser, ch: char)
    requires InvInside(p)
    ensures GoodPass(Exec(p, ch))
  {
    match p.st
    case Line(s) => LineGood(p, s, ch);
    case Url(s) => UrlGood(p, s, ch);
    case Header(s) => HeaderGood(p, s, ch);
    case Frame(s) => FrameGood(p, s, ch);
    case Body(s) => BodyGood(p, s, ch);
  }

  lemma InPieceLog(st: St, log: Log, ops: seq<Op>, ch: char)
    requires InPiece(st, ops)
    ensures LogOk(st, ApplyOps(log, ops, ch))
  {
  }

  lemma {:induction false} PassesInv(p: Parser, log: Log, ch: char)
    requires InvInside(p) && LogOk(p.st, log)
    ensures var r := Passes(p, log, ch); !r.Bad? ==> Inv(r.p) && LogOk(r.p.st, r.log)
    decreases Rank(p.st)
  {
    ExecGood(p, ch);
    if !Exec(p, ch).Fail? { InPieceLog(Exec(p, ch).p.st, log, Exec(p, ch).ops, ch); }
    if Exec(p, ch).Again? {
      AgainGoesDown(p, ch);
      PassesInv(Exec(p, ch).p, ApplyOps(log, Exec(p, ch).ops, ch), ch);
    }
  }

  /** The invariant holds in every reachable state, over any sequence of calls. */
  lemma {:induction false} RunInv(p: Parser, log: Log, data: string)
    requires Inv(p) && LogOk(p.st, log)
    ensures var r := RunBytes(p, log, data); !r.Failed? ==> Inv(r.p) && LogOk(r.p.st, r.log)
    decreases |data|
  {
    if data != [] && !ByteStep(p, log, data[0]).Bad? {
      CountedInv(p);
      PassesInv(Counted(p), log, data[0]);
      var r := ByteStep(p, log, data[0]);
      if r.Done? { RunInv(r.p, r.log, data[1..]); }
    }
  }

  /** A parser fresh from initialisation. */
  const START := Parser(Line(StartReq), General, 0, 0, 0, NO_FLAGS, false, 0, 0, 0, false)

  /** The source's assertions about the parser when it looks at a byte; header bytes have been counted. */
  ghost predicate Asserted(p: Parser) {
    match p.st
    case Header(Field) => p.hs.OfField()
    case Header(Value) => p.hs.OfValue()
    case Frame(SizeStart) => p.nread == 1 && p.flags.chunked
    case Frame(Size) => p.flags.chunked
    case Frame(Parameters) => p.flags.chunked
    case Frame(SizeAlmostDone) => p.flags.chunked
    case Body(ChunkData) => p.flags.chunked && p.length != 0 && p.length != ULLONG_MAX
    case Body(ChunkDataAlmostDone) => p.flags.chunked && p.length == 0
    case Body(ChunkDataDone) => p.flags.chunked
    case Body(Identity) => p.length != 0 && p.length != ULLONG_MAX
    case _ => true
  }

  lemma InsideAsserted(p: Parser)
    requires InvInside(p)
    ensures Asserted(p)
  {
  }

  /** Several calls one after the other, each of which may leave the parser early after an upgrade. */
  ghost function RunCalls(p: Parser, log: Log, calls: seq<string>): Outcome
    decreases |calls|
  {
    if calls == [] then All(p, log)
    else
      var r := RunBytes(p, log, calls[0]);
      if r.Failed? then r else RunCalls(r.p, r.log, calls[1..])
  }

  lemma {:induction false} CallsInv(p: Parser, log: Log, calls: seq<string>)
    requires Inv(p) && LogOk(p.st, log)
    ensures var r := RunCalls(p, log, calls); !r.Failed? ==> Inv(r.p) && LogOk(r.p.st, r.log)
    decreases |calls|
  {
    hide RunBytes, Inv, LogOk;
    if calls != [] {
      RunInv(p, log, calls[0]);
      var r := RunBytes(p, log, calls[0]);
      if !r.Failed? { CallsInv(r.p, r.log, calls[1..]); }
    }
  }

  /** Every assertion holds at every byte of every sequence of calls. */
  lemma AssertionsHold(calls: seq<string>)
    ensures var r := RunCalls(START, [], calls);
            !r.Failed? && (r.p.st.ParsingHeader() ==> r.p.nread + 1 <= MAX_HEADER_SIZE) ==> Asserted(Counted(r.p))
  {
    hide RunCalls;
    CallsInv(START, [], calls);
    var r := RunCalls(START, [], calls);
    if !r.Failed? && (r.p.st.ParsingHeader() ==> r.p.nread + 1 <= MAX_HEADER_SIZE) {
      CountedInv(r.p);
      InsideAsserted(Counted(r.p));
    }
  }
}
