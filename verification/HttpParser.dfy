/** `http_parser_execute`: the parser object, its marks and its bulk scanning loops, proved against
    the byte-at-a-time stream of `HttpStream`. */
module HttpParser {
  import opened Wrappers
  import opened HttpStep
  import opened HttpStream


  /** Where the pieces not reported yet begin in the current buffer; -1 for none. */
  datatype Marks = Marks(field: int, value: int, url: int, body: int)

  const NO_MARKS := Marks(-1, -1, -1, -1)

  function Get(m: Marks, k: Piece): int {
    match k
    case UrlPiece => m.url case FieldPiece => m.field case ValuePiece => m.value case BodyPiece => m.body
  }

  function Set(m: Marks, k: Piece, at: int): Marks {
    match k
    case UrlPiece => m.(url := at) case FieldPiece => m.(field := at)
    case ValuePiece => m.(value := at) case BodyPiece => m.(body := at)
  }

  /** Only a piece of kind `k` is marked. */
  predicate Single(m: Marks, k: Piece, p: nat) {
    0 <= Get(m, k) <= p && m == Set(NO_MARKS, k, Get(m, k))
  }

  ghost predicate MarksOk(st: St, m: Marks, p: nat) {
    match st
    case Url(_) => Single(m, UrlPiece, p)
    case Header(Field) => Single(m, FieldPiece, p)
    case Header(Value) => Single(m, ValuePiece, p)
    case Body(s) => m == NO_MARKS || (Single(m, BodyPiece, p) && (s.ChunkData? || s.ChunkDataAlmostDone? || s.Identity?))
    case _ => m == NO_MARKS
  }

  /** The stream once the marked piece has been reported up to `p`. */
  ghost function Pending(log: Log, m: Marks, data: string, p: nat): Log
    requires p <= |data|
  {
    if Single(m, UrlPiece, p) then Emit(log, UrlPiece, data[m.url..p])
    else if Single(m, FieldPiece, p) then Emit(log, FieldPiece, data[m.field..p])
    else if Single(m, ValuePiece, p) then Emit(log, ValuePiece, data[m.value..p])
    else if Single(m, BodyPiece, p) then Emit(log, BodyPiece, data[m.body..p])
    else log
  }

  lemma PendingIs(log: Log, m: Marks, k: Piece, data: string, p: nat)
    requires p <= |data| && Single(m, k, p)
    ensures Pending(log, m, data, p) == Emit(log, k, data[Get(m, k)..p])
  {
  }

  lemma PendingNone(log: Log, data: string, p: nat)
    requires p <= |data|
    ensures Pending(log, NO_MARKS, data, p) == log
  {
  }

  lemma SingleLater(m: Marks, k: Piece, p: nat, q: nat)
    requires Single(m, k, p) && p <= q
    ensures 0 <= Get(m, k) <= p && Single(m, k, q)
  {
  }

  lemma Adjacent(data: string, a: nat, b: nat, c: nat)
    requires a <= b <= c <= |data|
    ensures data[a..b] + data[b..c] == data[a..c]
  {
  }

  lemma PendingTakes(log: Log, m: Marks, k: Piece, data: string, p: nat, q: nat)
    requires p <= q <= |data| && Single(m, k, p)
    ensures Pending(log, m, data, q) == Emit(Pending(log, m, data, p), k, data[p..q])
  {
    var at := Get(m, k);
    SingleLater(m, k, p, q);
    hide Single, Pending, Get, Emit;
    PendingIs(log, m, k, data, p);
    PendingIs(log, m, k, data, q);
    EmitEmit(log, k, data[at..p], data[p..q]);
    Adjacent(data, at, p, q);
  }

  // ---------- How far the stream has been followed ----------

  /** After `p` bytes the stream stands at `cur` and `seen`. */
  ghost predicate Sim(p0: Parser, l0: Log, data: string, p: nat, cur: Parser, seen: Log) {
    p <= |data| && RunBytes(p0, l0, data) == Later(p, RunBytes(cur, seen, data[p..]))
  }

  ghost function AfterPasses(s: Step, data: string, p: nat): Outcome
    requires p < |data|
  {
    match s
    case Bad(e) => Failed(e, p)
    case Left(q, l) => Exited(q, l, p + 1)
    case Done(q, l) => Later(p + 1, RunBytes(q, l, data[p + 1..]))
  }

  /** The stream is inside byte `p`, already counted, about to run the switch at `cur`. */
  ghost predicate MidByte(p0: Parser, l0: Log, data: string, p: nat, cur: Parser, seen: Log) {
    p < |data| && RunBytes(p0, l0, data) == AfterPasses(Passes(cur, seen, data[p]), data, p)
  }

  lemma LaterLater(a: nat, b: nat, o: Outcome)
    ensures Later(a, Later(b, o)) == Later(a + b, o)
  {
  }

  lemma EnterByte(p0: Parser, l0: Log, data: string, p: nat, cur: Parser, seen: Log)
    requires Sim(p0, l0, data, p, cur, seen) && p < |data|
    ensures cur.st.ParsingHeader() && cur.nread + 1 > MAX_HEADER_SIZE ==>
              RunBytes(p0, l0, data) == Failed(HeaderOverflow, p)
    ensures !(cur.st.ParsingHeader() && cur.nread + 1 > MAX_HEADER_SIZE) ==>
              MidByte(p0, l0, data, p, Counted(cur), seen)
  {
    var rest := data[p..];
    assert rest[0] == data[p] && rest[1..] == data[p + 1..];
    match ByteStep(cur, seen, data[p])
    case Done(q, l) => LaterLater(p, 1, RunBytes(q, l, data[p + 1..]));
    case _ =>
  }

  /** What the result of one pass at byte `p` says about the stream. */
  ghost predicate PassFollowed(p0: Parser, l0: Log, data: string, p: nat, seen: Log, r: Pass)
    requires p < |data|
  {
    match r
    case Fail(e) => RunBytes(p0, l0, data) == Failed(e, p)
    case Again(q, ops) => MidByte(p0, l0, data, p, q, ApplyOps(seen, ops, data[p]))
    case Next(q, ops) => Sim(p0, l0, data, p + 1, q, ApplyOps(seen, ops, data[p]))
    case Exit(q, ops) => RunBytes(p0, l0, data) == Exited(q, ApplyOps(seen, ops, data[p]), p + 1)
  }

  lemma RunOnePass(p0: Parser, l0: Log, data: string, p: nat, cur: Parser, seen: Log)
    requires MidByte(p0, l0, data, p, cur, seen)
    ensures PassFollowed(p0, l0, data, p, seen, Exec(cur, data[p]))
  {
    if Exec(cur, data[p]).Again? { AgainGoesDown(cur, data[p]); }
  }

  /** The header has grown over the limit at a byte before `p`. */
  ghost predicate Overflown(p0: Parser, l0: Log, data: string, p: nat) {
    var r := RunBytes(p0, l0, data);
    r.Failed? && r.e == HeaderOverflow && r.at < p
  }

  /** An error `e` reported at byte `n` is the error of the stream at that byte, unless the stream has
      failed by then because the header is too long: bulk scans count their bytes at the end only. */
  ghost predicate FailsAs(p0: Parser, l0: Log, data: string, e: Errno, n: nat) {
    var r := RunBytes(p0, l0, data);
    r.Failed? && n < |data| && if r.e == HeaderOverflow then r.at <= n else e == r.e && n == r.at
  }

  lemma OverflownFails(p0: Parser, l0: Log, data: string, e: Errno, n: nat)
    requires Overflown(p0, l0, data, n + 1) && n < |data|
    ensures FailsAs(p0, l0, data, e, n)
  {
  }

  /** Where the stream stands inside a bulk scan over header bytes: `from` was its position before
      the scan, `k` bytes have been taken since; past the size limit it has failed. */
  ghost predicate Scanned(p0: Parser, l0: Log, data: string, from: Parser, k: nat, p: nat, cur: Parser, seen: Log) {
    if from.nread + k <= MAX_HEADER_SIZE then
      Sim(p0, l0, data, p, cur.(nread := from.nread + k), seen)
    else
      Overflown(p0, l0, data, p)
  }

  lemma ScanStart(p0: Parser, l0: Log, data: string, from: Parser, p: nat, cur: Parser, seen: Log)
    requires Sim(p0, l0, data, p, from, seen) && cur.(nread := from.nread) == from
    ensures Scanned(p0, l0, data, from, 0, p, cur, seen) || from.nread > MAX_HEADER_SIZE
  {
  }

  /** One more header byte that the stream takes without leaving the state. */
  lemma ScanOne(p0: Parser, l0: Log, data: string, from: Parser, k: nat, p: nat, cur: Parser, seen: Log, next: Parser, kind: Piece)
    requires Scanned(p0, l0, data, from, k, p, cur, seen) && p < |data| && cur.st.ParsingHeader()
    requires Exec(cur.(nread := from.nread + k + 1), data[p]) == Next(next.(nread := from.nread + k + 1), [Continue(kind)])
    ensures Scanned(p0, l0, data, from, k + 1, p + 1, next, Emit(seen, kind, [data[p]]))
  {
    hide Exec, Passes, RunBytes, Emit;
    if from.nread + k <= MAX_HEADER_SIZE {
      var c := cur.(nread := from.nread + k);
      EnterByte(p0, l0, data, p, c, seen);
      if from.nread + k + 1 <= MAX_HEADER_SIZE {
        RunOnePass(p0, l0, data, p, Counted(c), seen);
      }
    }
  }

  /** The byte that ends a scan. */
  lemma ScanEnd(p0: Parser, l0: Log, data: string, from: Parser, k: nat, p: nat, cur: Parser, seen: Log)
    requires Scanned(p0, l0, data, from, k, p, cur, seen) && p < |data| && cur.st.ParsingHeader()
    ensures from.nread + k + 1 > MAX_HEADER_SIZE ==> Overflown(p0, l0, data, p + 1)
    ensures from.nread + k + 1 <= MAX_HEADER_SIZE ==>
              MidByte(p0, l0, data, p, cur.(nread := from.nread + k + 1), seen)
  {
    hide Exec, Passes, RunBytes;
    if from.nread + k <= MAX_HEADER_SIZE {
      EnterByte(p0, l0, data, p, cur.(nread := from.nread + k), seen);
    }
  }

  function TakeBody(cur: Parser, n: nat): Parser
    requires n <= cur.length
  {
    cur.(length := cur.length - n,
         st := if n == cur.length then Body(ChunkDataAlmostDone) else cur.st)
  }

  ghost predicate InBody(cur: Parser, n: nat) {
    n <= cur.length && (cur.st == Body(ChunkData) || (cur.st == Body(Identity) && n < cur.length))
  }

  lemma BodyByte(cur: Parser, seen: Log, ch: char)
    requires InBody(cur, 1)
    ensures ByteStep(cur, seen, ch) == Done(TakeBody(cur, 1), Emit(seen, BodyPiece, [ch]))
  {
    hide Emit;
    assert Exec(cur, ch) == BodyPass(cur);
  }

  /** `n` bytes of a body are taken at once. */
  lemma {:induction false} BodyRun(cur: Parser, seen: Log, data: string, n: nat)
    requires 0 < n <= |data| && InBody(cur, n)
    ensures RunBytes(cur, seen, data) ==
            Later(n, RunBytes(TakeBody(cur, n), Emit(seen, BodyPiece, data[..n]), data[n..]))
    decreases n
  {
    hide ByteStep, Emit;
    BodyByte(cur, seen, data[0]);
    if n == 1 {
      assert data[..1] == [data[0]];
    } else {
      var next := TakeBody(cur, 1);
      var one := Emit(seen, BodyPiece, [data[0]]);
      BodyRun(next, one, data[1..], n - 1);
      EmitEmit(seen, BodyPiece, [data[0]], data[1..][..n - 1]);
      assert [data[0]] + data[1..][..n - 1] == data[..n];
      assert data[1..][n - 1..] == data[n..];
    }
  }

  // ---------- Bytes of a header scan ----------

  lemma FieldExec(c: Parser, ch: char)
    requires c.st == Header(Field) && IsToken(ch)
    ensures var n := NameByte(Name(c.hs, c.index, c.usesTe), TokenOf(ch));
            Exec(c, ch) == Next(c.(hs := n.hs, index := n.index, usesTe := n.usesTe), [Continue(FieldPiece)])
  {
    hide NameByte, TokenOf, IsToken;
    assert Exec(c, ch) == FieldPass(c, ch);
  }

  lemma FieldOne(p0: Parser, l0: Log, data: string, from: Parser, k: nat, p: nat, cur: Parser, log: Log, m: Marks)
    requires p < |data| && cur.st == Header(Field) && Single(m, FieldPiece, p) && IsToken(data[p])
    requires Scanned(p0, l0, data, from, k, p, cur, Pending(log, m, data, p))
    ensures var n := NameByte(Name(cur.hs, cur.index, cur.usesTe), TokenOf(data[p]));
            Scanned(p0, l0, data, from, k + 1, p + 1, cur.(hs := n.hs, index := n.index, usesTe := n.usesTe),
                    Pending(log, m, data, p + 1))
  {
    hide *;
    var n := NameByte(Name(cur.hs, cur.index, cur.usesTe), TokenOf(data[p]));
    var next := cur.(hs := n.hs, index := n.index, usesTe := n.usesTe);
    FieldExec(cur.(nread := from.nread + k + 1), data[p]);
    PendingTakes(log, m, FieldPiece, data, p, p + 1);
    assert data[p..p + 1] == [data[p]];
    HeaderCounts(cur);
    ScanOne(p0, l0, data, from, k, p, cur, Pending(log, m, data, p), next, FieldPiece);
  }

  lemma FieldColon(p0: Parser, l0: Log, data: string, p: nat, cur: Parser, seen: Log)
    requires MidByte(p0, l0, data, p, cur, seen) && cur.st == Header(Field) && !IsToken(data[p])
    ensures data[p] == ':' ==> Sim(p0, l0, data, p + 1, cur.(st := Header(DiscardWs)), seen)
    ensures data[p] != ':' ==> FailsAs(p0, l0, data, InvalidHeaderToken, p)
  {
    RunOnePass(p0, l0, data, p, cur, seen);
    assert Exec(cur, data[p]) == FieldPass(cur, data[p]);
  }

  lemma HeaderCounts(cur: Parser)
    requires cur.st.Header?
    ensures cur.st.ParsingHeader()
  {
  }

  lemma ValueExec(c: Parser, ch: char)
    requires c.st == Header(Value) && ch != '\r' && ch != '\n'
    ensures var r := ValueByte(Val(c.hs, c.index, c.flags, c.length), ch);
            if r.ValOk? then
              Exec(c, ch) == Next(c.(hs := r.v.hs, index := r.v.index, flags := r.v.flags, length := r.v.length), [Continue(ValuePiece)])
            else Exec(c, ch) == Fail(r.e)
  {
    hide ValueByte;
    assert Exec(c, ch) == ValuePass(c, ch);
  }

  lemma PassFails(p0: Parser, l0: Log, data: string, p: nat, cur: Parser, seen: Log)
    requires MidByte(p0, l0, data, p, cur, seen) && Exec(cur, data[p]).Fail?
    ensures FailsAs(p0, l0, data, Exec(cur, data[p]).e, p)
  {
    hide Exec, RunBytes, Passes;
    RunOnePass(p0, l0, data, p, cur, seen);
  }

  lemma ValueOne(p0: Parser, l0: Log, data: string, from: Parser, k: nat, p: nat, cur: Parser, log: Log, m: Marks)
    requires p < |data| && cur.st == Header(Value) && Single(m, ValuePiece, p) && data[p] != '\r' && data[p] != '\n'
    requires Scanned(p0, l0, data, from, k, p, cur, Pending(log, m, data, p))
    ensures var r := ValueByte(Val(cur.hs, cur.index, cur.flags, cur.length), data[p]);
            if r.ValOk? then
              Scanned(p0, l0, data, from, k + 1, p + 1,
                      cur.(hs := r.v.hs, index := r.v.index, flags := r.v.flags, length := r.v.length),
                      Pending(log, m, data, p + 1))
            else FailsAs(p0, l0, data, r.e, p)
  {
    hide *;
    var c := cur.(nread := from.nread + k + 1);
    var seen := Pending(log, m, data, p);
    var r := ValueByte(Val(cur.hs, cur.index, cur.flags, cur.length), data[p]);
    ValueExec(c, data[p]);
    if r.ValOk? {
      var next := cur.(hs := r.v.hs, index := r.v.index, flags := r.v.flags, length := r.v.length);
      PendingTakes(log, m, ValuePiece, data, p, p + 1);
      assert data[p..p + 1] == [data[p]];
      HeaderCounts(cur);
      ScanOne(p0, l0, data, from, k, p, cur, seen, next, ValuePiece);
    } else {
      HeaderCounts(cur);
      ScanEnd(p0, l0, data, from, k, p, cur, seen);
      if from.nread + k + 1 <= MAX_HEADER_SIZE { PassFails(p0, l0, data, p, c, seen); }
      else { OverflownFails(p0, l0, data, r.e, p); }
    }
  }

  lemma ValueEnd(p0: Parser, l0: Log, data: string, p: nat, cur: Parser, seen: Log)
    requires MidByte(p0, l0, data, p, cur, seen) && cur.st == Header(Value)
    ensures data[p] == '\r' ==> Sim(p0, l0, data, p + 1, cur.(st := Header(AlmostDone)), seen)
    ensures data[p] == '\n' ==> MidByte(p0, l0, data, p, cur.(st := Header(AlmostDone)), seen)
  {
    RunOnePass(p0, l0, data, p, cur, seen);
    assert Exec(cur, data[p]) == ValuePass(cur, data[p]);
    hide Passes, RunBytes;
  }

  // ---------- Bytes of a body ----------

  lemma BodyMarked(log: Log, m: Marks, data: string, p: nat, q: nat)
    requires p < q <= |data| && (m == NO_MARKS || Single(m, BodyPiece, p))
    ensures var m' := if m.body < 0 then m.(body := p) else m;
            Single(m', BodyPiece, q) && Pending(log, m', data, q) == Emit(Pending(log, m, data, p), BodyPiece, data[p..q])
  {
    var m' := if m.body < 0 then m.(body := p) else m;
    PendingIs(log, m', BodyPiece, data, q);
    if m.body < 0 { PendingNone(log, data, p); } else { PendingTakes(log, m, BodyPiece, data, p, q); }
  }

  lemma BodyTaken(p0: Parser, l0: Log, data: string, p: nat, cur: Parser, seen: Log, n: nat)
    requires Sim(p0, l0, data, p, cur, seen) && 0 < n <= |data| - p && InBody(cur, n)
    ensures Sim(p0, l0, data, p + n, TakeBody(cur, n), Emit(seen, BodyPiece, data[p..p + n]))
  {
    hide ByteStep, Emit;
    BodyRun(cur, seen, data[p..], n);
    assert data[p..][..n] == data[p..p + n] && data[p..][n..] == data[p + n..];
    LaterLater(p, n, RunBytes(TakeBody(cur, n), Emit(seen, BodyPiece, data[p..p + n]), data[p + n..]));
  }

  /** The last byte of a body of known length also completes the message. */
  lemma LastBodyByte(p0: Parser, l0: Log, data: string, p: nat, cur: Parser, seen: Log)
    requires Sim(p0, l0, data, p, cur, seen) && p < |data| && cur.st == Body(Identity) && cur.length == 1
    ensures MidByte(p0, l0, data, p, cur.(length := 0, st := Body(MessageDone)), Emit(seen, BodyPiece, [data[p]]))
  {
    assert Exec(cur, data[p]) == BodyPass(cur);
    hide Passes, RunBytes, Emit;
    EnterByte(p0, l0, data, p, cur, seen);
    RunOnePass(p0, l0, data, p, cur, seen);
  }

  lemma WholeBodyTaken(p0: Parser, l0: Log, data: string, p: nat, cur: Parser, seen: Log)
    requires Sim(p0, l0, data, p, cur, seen) && cur.st == Body(Identity) && 0 < cur.length <= |data| - p
    ensures var q := p + cur.length;
            MidByte(p0, l0, data, q - 1, cur.(length := 0, st := Body(MessageDone)), Emit(seen, BodyPiece, data[p..q]))
  {
    hide Sim, MidByte, Emit;
    var q := p + cur.length - 1;
    if p < q {
      BodyTaken(p0, l0, data, p, cur, seen, q - p);
      LastBodyByte(p0, l0, data, q, TakeBody(cur, q - p), Emit(seen, BodyPiece, data[p..q]));
      EmitEmit(seen, BodyPiece, data[p..q], [data[q]]);
      assert data[p..q] + [data[q]] == data[p..q + 1];
    } else {
      LastBodyByte(p0, l0, data, p, cur, seen);
      assert [data[q]] == data[p..q + 1];
    }
  }

  lemma InvInValue(p: Parser)
    requires p.st == Header(Value) || p.st == Header(AlmostDone)
    ensures Inv(p) <==> p.nread <= MAX_HEADER_SIZE && p.index < 32 && p.length <= ULLONG_MAX && !p.flags.skipBody && p.hs.OfValue()
  {
  }

  lemma MarkedLater(k: Piece, m: Marks, p: nat, q: nat)
    requires Single(m, k, p) && p <= q
    ensures k == FieldPiece ==> MarksOk(Header(Field), m, q)
    ensures k == ValuePiece ==> MarksOk(Header(Value), m, q)
  {
  }

  lemma NoneMarked(q: nat)
    ensures MarksOk(Header(AlmostDone), NO_MARKS, q) && MarksOk(Header(DiscardWs), NO_MARKS, q)
  {
  }

  lemma InsideIsInv(p: Parser)
    requires p.st != Frame(SizeStart)
    ensures InvInside(p) <==> Inv(p)
  {
  }

  lemma MarkedHeader(m: Marks, p: nat)
    ensures MarksOk(Header(Field), m, p) ==> Single(m, FieldPiece, p)
    ensures MarksOk(Header(Value), m, p) ==> Single(m, ValuePiece, p)
  {
  }

  /** Between pieces there is nothing to report. */
  lemma Quiet(st: St, log: Log, p: nat)
    requires st == Header(AlmostDone) || st.Body?
    ensures LogOk(st, log) && MarksOk(st, NO_MARKS, p)
  {
  }

  lemma LogAny(s: HeaderSt, log: Log)
    requires !s.Field? && !s.Value?
    ensures LogOk(Header(s), log)
  {
  }

  // ---------- The parser object ----------

  /** The states that the parser leaves only after scanning ahead. */
  predicate Bulk(st: St) {
    st == Header(Field) || st == Header(Value) || st == Body(ChunkData) || st == Body(Identity)
  }

  /** The marks are as the effect of a pass expects them. */
  ghost predicate Fits(ops: seq<Op>, m: Marks, p: nat) {
    if ops == [] then m == NO_MARKS
    else
      |ops| == 1 &&
      match ops[0]
      case Begin(k) => m == NO_MARKS
      case Continue(k) => Single(m, k, p)
      case Flush(k) => m == NO_MARKS || Single(m, k, p)
      case Finish(k) => m == NO_MARKS || Single(m, k, p)
      case Empty(k) => m == NO_MARKS
      case Notify(_) => m == NO_MARKS
  }

  lemma PassFits(q: Parser, ch: char, m: Marks, p: nat)
    requires InvInside(q) && MarksOk(q.st, m, p) && !Bulk(q.st) && !Exec(q, ch).Fail?
    ensures Fits(Exec(q, ch).ops, m, p)
  {
    match q.st
    case Line(s) => assert Exec(q, ch) == LinePass(q, s, ch);
    case Url(s) => assert Exec(q, ch) == UrlPass(q, s, ch);
    case Header(s) => HeaderFits(q, s, ch, m, p);
    case Frame(s) => assert Exec(q, ch) == FramePass(q, s, ch);
    case Body(s) => assert Exec(q, ch) == BodyStatePass(q, s, ch);
  }

  lemma HeaderFits(q: Parser, s: HeaderSt, ch: char, m: Marks, p: nat)
    requires q.st == Header(s) && m == NO_MARKS && !Bulk(q.st) && !HeaderPass(q, s, ch).Fail?
    ensures Fits(HeaderPass(q, s, ch).ops, m, p)
  {
  }

  class PushParser {
    var st: St
    var hs: Hs
    var index: nat
    var nread: nat
    var length: nat
    var flags: Flags
    var usesTe: bool
    var verb: nat
    var major: nat
    var minor: nat
    var upgrade: bool
    var errno: Option<Errno>
    var log: Log  // what the callbacks have been given

    function View(): Parser
      reads this
    {
      Parser(st, hs, index, nread, length, flags, usesTe, verb, major, minor, upgrade)
    }

    ghost predicate Valid()
      reads this
    {
      Inv(View()) && LogOk(st, log)
    }

    constructor ()
      ensures Valid() && View() == START && errno == None && log == []
    {
      st, hs, index, nread, length := Line(StartReq), General, 0, 0, 0;
      flags, usesTe, verb, major, minor, upgrade := NO_FLAGS, false, 0, 0, 0, false;
      errno, log := None, [];
    }

    method Store(p: Parser)
      modifies this
      ensures View() == p && errno == old(errno) && log == old(log)
    {
      st, hs, index, nread, length, flags := p.st, p.hs, p.index, p.nread, p.length, p.flags;
      usesTe, verb, major, minor, upgrade := p.usesTe, p.verb, p.major, p.minor, p.upgrade;
    }

    /** Reports the marked piece of a kind, if any, up to `end`. */
    method CallbackData(k: Piece, data: string, end: nat, m: Marks) returns (m': Marks)
      requires end <= |data| && (Get(m, k) >= 0 ==> Single(m, k, end))
      modifies this`log
      ensures if Get(m, k) < 0 then m' == m && log == old(log)
              else m' == NO_MARKS && log == Pending(old(log), m, data, end)
    {
      m' := m;
      if Get(m, k) >= 0 {
        PendingIs(log, m, k, data, end);
        log := Emit(log, k, data[Get(m, k)..end]);
        m' := Set(m, k, -1);
      }
    }

    /** The effect of a pass on the marks and the callbacks. */
    method RunOps(ops: seq<Op>, data: string, p: nat, m: Marks) returns (m': Marks)
      requires p < |data| && Fits(ops, m, p)
      modifies this`log
      ensures Pending(log, m', data, p + 1) == ApplyOps(Pending(old(log), m, data, p), ops, data[p])
      ensures if ops != [] && (ops[0].Begin? || ops[0].Continue?) then Single(m', ops[0].piece, p + 1)
              else m' == NO_MARKS
    {
      hide Emit, Pending;
      m' := m;
      assert data[p..p + 1] == [data[p]];
      PendingNone(log, data, p);
      PendingNone(log, data, p + 1);
      if ops == [] { return; }
      match ops[0] {
        case Begin(k) =>
          m' := Set(m, k, p);
          PendingIs(log, m', k, data, p + 1);
        case Continue(k) =>
          PendingTakes(log, m, k, data, p, p + 1);
        case Flush(k) =>
          m' := CallbackData(k, data, p, m);
          PendingNone(log, data, p + 1);
        case Finish(k) =>
          if Get(m, k) < 0 {
            m' := Set(m, k, p);
            PendingIs(log, m', k, data, p + 1);
          } else {
            PendingTakes(log, m, k, data, p, p + 1);
          }
          m' := CallbackData(k, data, p + 1, m');
          PendingNone(log, data, p + 1);
        case Empty(k) =>
          log := Emit(log, k, []);
          PendingNone(log, data, p + 1);
        case Notify(s) =>
          log := log + [Signalled(s)];
          PendingNone(log, data, p + 1);
      }
    }

    /** One pass of the switch in a state that looks at a single byte. */
    method RunPass(data: string, p: nat, m: Marks, ghost p0: Parser, ghost l0: Log)
      returns (again: bool, exit: bool, m': Marks)
      requires p < |data| && errno == None && !Bulk(st)
      requires InvInside(View()) && MarksOk(st, m, p) && LogOk(st, Pending(log, m, data, p))
      requires MidByte(p0, l0, data, p, View(), Pending(log, m, data, p))
      modifies this
      ensures errno.Some? ==> FailsAs(p0, l0, data, errno.value, p)
      ensures errno.None? && again ==>
                && !exit && Rank(st) < Rank(old(st)) && !Bulk(st) && !st.Url? && m' == NO_MARKS
                && InvInside(View()) && LogOk(st, log) && MidByte(p0, l0, data, p, View(), log)
      ensures errno.None? && exit ==>
                && m' == NO_MARKS && Inv(View()) && LogOk(st, log)
                && RunBytes(p0, l0, data) == Exited(View(), log, p + 1)
      ensures errno.None? && !again && !exit ==>
                && MarksOk(st, m', p + 1) && Inv(View()) && LogOk(st, Pending(log, m', data, p + 1))
                && Sim(p0, l0, data, p + 1, View(), Pending(log, m', data, p + 1))
    {
      hide Exec, Passes, RunBytes, Emit, Pending, ApplyOps, Rank;
      var ch := data[p];
      again, exit, m' := false, false, m;
      InsideAsserted(View());
      assert Asserted(View());
      ghost var seen := Pending(log, m, data, p);
      var r := Exec(View(), ch);
      RunOnePass(p0, l0, data, p, View(), seen);
      ExecGood(View(), ch);
      if r.Fail? {
        errno := Some(r.e);
        return;
      }
      PassFits(View(), ch, m, p);
      InPieceLog(r.p.st, seen, r.ops, ch);
      if r.Again? { AgainNotBulk(View(), ch); }
      if r.Exit? { ExitNotifies(View(), ch); }
      m' := RunOps(r.ops, data, p, m);
      PendingNone(log, data, p);
      PendingNone(log, data, p + 1);
      Store(r.p);
      again, exit := r.Again?, r.Exit?;
    }

    /** `s_header_field`: names are matched byte by byte until they are ruled out, then skipped. */
    method ScanField(data: string, start: nat, m: Marks, ghost p0: Parser, ghost l0: Log, ghost from: Parser)
      returns (q: nat, m': Marks)
      requires start < |data| < 0x8000_0000 && errno == None && st == Header(Field) && Single(m, FieldPiece, start)
      requires View() == from.(nread := from.nread + 1) && Inv(View())
      requires Sim(p0, l0, data, start, from, Pending(log, m, data, start))
      modifies this
      ensures errno.Some? ==> FailsAs(p0, l0, data, errno.value, q)
      ensures errno.None? ==>
                && start <= q < |data| && Inv(View()) && MarksOk(st, m', q + 1)
                && LogOk(st, Pending(log, m', data, q + 1))
                && Sim(p0, l0, data, q + 1, View(), Pending(log, m', data, q + 1))
    {
      hide Exec, Passes, RunBytes, Emit, Pending, ApplyOps, Sim, MidByte, NameByte, Scanned;
      assert Scanned(p0, l0, data, from, 0, start, View(), Pending(log, m, data, start)) by {
        ScanStart(p0, l0, data, from, start, View(), Pending(log, m, data, start));
      }
      var p := start;
      q, m' := start, m;
      while p < |data| && IsToken(data[p])
        invariant start <= p <= |data| && errno == None && log == old(log)
        invariant View() == old(View()).(hs := hs, index := index, usesTe := usesTe)
        invariant hs.OfField() && index < 32
        invariant Scanned(p0, l0, data, from, p - start, p, View(), Pending(log, m, data, p))
      {
        FieldOne(p0, l0, data, from, p - start, p, View(), log, m);
        if hs == General {
          NameStaysGeneral(index, usesTe, TokenOf(data[p]));
          p := SkipField(data, start, p, m, p0, l0, from);
        } else {
          var n := NameByte(Name(hs, index, usesTe), TokenOf(data[p]));
          NameByteOk(Name(hs, index, usesTe), TokenOf(data[p]));
          hs, index, usesTe := n.hs, n.index, n.usesTe;
        }
        p := p + 1;
      }
      if p == |data| {
        q := BufferEnd(FieldPiece, data, start, m, p0, l0, from);
      } else {
        m' := EndField(data, start, p, m, p0, l0, from);
        q := p;
      }
    }

    /** A colon ends the name; no other byte may follow its token characters. */
    method EndField(data: string, start: nat, p: nat, m: Marks, ghost p0: Parser, ghost l0: Log, ghost from: Parser)
      returns (m': Marks)
      requires start <= p < |data| < 0x8000_0000 && errno == None && !IsToken(data[p])
      requires st == Header(Field) && Inv(View()) && Single(m, FieldPiece, start) && nread == from.nread + 1
      requires Scanned(p0, l0, data, from, p - start, p, View(), Pending(log, m, data, p))
      modifies this
      ensures errno.Some? ==> FailsAs(p0, l0, data, errno.value, p)
      ensures errno.None? ==>
                && Inv(View()) && st == Header(DiscardWs) && m' == NO_MARKS
                && Sim(p0, l0, data, p + 1, View(), Pending(log, m', data, p + 1))
    {
      hide Exec, Passes, RunBytes, Emit, Pending, ApplyOps, Sim, MidByte, Scanned;
      ghost var seen := Pending(log, m, data, p);
      ScanEnd(p0, l0, data, from, p - start, p, View(), seen);
      m' := m;
      CountScanned(p - start);
      if errno.Some? { return; }
      FieldColon(p0, l0, data, p, View(), seen);
      if data[p] == ':' {
        st := Header(DiscardWs);
        m' := CallbackData(FieldPiece, data, p, m);
        PendingNone(log, data, p + 1);
      } else {
        errno := Some(InvalidHeaderToken);
      }
    }

    /** The buffer ends inside a name or a value: its mark stays. */
    method BufferEnd(k: Piece, data: string, start: nat, m: Marks, ghost p0: Parser, ghost l0: Log, ghost from: Parser)
      returns (q: nat)
      requires start < |data| < 0x8000_0000 && errno == None && Single(m, k, start) && Inv(View())
      requires (k == FieldPiece && st == Header(Field)) || (k == ValuePiece && st == Header(Value))
      requires nread == from.nread + 1
      requires Scanned(p0, l0, data, from, |data| - start, |data|, View(), Pending(log, m, data, |data|))
      modifies this
      ensures errno.Some? ==> FailsAs(p0, l0, data, errno.value, q)
      ensures errno.None? ==>
                && q == |data| - 1 && Inv(View()) && st == old(st) && LogOk(st, Pending(log, m, data, q + 1))
                && Sim(p0, l0, data, q + 1, View(), Pending(log, m, data, q + 1))
    {
      hide Exec, Passes, RunBytes, Emit, Pending, ApplyOps, Sim, MidByte;
      q := |data| - 1;
      CountScanned(q - start);
      PendingIs(log, m, k, data, |data|);
      EmitEnds(log, k, data[Get(m, k)..|data|]);
    }

    /** The inner loop over a name that does not matter, at most one block of the size limit. */
    method SkipField(data: string, start: nat, at: nat, m: Marks, ghost p0: Parser, ghost l0: Log, ghost from: Parser)
      returns (p: nat)
      requires start <= at < |data| && st == Header(Field) && hs == General && Single(m, FieldPiece, start)
      requires Scanned(p0, l0, data, from, at + 1 - start, at + 1, View(), Pending(log, m, data, at + 1))
      ensures at <= p < |data|
      ensures Scanned(p0, l0, data, from, p + 1 - start, p + 1, View(), Pending(log, m, data, p + 1))
    {
      hide Exec, Passes, RunBytes, Emit, Pending, ApplyOps, Sim, MidByte, NameByte, Scanned;
      p := at;
      var left := |data| - p;
      var pe := p + (if left < MAX_HEADER_SIZE then left else MAX_HEADER_SIZE);
      while p + 1 < pe && IsToken(data[p + 1])
        invariant at <= p < |data|
        invariant Scanned(p0, l0, data, from, p + 1 - start, p + 1, View(), Pending(log, m, data, p + 1))
      {
        FieldOne(p0, l0, data, from, p + 1 - start, p + 1, View(), log, m);
        NameStaysGeneral(index, usesTe, TokenOf(data[p + 1]));
        p := p + 1;
      }
    }

    /** Counts the bytes of a scan beyond its first; the 32-bit counter cannot wrap. */
    method CountScanned(n: nat)
      requires errno == None && nread <= MAX_HEADER_SIZE && n < 0x8000_0000
      modifies this`nread, this`errno
      ensures nread == old(nread) + n < 0x1_0000_0000
      ensures errno == if nread > MAX_HEADER_SIZE then Some(HeaderOverflow) else None
    {
      nread := nread + n;
      if nread > MAX_HEADER_SIZE { errno := Some(HeaderOverflow); }
    }

    /** `s_header_value`: the value's words are matched on a copy of the header state; the rest of a
        value that does not matter is skipped in blocks of the size limit. */
    method ScanValue(data: string, start: nat, m: Marks, ghost p0: Parser, ghost l0: Log, ghost from: Parser)
      returns (q: nat, again: bool, m': Marks)
      requires start < |data| < 0x8000_0000 && errno == None && st == Header(Value) && Single(m, ValuePiece, start)
      requires View() == from.(nread := from.nread + 1) && Inv(View())
      requires Sim(p0, l0, data, start, from, Pending(log, m, data, start))
      modifies this
      ensures errno.Some? ==> FailsAs(p0, l0, data, errno.value, q)
      ensures errno.None? ==> start <= q < |data| && Inv(View())
      ensures errno.None? && again ==>
                st == Header(AlmostDone) && m' == NO_MARKS && MidByte(p0, l0, data, q, View(), log)
      ensures errno.None? && !again ==>
                && MarksOk(st, m', q + 1) && LogOk(st, Pending(log, m', data, q + 1))
                && Sim(p0, l0, data, q + 1, View(), Pending(log, m', data, q + 1))
    {
      hide Exec, Passes, RunBytes, Emit, Pending, ApplyOps, Sim, MidByte, ValueByte, Scanned, Inv, MarksOk, LogOk, Single, Get, Set;
      InvInValue(View());
      ScanStart(p0, l0, data, from, start, View(), Pending(log, m, data, start));
      var p := start;
      q, again, m' := start, false, m;
      var h := hs;
      while p < |data|
        invariant start <= p <= |data| && errno == None && log == old(log) && st == Header(Value)
        invariant nread == old(nread)
        invariant h.OfValue() && index < 32 && length <= ULLONG_MAX && !flags.skipBody && Single(m, ValuePiece, p)
        invariant Scanned(p0, l0, data, from, p - start, p, View().(hs := h), Pending(log, m, data, p))
      {
        var ch := data[p];
        if ch == '\r' || ch == '\n' {
          hs := h;
          InvInValue(View());
          m' := EndValue(data, start, p, m, p0, l0, from);
          q, again := p, ch == '\n';
          NoneMarked(q + 1);
          if errno.None? && !again { LogAny(AlmostDone, Pending(log, m', data, q + 1)); }
          return;
        }
        p, h := TakeValue(data, start, p, h, m, p0, l0, from);
        if errno.Some? { return p, false, m; }
        SingleLater(m, ValuePiece, start, p);
      }
      hs := h;
      InvInValue(View());
      MarkedLater(ValuePiece, m, start, |data|);
      q := BufferEnd(ValuePiece, data, start, m, p0, l0, from);
    }

    /** A byte of a value that does not end it, with all that follows if the value does not matter. */
    method TakeValue(data: string, start: nat, at: nat, h: Hs, m: Marks, ghost p0: Parser, ghost l0: Log, ghost from: Parser)
      returns (p: nat, h': Hs)
      requires start <= at < |data| && errno == None && st == Header(Value) && Single(m, ValuePiece, start)
      requires data[at] != '\r' && data[at] != '\n'
      requires h.OfValue() && index < 32 && length <= ULLONG_MAX
      requires Scanned(p0, l0, data, from, at - start, at, View().(hs := h), Pending(log, m, data, at))
      modifies this`index, this`flags, this`length, this`errno, this`hs
      ensures errno.Some? ==> FailsAs(p0, l0, data, errno.value, p)
      ensures errno.None? ==>
                && at < p <= |data| && hs == old(hs) && h'.OfValue() && index < 32 && length <= ULLONG_MAX
                && flags.skipBody == old(flags.skipBody)
                && Scanned(p0, l0, data, from, p - start, p, View().(hs := h'), Pending(log, m, data, p))
    {
      hide Exec, Passes, RunBytes, Emit, Pending, ApplyOps, Sim, MidByte, ValueByte, Scanned, Single, Get;
      var ch := data[at];
      p, h' := at, h;
      SingleLater(m, ValuePiece, start, at);
      ValueOne(p0, l0, data, from, at - start, at, View().(hs := h), log, m);
      if !IsHeaderChar(ch) {
        BadByte(Val(h, index, flags, length), ch);
        errno := Some(InvalidHeaderToken);
        return;
      }
      if h == General {
        var bad;
        p, bad := SkipValue(data, start, at, m, p0, l0, from);
        if bad {
          errno := Some(InvalidHeaderToken);
          return;
        }
      } else {
        h' := TakeValueByte(h, ch);
        if errno.Some? { return; }
      }
      p := p + 1;
    }

    /** One byte of a value whose words matter, on the copy `h` of the header state. */
    method TakeValueByte(h: Hs, ch: char) returns (h': Hs)
      requires h.OfValue() && index < 32 && length <= ULLONG_MAX && errno == None
      modifies this`index, this`flags, this`length, this`errno, this`hs
      ensures var r := ValueByte(Val(h, old(index), old(flags), old(length)), ch);
              if r.ValOk? then
                errno == None && Val(h', index, flags, length) == r.v && hs == old(hs) && h'.OfValue() && index < 32 &&
                length <= ULLONG_MAX && flags.skipBody == old(flags.skipBody)
              else errno == Some(r.e)
    {
      h' := h;
      var r := ValueByte(Val(h, index, flags, length), ch);
      if r.ValErr? {
        errno, hs := Some(r.e), h;
        return;
      }
      ValueByteOk(Val(h, index, flags, length), ch);
      h', index, flags, length := r.v.hs, r.v.index, r.v.flags, r.v.length;
    }

    /** CR or LF ends the value. */
    method EndValue(data: string, start: nat, p: nat, m: Marks, ghost p0: Parser, ghost l0: Log, ghost from: Parser)
      returns (m': Marks)
      requires start <= p < |data| < 0x8000_0000 && errno == None && (data[p] == '\r' || data[p] == '\n')
      requires st == Header(Value) && Inv(View()) && Single(m, ValuePiece, start) && nread == from.nread + 1
      requires Scanned(p0, l0, data, from, p - start, p, View(), Pending(log, m, data, p))
      modifies this
      ensures errno.Some? ==> FailsAs(p0, l0, data, errno.value, p)
      ensures errno.None? ==>
                && View() == old(View()).(st := Header(AlmostDone), nread := nread)
                && Inv(View()) && m' == NO_MARKS
                && (if data[p] == '\n' then MidByte(p0, l0, data, p, View(), log)
                    else Sim(p0, l0, data, p + 1, View(), Pending(log, m', data, p + 1)))
    {
      hide Exec, Passes, RunBytes, Emit, Pending, ApplyOps, Sim, MidByte, Scanned;
      ghost var seen := Pending(log, m, data, p);
      ghost var total := from.nread + (p - start) + 1;
      ScanEnd(p0, l0, data, from, p - start, p, View(), seen);
      if total <= MAX_HEADER_SIZE { ValueEnd(p0, l0, data, p, View().(nread := total), seen); }
      m' := m;
      st := Header(AlmostDone);
      if data[p] == '\r' {
        m' := CallbackData(ValuePiece, data, p, m);
        CountScanned(p - start);
        PendingNone(log, data, p + 1);
      } else {
        CountScanned(p - start);
        if errno.Some? { return; }
        m' := CallbackData(ValuePiece, data, p, m);
      }
    }

    /** The inner loop over a value that does not matter. It stops in front of the line end or the
        buffer's end. After a whole block without either, the loop around it skips one more byte
        unread; by then the header is over the size limit. */
    method SkipValue(data: string, start: nat, at: nat, m: Marks, ghost p0: Parser, ghost l0: Log, ghost from: Parser)
      returns (p: nat, bad: bool)
      requires start <= at < |data| && st == Header(Value) && Single(m, ValuePiece, start)
      requires data[at] != '\r' && data[at] != '\n' && IsHeaderChar(data[at])
      requires Scanned(p0, l0, data, from, at - start, at, View().(hs := General), Pending(log, m, data, at))
      ensures at <= p < |data|
      ensures bad ==> FailsAs(p0, l0, data, InvalidHeaderToken, p)
      ensures !bad ==>
                Scanned(p0, l0, data, from, p + 1 - start, p + 1, View().(hs := General), Pending(log, m, data, p + 1))
    {
      hide Exec, Passes, RunBytes, Emit, Pending, ApplyOps, Sim, MidByte, ValueByte;
      p, bad := at, false;
      var left := |data| - p;
      var pe := p + (if left < MAX_HEADER_SIZE then left else MAX_HEADER_SIZE);
      while p != pe
        invariant at <= p <= pe <= |data| && !bad
        invariant Scanned(p0, l0, data, from, p - start, p, View().(hs := General), Pending(log, m, data, p))
        decreases pe - p
      {
        var ch := data[p];
        if ch == '\r' || ch == '\n' {
          p := p - 1;
          return;
        }
        ValueOne(p0, l0, data, from, p - start, p, View().(hs := General), log, m);
        GeneralByte(Val(General, index, flags, length), ch);
        if !IsHeaderChar(ch) {
          bad := true;
          return;
        }
        p := p + 1;
      }
      if p == |data| {
        p := p - 1;
      } else {
        ScanEnd(p0, l0, data, from, p - start, p, View().(hs := General), Pending(log, m, data, p));
      }
    }

    /** `s_body_identity` and `s_chunk_data`: as much of the body as the buffer holds is taken at once. */
    method ScanBody(data: string, p: nat, m: Marks, ghost p0: Parser, ghost l0: Log)
      returns (q: nat, again: bool, m': Marks)
      requires p < |data| && errno == None && Inv(View()) && MarksOk(st, m, p)
      requires st == Body(ChunkData) || st == Body(Identity)
      requires Sim(p0, l0, data, p, View(), Pending(log, m, data, p))
      modifies this
      ensures errno == None && p <= q < |data| && Inv(View()) && st.Body?
      ensures again ==> m' == NO_MARKS && st == Body(MessageDone) && MidByte(p0, l0, data, q, View(), log)
      ensures !again ==>
                && MarksOk(st, m', q + 1)
                && Sim(p0, l0, data, q + 1, View(), Pending(log, m', data, q + 1))
    {
      hide Exec, Passes, RunBytes, Emit, Pending, ApplyOps, Sim, MidByte;
      InsideAsserted(View());
      assert Asserted(View());
      var left := |data| - p;
      var take := if length < left then length else left;
      m' := if m.body < 0 then m.(body := p) else m;
      q := p + take - 1;
      ghost var seen := Pending(log, m, data, p);
      BodyMarked(log, m, data, p, q + 1);
      if st == Body(Identity) && take == length {
        WholeBodyTaken(p0, l0, data, p, View(), seen);
      } else {
        BodyTaken(p0, l0, data, p, View(), seen, take);
      }
      length := length - take;
      again := false;
      if length == 0 {
        if st == Body(Identity) {
          st := Body(MessageDone);
          m' := CallbackData(BodyPiece, data, q + 1, m');
          again := true;
        } else {
          st := Body(ChunkDataAlmostDone);
        }
      }
    }

    /** Feeds a buffer to the parser and returns how many of its bytes were taken. `data` is what one
        read of the socket returned, an `int` in the source. */
    method Execute(data: string) returns (n: nat)
      requires Valid() && |data| < 0x8000_0000
      modifies this
      ensures old(errno).Some? ==> n == 0 && View() == old(View()) && log == old(log) && errno == old(errno)
      ensures old(errno).None? && data == [] ==>
                View() == old(View()) && log == old(log) &&
                (if st == Line(StartReq) || st == Line(Dead) then n == 0 && errno.None? else n == 1 && errno.Some?)
      ensures old(errno).None? && data != [] ==>
                var r := RunBytes(old(View()), old(log), data);
                && (r.Failed? <==> errno.Some?)
                && (r.Failed? && r.e != HeaderOverflow ==> errno == Some(r.e) && n == r.at)
                && (r.Failed? && r.e == HeaderOverflow ==> r.at <= n < |data|)
                && (r.All? ==> n == |data| && View() == r.p && log == r.log)
                && (r.Exited? ==> n == r.used && View() == r.p && log == r.log)
      ensures errno.None? ==> Valid()
    {
      hide Exec, Passes, RunBytes, Emit, Pending, ApplyOps, Sim, MidByte, Inv, MarksOk, LogOk, Single, Get, Set;
      if errno.Some? { return 0; }
      if |data| == 0 {
        if st == Line(StartReq) || st == Line(Dead) { return 0; }
        errno := Some(InvalidEofState);
        return 1;
      }
      ghost var p0, l0 := View(), log;
      var m := if st == Header(Field) then NO_MARKS.(field := 0)
               else if st == Header(Value) then NO_MARKS.(value := 0)
               else if st.Url? then NO_MARKS.(url := 0)
               else NO_MARKS;
      ResumeMarks(st, log, m, data);
      SimStart(p0, l0, data);
      var p := 0;
      while p < |data|
        invariant p <= |data| && errno == None && Inv(View()) && MarksOk(st, m, p)
        invariant LogOk(st, Pending(log, m, data, p))
        invariant Sim(p0, l0, data, p, View(), Pending(log, m, data, p))
      {
        var exit;
        p, exit, m := ExecuteByte(data, p, m, p0, l0);
        if errno.Some? || exit { return p; }
      }
      SimEnd(p0, l0, data, View(), Pending(log, m, data, p));
      FlushMarks(data, m);
      return p;
    }

    /** The end of the buffer: the one mark there may be is reported. */
    method FlushMarks(data: string, m: Marks)
      requires MarksOk(st, m, |data|)
      modifies this`log
      ensures log == Pending(old(log), m, data, |data|)
    {
      hide Emit, Pending;
      assert (if m.field >= 0 then 1 else 0) + (if m.value >= 0 then 1 else 0)
           + (if m.url >= 0 then 1 else 0) + (if m.body >= 0 then 1 else 0) <= 1;
      PendingNone(log, data, |data|);
      var m' := CallbackData(FieldPiece, data, |data|, m);
      m' := CallbackData(ValuePiece, data, |data|, m');
      m' := CallbackData(UrlPiece, data, |data|, m');
      m' := CallbackData(BodyPiece, data, |data|, m');
    }

    /** One round of the outer loop: the byte at `p` is counted and the switch runs until it breaks. */
    method ExecuteByte(data: string, p: nat, m: Marks, ghost p0: Parser, ghost l0: Log)
      returns (p': nat, exit: bool, m': Marks)
      requires p < |data| < 0x8000_0000 && errno == None && Inv(View()) && MarksOk(st, m, p)
      requires LogOk(st, Pending(log, m, data, p)) && Sim(p0, l0, data, p, View(), Pending(log, m, data, p))
      modifies this
      ensures errno.Some? ==> FailsAs(p0, l0, data, errno.value, p')
      ensures errno.None? ==> p < p' <= |data| && Inv(View())
      ensures errno.None? && exit ==>
                LogOk(st, log) && RunBytes(p0, l0, data) == Exited(View(), log, p')
      ensures errno.None? && !exit ==>
                && MarksOk(st, m', p') && LogOk(st, Pending(log, m', data, p'))
                && Sim(p0, l0, data, p', View(), Pending(log, m', data, p'))
    {
      hide Exec, Passes, RunBytes, Emit, Pending, ApplyOps, Sim, MidByte, Inv, InvInside, MarksOk, LogOk, Single;
      ghost var from := View();
      p', exit, m' := p, false, m;
      EnterByte(p0, l0, data, p, from, Pending(log, m, data, p));
      if !(st.ParsingHeader() && nread + 1 > MAX_HEADER_SIZE) { CountedInv(from); }
      if st.ParsingHeader() {
        nread := nread + 1;
        if nread > MAX_HEADER_SIZE {
          errno := Some(HeaderOverflow);
          return;
        }
      }
      MarkedHeader(m, p);
      if Bulk(st) { InsideIsInv(View()); }
      var again := true;
      if st == Header(Field) {
        p', m' := ScanField(data, p, m, p0, l0, from);
        again := false;
      } else if st == Header(Value) {
        p', again, m' := ScanValue(data, p, m, p0, l0, from);
      } else if st == Body(ChunkData) || st == Body(Identity) {
        p', again, m' := ScanBody(data, p, m, p0, l0);
      }
      if errno.Some? { return; }
      if st == Header(AlmostDone) || st.Body? {
        Quiet(st, log, p');
        Quiet(st, Pending(log, m', data, p' + 1), p');
        InsideIsInv(View());
      }
      if again {
        PendingNone(log, data, p');
        exit, m' := Reexecute(data, p', m', p0, l0);
        if errno.Some? { return; }
      }
      p' := p' + 1;
    }

    /** Runs the switch on the byte at `p` until it breaks. */
    method Reexecute(data: string, p: nat, m: Marks, ghost p0: Parser, ghost l0: Log)
      returns (exit: bool, m': Marks)
      requires p < |data| && errno == None && !Bulk(st)
      requires InvInside(View()) && MarksOk(st, m, p) && LogOk(st, Pending(log, m, data, p))
      requires MidByte(p0, l0, data, p, View(), Pending(log, m, data, p))
      modifies this
      ensures errno.Some? ==> FailsAs(p0, l0, data, errno.value, p)
      ensures errno.None? ==> Inv(View())
      ensures errno.None? && exit ==> LogOk(st, log) && RunBytes(p0, l0, data) == Exited(View(), log, p + 1)
      ensures errno.None? && !exit ==>
                && MarksOk(st, m', p + 1) && LogOk(st, Pending(log, m', data, p + 1))
                && Sim(p0, l0, data, p + 1, View(), Pending(log, m', data, p + 1))
    {
      hide Exec, Passes, RunBytes, Emit, Pending, ApplyOps, Sim, MidByte, Rank, LogOk;
      var again := true;
      exit, m' := false, m;
      while again
        invariant errno.None?
        invariant again ==>
                    && !exit && !Bulk(st) && InvInside(View()) && MarksOk(st, m', p)
                    && LogOk(st, Pending(log, m', data, p))
                    && MidByte(p0, l0, data, p, View(), Pending(log, m', data, p))
        invariant !again && exit ==> Inv(View()) && LogOk(st, log) && RunBytes(p0, l0, data) == Exited(View(), log, p + 1)
        invariant !again && !exit ==>
                    && Inv(View()) && MarksOk(st, m', p + 1) && LogOk(st, Pending(log, m', data, p + 1))
                    && Sim(p0, l0, data, p + 1, View(), Pending(log, m', data, p + 1))
        decreases if again then Rank(st) + 1 else 0
      {
        again, exit, m' := RunPass(data, p, m', p0, l0);
        if errno.Some? { return; }
        PendingNone(log, data, p);
      }
    }
  }

  lemma AgainNotBulk(q: Parser, ch: char)
    requires Exec(q, ch).Again? && !Bulk(q.st)
    ensures var r := Exec(q, ch); !Bulk(r.p.st) && !r.p.st.Url? && Rank(r.p.st) < Rank(q.st)
    ensures var r := Exec(q, ch); r.ops == [] || !(r.ops[0].Begin? || r.ops[0].Continue?)
  {
    AgainGoesDown(q, ch);
  }

  lemma ExitNotifies(q: Parser, ch: char)
    requires Exec(q, ch).Exit?
    ensures Exec(q, ch).ops == [Notify(MessageComplete)]
  {
  }

  lemma NameStaysGeneral(index: nat, usesTe: bool, c: char)
    ensures NameByte(Name(General, index, usesTe), c) == Name(General, index, usesTe)
  {
  }

  lemma BadByte(v: Val, ch: char)
    requires !IsHeaderChar(ch)
    ensures ValueByte(v, ch) == ValErr(InvalidHeaderToken)
  {
  }

  lemma GeneralByte(v: Val, ch: char)
    requires v.hs == General
    ensures ValueByte(v, ch) == if IsHeaderChar(ch) then ValOk(v) else ValErr(InvalidHeaderToken)
  {
  }

  /** A piece that was cut by the end of the last buffer is marked again from the first byte. */
  lemma ResumeMarks(st: St, log: Log, m: Marks, data: string)
    requires LogOk(st, log)
    requires m == if st == Header(Field) then NO_MARKS.(field := 0)
                  else if st == Header(Value) then NO_MARKS.(value := 0)
                  else if st.Url? then NO_MARKS.(url := 0)
                  else NO_MARKS
    ensures MarksOk(st, m, 0) && Pending(log, m, data, 0) == log
  {
    if st == Header(Field) {
      EmitNothing(log, FieldPiece);
    } else if st == Header(Value) {
      EmitNothing(log, ValuePiece);
    } else if st.Url? {
      EmitNothing(log, UrlPiece);
    }
  }

  lemma SimStart(p0: Parser, l0: Log, data: string)
    ensures Sim(p0, l0, data, 0, p0, l0)
  {
    assert data[0..] == data;
  }

  lemma SimEnd(p0: Parser, l0: Log, data: string, cur: Parser, seen: Log)
    requires Sim(p0, l0, data, |data|, cur, seen)
    ensures RunBytes(p0, l0, data) == All(cur, seen)
  {
  }
}
