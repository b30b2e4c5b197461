/** Requests with their bodies, one behind the other on a connection. */
module HttpConnection {
  import opened Arithmetic
  import opened Sequences
  import opened HttpStep
  import opened HttpStream
  import opened HttpParser
  import opened HttpFraming
  import opened HttpHeaders
  import opened HttpRequest
  import opened HttpMessages
  import V = HttpValues

  // ---------- Chunks as they may be written ----------

  /** The size of a chunk in hexadecimal digits of either case and with zeros before it, an extension, and the data. */
  datatype Chunk = Chunk(size: string, extension: string, data: string)

  ghost predicate ChunkOk(c: Chunk) {
    && c.size != [] && HexDigits(c.size) && HexValue(c.size) == |c.data| && |c.data| <= ULLONG_MAX - 16
    && (c.extension != [] ==> c.extension[0] == ';' || c.extension[0] == ' ')
    && (forall k | 0 <= k < |c.extension| :: c.extension[k] != '\r')
    && |c.size| + |c.extension| + 2 <= MAX_HEADER_SIZE
  }

  function SizeLineText(c: Chunk): string { c.size + (c.extension + CRLF) }

  function ChunkText(c: Chunk): string { SizeLineText(c) + (c.data + CRLF) }

  lemma ExtensionByte(p: Parser, log: Log, ch: char)
    requires (p.st == Frame(Parameters) && ch != '\r') || (p.st == Frame(Size) && (ch == ';' || ch == ' '))
    requires p.nread < MAX_HEADER_SIZE
    ensures ByteStep(p, log, ch) == Done(p.(st := Frame(Parameters), nread := p.nread + 1), log)
  {
    var q := Counted(p);
    assert Exec(q, ch) == FramePass(q, p.st.frame, ch);
  }

  lemma {:induction false} ExtensionRead(p: Parser, log: Log, s: string)
    requires p.st == Frame(Parameters) || (p.st == Frame(Size) && (s == [] || s[0] == ';' || s[0] == ' '))
    requires p.nread + |s| <= MAX_HEADER_SIZE && forall k | 0 <= k < |s| :: s[k] != '\r'
    ensures RunBytes(p, log, s) == All(p.(st := if s == [] then p.st else Frame(Parameters), nread := p.nread + |s|), log)
    decreases |s|
  {
    hide ByteStep;
    if s != [] {
      ExtensionByte(p, log, s[0]);
      ExtensionRead(p.(st := Frame(Parameters), nread := p.nread + 1), log, s[1..]);
    }
  }

  /** The line of a chunk: whatever its extension says, the size is what its digits spell. */
  lemma SizeLineRead(p: Parser, log: Log, c: Chunk)
    requires ChunkStart(p) && ChunkOk(c)
    ensures RunBytes(p, log, SizeLineText(c)) ==
            All(if c.data == [] then p.(st := Header(FieldStart), length := 0, flags := p.flags.(trailing := true))
                else p.(st := Body(ChunkData), length := |c.data|), log + [Signalled(ChunkHeader)])
  {
    hide RunBytes, HexValue, SizeValue, HexDigits, SizeDigits;
    SizeFits(c.size);
    SizeExact(p, log, c.size);
    var a := p.(st := Frame(Size), nread := |c.size|, length := |c.data|);
    ExtensionRead(a, log, c.extension);
    var b := a.(st := if c.extension == [] then Frame(Size) else Frame(Parameters), nread := a.nread + |c.extension|);
    SizeEnd(b, log);
    On(a, log, c.extension, b, log, CRLF);
    On(p, log, c.size, a, log, c.extension + CRLF);
  }

  lemma SizeFits(ds: string)
    requires HexDigits(ds) && HexValue(ds) <= ULLONG_MAX - 16
    ensures HttpFraming.Fits(ds) && SizeValue(ds) == HexValue(ds) && SizeText(ds)
  {
    hide HexValue, SizeValue;
    SameDigits(ds);
    HexText(ds);
  }

  lemma ChunkRead(p: Parser, log: Log, c: Chunk)
    requires ChunkStart(p) && ChunkOk(c) && c.data != []
    ensures RunBytes(p, log, ChunkText(c)) == All(p.(length := 0), log + ChunkEvents(c.data))
  {
    hide RunBytes, SizeLineText, ChunkOk;
    SizeLineRead(p, log, c);
    var n, l := |c.data|, log + [Signalled(ChunkHeader)];
    var a := p.(st := Body(ChunkData), length := n);
    assert c.data[..n] == c.data && c.data[n..] == [];
    BodyRun(a, l, c.data, n);
    var b, l2 := TakeBody(a, n), l + [Data(BodyPiece, c.data)];
    RunNothing(b, l2);
    ChunkEnd(b, l2);
    On(a, l, c.data, b, l2, CRLF);
    On(p, log, SizeLineText(c), a, l, c.data + CRLF);
    assert l2 + [Signalled(ChunkComplete)] == log + ChunkEvents(c.data);
  }

  function ChunksText(cs: seq<Chunk>): string { if cs == [] then [] else ChunkText(cs[0]) + ChunksText(cs[1..]) }

  function ChunksLog(cs: seq<Chunk>): Log { if cs == [] then [] else ChunkEvents(cs[0].data) + ChunksLog(cs[1..]) }

  ghost predicate ChunksOk(cs: seq<Chunk>) { forall k | 0 <= k < |cs| :: ChunkOk(cs[k]) && cs[k].data != [] }

  lemma {:induction false} ChunksRead(p: Parser, log: Log, cs: seq<Chunk>)
    requires ChunkStart(p) && ChunksOk(cs)
    ensures RunBytes(p, log, ChunksText(cs)) == All(if cs == [] then p else p.(length := 0), log + ChunksLog(cs))
    decreases |cs|
  {
    hide RunBytes, ChunkText, ChunkEvents, ChunkOk;
    if cs == [] {
      RunNothing(p, log);
      assert log + ChunksLog(cs) == log;
    } else {
      var q, l := p.(length := 0), log + ChunkEvents(cs[0].data);
      ChunkRead(p, log, cs[0]);
      ChunksRead(q, l, cs[1..]);
      On(p, log, ChunkText(cs[0]), q, l, ChunksText(cs[1..]));
      Regroup(log, ChunkEvents(cs[0].data), ChunksLog(cs[1..]));
    }
  }

  // ---------- The trailer ----------

  /** The line feed behind the trailer. */
  lemma TrailerDone(q: Parser, log: Log)
    requires q.st == Frame(HeadersAlmostDone) && q.flags.trailing
    ensures var end, l := q.(st := NextSt(InfoOf(q), q.major, q.minor)), log + [Signalled(ChunkComplete), Signalled(MessageComplete)];
            Passes(q, log, '\n') == if q.upgrade then Left(end, l) else Done(end, l)
  {
    var d := q.(st := Body(MessageDone));
    var l1 := log + [Signalled(ChunkComplete)];
    assert Exec(q, '\n') == HeadersAlmostDonePass(q, '\n') == Again(d, [Notify(ChunkComplete)]);
    assert Exec(d, '\n') == MessageDonePass(d);
    assert l1 + [Signalled(MessageComplete)] == log + [Signalled(ChunkComplete), Signalled(MessageComplete)];
    assert Passes(q, log, '\n') == Passes(d, l1, '\n');
  }

  lemma TrailerEnds(q: Parser, log: Log, blank: string)
    requires q.st == Header(FieldStart) && q.flags.trailing && IsLineEnd(blank) && q.nread + |blank| <= MAX_HEADER_SIZE
    ensures var end := q.(st := NextSt(InfoOf(q), q.major, q.minor), nread := q.nread + |blank|);
            var l := log + [Signalled(ChunkComplete), Signalled(MessageComplete)];
            RunBytes(q, log, blank) == if q.upgrade then Exited(end, l, |blank|) else All(end, l)
  {
    hide NextSt, RunBytes, Passes, ByteStep;
    var n := q.nread + |blank|;
    var c := q.(st := Frame(HeadersAlmostDone), nread := n);
    TrailerDone(c, log);
    if blank == "\n" {
      FeedBlank(q, log);
      RunOne(q, log, '\n');
      assert ['\n'] == blank;
    } else {
      ReturnBlank(q, log);
      var b := c.(nread := n - 1);
      LastFeed(b, log);
      RunOne(b, log, '\n');
      RunHead(q, log, '\r', ['\n'], b, log);
      assert ['\r'] + ['\n'] == blank;
    }
  }

  lemma LastFeed(b: Parser, log: Log)
    requires b.st == Frame(HeadersAlmostDone) && b.nread < MAX_HEADER_SIZE
    ensures ByteStep(b, log, '\n') == Passes(b.(nread := b.nread + 1), log, '\n')
  {
    hide Passes;
  }

  /** A chunked body: chunks, the line of the last chunk, header lines, and a blank line. */
  datatype Chunked = Chunked(chunks: seq<Chunk>, last: Chunk, trailer: seq<HeaderLine>, blank: string)

  /** What is known when the trailer begins. */
  function InTrailer(i: Info): Info { i.(flags := i.flags.(trailing := true), length := 0) }

  function AfterTrailer(i: Info, b: Chunked): Info { Gathered(InTrailer(i), b.trailer) }

  ghost predicate ChunkedOk(i: Info, b: Chunked) {
    && ChunksOk(b.chunks) && ChunkOk(b.last) && b.last.data == [] && HeadersOk(InTrailer(i), b.trailer) && IsLineEnd(b.blank)
    && |HeadersText(b.trailer)| + |b.blank| <= MAX_HEADER_SIZE
  }

  function ChunkedText(b: Chunked): string {
    ChunksText(b.chunks) + (SizeLineText(b.last) + (HeadersText(b.trailer) + b.blank))
  }

  function ChunkedLog(b: Chunked): Log {
    ChunksLog(b.chunks) + ([Signalled(ChunkHeader)] + (HeadersLog(b.trailer) + [Signalled(ChunkComplete), Signalled(MessageComplete)]))
  }

  /** The header lines of a trailer count as those of the head do. */
  lemma TrailerRead(q: Parser, log: Log, b: Chunked)
    requires q.st == Header(FieldStart) && q.nread == 0 && q.flags.trailing && HeadersOk(InfoOf(q), b.trailer) && IsLineEnd(b.blank)
    requires |HeadersText(b.trailer)| + |b.blank| <= MAX_HEADER_SIZE && !EndsWith(log, FieldPiece)
    ensures var r := RunBytes(q, log, HeadersText(b.trailer) + b.blank); var i := Gathered(InfoOf(q), b.trailer);
            && TakesAll(r, |HeadersText(b.trailer) + b.blank|) && r.Exited? == q.upgrade
            && r.log == log + (HeadersLog(b.trailer) + [Signalled(ChunkComplete), Signalled(MessageComplete)])
            && r.p == Told(q, i).(st := NextSt(i, q.major, q.minor), hs := r.p.hs, index := r.p.index,
                                  nread := |HeadersText(b.trailer)| + |b.blank|)
  {
    hide RunBytes, HeadersText, HeadersLog, Gathered, HeadersOk, NextSt;
    assert [b.blank[0]] + b.blank[1..] == b.blank;
    GatheredTrails(InfoOf(q), b.trailer);
    var a := HeadersRead(q, log, b.trailer, b.blank[0], b.blank[1..]);
    TrailerEnds(a, log + HeadersLog(b.trailer), b.blank);
    assert InfoOf(a) == Gathered(InfoOf(q), b.trailer);
    Regroup(log, HeadersLog(b.trailer), [Signalled(ChunkComplete), Signalled(MessageComplete)]);
  }

  lemma AddsTrails(i: Info, h: HeaderLine)
    ensures Adds(i, h).flags.trailing == i.flags.trailing
  {
    hide V.Heard, V.Elements, Folded, NumberOf;
    if h.value != [] && Folded(h.name) != CONTENT_LENGTH {
      if Folded(h.name) == TRANSFER_ENCODING {
        HeardKeeps(V.EncodingList, i.flags, V.Elements(h.value), true);
      } else {
        HeardKeeps(V.ConnectionList, i.flags, V.Elements(h.value), true);
      }
    }
  }

  lemma {:induction false} GatheredTrails(i: Info, hs: seq<HeaderLine>)
    ensures Gathered(i, hs).flags.trailing == i.flags.trailing
    decreases |hs|
  {
    hide Adds;
    if hs != [] {
      AddsTrails(i, hs[0]);
      GatheredTrails(Adds(i, hs[0]), hs[1..]);
    }
  }

  /** Section 4.1 of RFC 7230 as it may be written: sizes in any spelling, extensions and trailers. The data of the
      chunks is reported chunk by chunk, the trailer as header lines, and the message is completed once. */
  lemma ChunkedRead(p: Parser, log: Log, b: Chunked)
    requires ChunkStart(p) && ChunkedOk(InfoOf(p), b)
    ensures var r := RunBytes(p, log, ChunkedText(b)); var i := AfterTrailer(InfoOf(p), b);
            && TakesAll(r, |ChunkedText(b)|) && r.Exited? == p.upgrade && r.log == log + ChunkedLog(b)
            && r.p == Told(p, i).(st := NextSt(i, p.major, p.minor), hs := r.p.hs, index := r.p.index,
                                  nread := |HeadersText(b.trailer)| + |b.blank|)
  {
    hide RunBytes, ChunksText, ChunksLog, SizeLineText, HeadersText, HeadersLog, Gathered, HeadersOk, ChunkOk, NextSt;
    ChunksRead(p, log, b.chunks);
    var a, l := if b.chunks == [] then p else p.(length := 0), log + ChunksLog(b.chunks);
    SizeLineRead(a, l, b.last);
    var q, l2 := p.(st := Header(FieldStart), length := 0, flags := p.flags.(trailing := true)), l + [Signalled(ChunkHeader)];
    TrailerRead(q, l2, b);
    var rest := HeadersText(b.trailer) + b.blank;
    On(a, l, SizeLineText(b.last), q, l2, rest);
    On(p, log, ChunksText(b.chunks), a, l, SizeLineText(b.last) + rest);
    var last := HeadersLog(b.trailer) + [Signalled(ChunkComplete), Signalled(MessageComplete)];
    Regroup(l, [Signalled(ChunkHeader)], last);
    Regroup(log, ChunksLog(b.chunks), [Signalled(ChunkHeader)] + last);
  }

  // ---------- Requests with their bodies ----------

  datatype Payload = Nothing | Bytes(s: string) | Pieces(body: Chunked)

  datatype Message = Message(head: Request, payload: Payload)

  /** A request whose body is what its head announces. */
  ghost predicate MessageOk(m: Message) {
    && RequestOk(m.head)
    && match Frames(m.head)
       case NoBody => m.payload.Nothing?
       case Leaves => m.payload.Nothing?
       case Sized(n) => m.payload.Bytes? && |m.payload.s| == n
       case Chunks => m.payload.Pieces? && ChunkedOk(Said(m.head), m.payload.body)
       case Refused(_) => false
  }

  function PayloadText(b: Payload): string {
    match b case Nothing => [] case Bytes(s) => s case Pieces(body) => ChunkedText(body)
  }

  function PayloadLog(b: Payload): Log {
    match b
    case Nothing => [Signalled(MessageComplete)]
    case Bytes(s) => [Data(BodyPiece, s), Signalled(MessageComplete)]
    case Pieces(body) => ChunkedLog(body)
  }

  ghost function MessageText(m: Message): string
    requires LineOk(m.head.line)
  {
    HeadText(m.head) + PayloadText(m.payload)
  }

  function MessageLog(m: Message): Log { HeadLog(m.head) + [Signalled(HeadersComplete)] + PayloadLog(m.payload) }

  /** What head and trailer say. */
  function SaidAll(m: Message): Info { if m.payload.Pieces? then AfterTrailer(Said(m.head), m.payload.body) else Said(m.head) }

  ghost predicate Keeps(m: Message) {
    LineOk(m.head.line) && Persists(SaidAll(m), MajorOf(m.head.line.version), MinorOf(m.head.line.version))
  }

  predicate Exits(m: Message) { Upgrades(Said(m.head), m.head.line.verb) }

  /** The header bytes that still count when the next message begins. */
  function Counting(m: Message): nat {
    if m.payload.Pieces? then |HeadersText(m.payload.body.trailer)| + |m.payload.body.blank| else 0
  }

  /** The parser behind a message: ready for the next one, or dead. */
  ghost predicate Behind(q: Parser, m: Message) {
    && LineOk(m.head.line)
    && q.st == Line(if Keeps(m) then StartReq else Dead) && q.verb == m.head.line.verb && q.nread == Counting(m)
    && q.major == MajorOf(m.head.line.version) && q.minor == MinorOf(m.head.line.version)
    && q.upgrade == Exits(m) && q.flags == SaidAll(m).flags && q.usesTe == SaidAll(m).usesTe
  }

  lemma PayloadRead(a: Parser, log: Log, m: Message, hs: Hs, index: nat)
    requires MessageOk(m) && !m.payload.Nothing? && Sane(Said(m.head)) && !EndsWith(log, BodyPiece)
    requires a == AfterHead(m.head, if m.payload.Bytes? then Body(Identity) else Frame(SizeStart), hs, index)
    ensures var r := RunBytes(a, log, PayloadText(m.payload));
            && TakesAll(r, |PayloadText(m.payload)|) && r.Exited? == Exits(m) && r.log == log + PayloadLog(m.payload) && Behind(r.p, m)
  {
    hide RunBytes, Gathered, LineOk, HeadersOk, ChunkedText, ChunkedLog, HeadersText, ChunkedOk;
    if m.payload.Bytes? {
      SizedBody(a, log, m.payload.s);
    } else {
      assert InfoOf(a) == Said(m.head);
      ChunkedRead(a, log, m.payload.body);
    }
  }

  /** A whole request, from any parser between two messages: exactly its bytes are taken, the callbacks report its
      target, its headers and its body once and in order, and then the parser waits for the next request, is dead, or
      has left because the connection speaks another protocol now. */
  lemma MessageRead(p: Parser, log: Log, m: Message)
    requires p.st == Line(StartReq) && MessageOk(m) && p.nread + |HeadText(m.head)| <= MAX_HEADER_SIZE
    ensures var r := RunBytes(p, log, MessageText(m));
            TakesAll(r, |MessageText(m)|) && r.Exited? == Exits(m) && r.log == log + MessageLog(m) && Behind(r.p, m)
  {
    hide RunBytes, HeadText, HeadLog, Gathered, LineOk, HeadersOk, ChunkedText, ChunkedLog, ChunkedOk;
    var r := m.head;
    HeadOk(r);
    var hs, index := HeadRead(p, log, r);
    var l := log + HeadLog(r) + [Signalled(HeadersComplete)];
    Flat(log, HeadLog(r), [Signalled(HeadersComplete)], PayloadLog(m.payload));
    if m.payload.Nothing? {
      assert MessageText(m) == HeadText(r);
    } else {
      var a := AfterHead(r, if m.payload.Bytes? then Body(Identity) else Frame(SizeStart), hs, index);
      PayloadRead(a, l, m, hs, index);
      On(p, log, HeadText(r), a, l, PayloadText(m.payload));
    }
  }

  lemma HeadOk(r: Request)
    requires RequestOk(r)
    ensures LineOk(r.line) && r.line.verb < METHOD_COUNT
  {
    hide HeadersOk;
  }

  lemma Flat(a: Log, b: Log, c: Log, d: Log)
    ensures a + b + c + d == a + (b + c + d)
  {
  }

  // ---------- Several requests on one connection ----------

  /** Requests one behind the other: all but the last keep the connection, and no head is too large behind the trailer
      before it. */
  ghost predicate Chained(ms: seq<Message>) {
    ms == [] ||
    (&& MessageOk(ms[0]) && Chained(ms[1..])
     && (|ms| > 1 ==> Keeps(ms[0]) && !Exits(ms[0]) && Counting(ms[0]) + |HeadText(ms[1].head)| <= MAX_HEADER_SIZE))
  }

  ghost function Stream(ms: seq<Message>): string
    requires Chained(ms)
  {
    if ms == [] then [] else MessageText(ms[0]) + Stream(ms[1..])
  }

  function StreamLog(ms: seq<Message>): Log { if ms == [] then [] else MessageLog(ms[0]) + StreamLog(ms[1..]) }

  /** Requests one behind the other are read one by one: nothing of one is taken for a part of the next. */
  lemma {:induction false} Pipeline(p: Parser, log: Log, ms: seq<Message>)
    requires p.st == Line(StartReq) && ms != [] && Chained(ms) && p.nread + |HeadText(ms[0].head)| <= MAX_HEADER_SIZE
    ensures var r, m := RunBytes(p, log, Stream(ms)), ms[|ms| - 1];
            TakesAll(r, |Stream(ms)|) && r.Exited? == Exits(m) && r.log == log + StreamLog(ms) && Behind(r.p, m)
    decreases |ms|
  {
    hide RunBytes, HeadText, MessageText, MessageLog, MessageOk, Exits, Behind, Keeps, Counting, LineOk;
    var m, more := ms[0], ms[1..];
    LineOfMessage(m);
    MessageRead(p, log, m);
    var r := RunBytes(p, log, MessageText(m));
    if more == [] {
      OnlyMessage(ms);
    } else {
      BehindGoesOn(r.p, m);
      Pipeline(r.p, r.log, more);
      On(p, log, MessageText(m), r.p, r.log, Stream(more));
      Regroup(log, MessageLog(m), StreamLog(more));
    }
  }

  lemma OnlyMessage(ms: seq<Message>)
    requires |ms| == 1 && Chained(ms) && LineOk(ms[0].head.line)
    ensures Stream(ms) == MessageText(ms[0]) && StreamLog(ms) == MessageLog(ms[0])
  {
    hide HeadText, MessageText, MessageLog, MessageOk, LineOk;
    assert ms[1..] == [];
    assert MessageText(ms[0]) + [] == MessageText(ms[0]) && MessageLog(ms[0]) + [] == MessageLog(ms[0]);
  }

  lemma BehindGoesOn(q: Parser, m: Message)
    requires LineOk(m.head.line) && Behind(q, m) && Keeps(m)
    ensures q.st == Line(StartReq) && q.nread == Counting(m)
  {
    hide LineOk, SaidAll;
  }

  lemma LineOfMessage(m: Message)
    requires MessageOk(m)
    ensures LineOk(m.head.line)
  {
    hide HeadersOk, Frames;
  }

  /** Behind a message that does not keep the connection, line ends are passed over and anything else is an error. */
  lemma {:induction false} DeadStream(p: Parser, log: Log, s: string, c: char)
    requires p.st == Line(Dead) && AllEnds(s) && c != '\r' && c != '\n' && p.nread + |s| < MAX_HEADER_SIZE
    ensures RunBytes(p, log, s + [c]) == Failed(ClosedConnection, |s|)
    decreases |s|
  {
    hide ByteStep, RunBytes;
    if s == [] {
      DeadByte(p, log, c);
      RunOne(p, log, c);
      assert s + [c] == [c];
    } else {
      DeadByte(p, log, s[0]);
      var q := p.(nread := p.nread + 1);
      RunHead(p, log, s[0], s[1..] + [c], q, log);
      DeadStream(q, log, s[1..], c);
      assert [s[0]] + (s[1..] + [c]) == s + [c];
    }
  }

  lemma DeadByte(p: Parser, log: Log, c: char)
    requires p.st == Line(Dead) && p.nread < MAX_HEADER_SIZE
    ensures ByteStep(p, log, c) == if c == '\r' || c == '\n' then Done(p.(nread := p.nread + 1), log) else Bad(ClosedConnection)
  {
    assert Exec(Counted(p), c) == LinePass(Counted(p), Dead, c);
  }
}
