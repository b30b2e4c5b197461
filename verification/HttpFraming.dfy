/** What the byte stream of `HttpStream` means: cutting the input does not matter, a printed chunked
    body is read back, and sizes are accepted exactly when they fit. */
module HttpFraming {
  import opened Arithmetic
  import opened Sequences
  import opened Wrappers
  import opened HttpStep
  import opened HttpStream
  import opened HttpParser

  // ---------- Two buffers instead of one ----------

  ghost predicate TakesAll(r: Outcome, n: nat) { r.All? || (r.Exited? && r.used == n) }

  lemma {:induction false} UsedAtMost(p: Parser, log: Log, data: string)
    ensures var r := RunBytes(p, log, data); r.Exited? ==> 0 < r.used <= |data|
    decreases |data|
  {
    hide ByteStep;
    if data != [] && ByteStep(p, log, data[0]).Done? {
      UsedAtMost(ByteStep(p, log, data[0]).p, ByteStep(p, log, data[0]).log, data[1..]);
    }
  }

  /** If one call takes all of `a + b`, then a call on `a` followed by a call on `b` takes everything as
      well and leaves the same parser and the same callback stream. */
  lemma SplitInvariant(p: Parser, log: Log, a: string, b: string)
    requires b != [] && TakesAll(RunBytes(p, log, a + b), |a + b|)
    ensures RunBytes(p, log, a).All?
    ensures var r, s := RunBytes(p, log, a), RunBytes(p, log, a + b);
            var t := RunBytes(r.p, r.log, b);
            TakesAll(t, |b|) && t.p == s.p && t.log == s.log && t.Exited? == s.Exited?
  {
    RunConcat(p, log, a, b);
    UsedAtMost(p, log, a);
  }

  /** The same for the parser object: `two` is fed in two calls what `one` is fed in one. */
  method FeedInTwo(one: PushParser, two: PushParser, a: string, b: string) returns (whole: bool)
    requires one != two && one.Valid() && two.Valid() && one.errno.None? && two.errno.None?
    requires one.View() == two.View() && one.log == two.log
    requires a != [] && b != [] && |a + b| < 0x8000_0000
    modifies one, two
    ensures whole == TakesAll(RunBytes(old(one.View()), old(one.log), a + b), |a + b|)
    ensures whole ==> one.View() == two.View() && one.log == two.log && one.errno.None? && two.errno.None?
  {
    hide RunBytes, Inv, LogOk;
    var n := one.Execute(a + b);
    whole := one.errno.None? && n == |a + b|;
    if whole { SplitInvariant(two.View(), two.log, a, b); }
    var i := two.Execute(a);
    if two.errno.None? && i == |a| {
      var j := two.Execute(b);
    }
  }

  // ---------- Chunk sizes ----------

  function Hex(n: nat): string {
    if n < 16 then [HexDigit(n)] else Hex(n / 16) + [HexDigit(n % 16)]
  }

  predicate HexDigits(ds: string) { forall i | 0 <= i < |ds| :: Unhex(ds[i]) >= 0 }

  function HexValue(ds: string): nat
    requires HexDigits(ds)
  {
    if ds == [] then 0 else HexValue(ds[..|ds| - 1]) * 16 + Unhex(ds[|ds| - 1])
  }

  lemma {:induction false} HexRoundTrip(n: nat)
    ensures HexDigits(Hex(n)) && HexValue(Hex(n)) == n && Hex(n) != []
  {
    if n < 16 {
      UnhexDigit(n);
    } else {
      HexRoundTrip(n / 16);
      UnhexDigit(n % 16);
      assert Hex(n)[..|Hex(n)| - 1] == Hex(n / 16);
    }
  }

  function Pow16(k: nat): nat { if k == 0 then 1 else 16 * Pow16(k - 1) }

  lemma {:induction false} HexLength(n: nat, k: nat)
    requires k > 0 && n < Pow16(k)
    ensures |Hex(n)| <= k
    decreases k
  {
    if n >= 16 { HexLength(n / 16, k - 1); }
  }

  lemma SixteenDigits()
    ensures Pow16(16) == TWO_64
  {
    assert Pow16(4) == 0x1_0000;
    assert Pow16(8) == 0x1_0000 * Pow16(4);
    assert Pow16(12) == 0x1_0000 * Pow16(8);
    assert Pow16(16) == 0x1_0000 * Pow16(12);
  }

  /** The digits and the number as the decoder's own table has them. */
  predicate SizeDigits(ds: string) { forall i | 0 <= i < |ds| :: ChunkDigit(ds[i]) >= 0 }

  function SizeValue(ds: string): nat
    requires SizeDigits(ds)
  {
    if ds == [] then 0 else SizeValue(ds[..|ds| - 1]) * 16 + ChunkDigit(ds[|ds| - 1])
  }

  /** Bytes that do not end the digits. */
  predicate SizeText(ds: string) { '\r' !in ds && ';' !in ds && ' ' !in ds }

  predicate Fits(ds: string) { SizeDigits(ds) && SizeValue(ds) <= ULLONG_MAX - 16 }

  predicate Ascii(ds: string) { forall i | 0 <= i < |ds| :: ds[i] as int < 128 }

  lemma SizeByte(p: Parser, log: Log, ch: char)
    requires p.st == Frame(SizeStart) || p.st == Frame(Size)
    requires p.nread < MAX_HEADER_SIZE && p.length <= ULLONG_MAX && ch != '\r' && ch != ';' && ch != ' '
    ensures var before := if p.st == Frame(SizeStart) then 0 else p.length;
            ByteStep(p, log, ch) ==
            if ChunkDigit(ch) < 0 then Bad(InvalidChunkSize)
            else if before > (ULLONG_MAX - 16) / 16 then Bad(InvalidContentLength)
            else Done(p.(st := Frame(Size), nread := p.nread + 1, length := before * 16 + ChunkDigit(ch)), log)
  {
    var c := Counted(p);
    assert Exec(c, ch) == FramePass(c, p.st.frame, ch);
  }

  /** The parser after some digits of a size that fits. */
  function Sized(p: Parser, ds: string): Parser
    requires Fits(ds)
  {
    if ds == [] then p else p.(st := Frame(Size), nread := |ds|, length := SizeValue(ds))
  }

  lemma SizeNext(p: Parser, log: Log, init: string, ch: char)
    requires p.st == Frame(SizeStart) && p.nread == 0 && p.length <= ULLONG_MAX
    requires Fits(init) && SizeText([ch]) && |init| < MAX_HEADER_SIZE
    ensures RunBytes(Sized(p, init), log, [ch]) ==
            if Fits(init + [ch]) then All(Sized(p, init + [ch]), log)
            else Failed(if ChunkDigit(ch) < 0 then InvalidChunkSize else InvalidContentLength, 0)
  {
    hide ByteStep, RunBytes, SizeValue, SizeDigits, ChunkDigit;
    assert ch in [ch];
    SizeByte(Sized(p, init), log, ch);
    RunOne(Sized(p, init), log, ch);
    SizeSnoc(init, ch);
    if ChunkDigit(ch) >= 0 { SizeBound(SizeValue(init), ChunkDigit(ch)); }
  }

  lemma SizeSnoc(init: string, ch: char)
    ensures SizeDigits(init + [ch]) <==> SizeDigits(init) && ChunkDigit(ch) >= 0
    ensures SizeDigits(init + [ch]) ==> SizeValue(init + [ch]) == SizeValue(init) * 16 + ChunkDigit(ch)
    ensures ChunkDigit(ch) < 16 && (init == [] ==> SizeValue(init) == 0)
  {
    var ds := init + [ch];
    assert ds[..|init|] == init;
    if SizeDigits(ds) {
      assert ds[|init|] == ch;
      assert forall i | 0 <= i < |init| :: init[i] == ds[i];
    }
  }

  lemma SizeBound(before: nat, d: nat)
    requires d < 16
    ensures before > (ULLONG_MAX - 16) / 16 <==> before * 16 + d > ULLONG_MAX - 16
  {
  }

  /** A text up to the end of the size is accepted if and only if its bytes are digits of the decoder's
      table and its value leaves room below 2^64 - 16; the size is then that value. */
  lemma {:induction false} SizeExact(p: Parser, log: Log, ds: string)
    requires p.st == Frame(SizeStart) && p.nread == 0 && p.length <= ULLONG_MAX
    requires SizeText(ds) && |ds| <= MAX_HEADER_SIZE
    ensures var r := RunBytes(p, log, ds); if Fits(ds) then r == All(Sized(p, ds), log) else r.Failed?
    decreases |ds|
  {
    hide ByteStep, RunBytes, SizeValue, SizeDigits, ChunkDigit, Sized;
    if ds == [] {
      SizeNothing(p);
      RunNothing(p, log);
    } else {
      var n := |ds| - 1;
      var init, last := ds[..n], [ds[n]];
      assert ds == init + last;
      assert SizeText(init) && SizeText(last);
      SizeExact(p, log, init);
      RunConcat(p, log, init, last);
      SizeSnoc(init, ds[n]);
      if Fits(init) { SizeNext(p, log, init, ds[n]); }
    }
  }

  lemma SizeNothing(p: Parser)
    ensures Fits([]) && Sized(p, []) == p
  {
  }

  lemma {:induction false} SameDigits(ds: string)
    ensures HexDigits(ds) <==> SizeDigits(ds) && Ascii(ds)
    ensures HexDigits(ds) ==> HexValue(ds) == SizeValue(ds)
  {
    if HexDigits(ds) && ds != [] {
      SameDigits(ds[..|ds| - 1]);
    }
  }

  /** Where accepted sizes are what they say: an accepted text is a hexadecimal number of the size the
      parser goes on with if and only if none of its bytes is 128 or above. */
  lemma SizeIsHex(p: Parser, log: Log, ds: string)
    requires p.st == Frame(SizeStart) && p.nread == 0 && p.length <= ULLONG_MAX
    requires ds != [] && SizeText(ds) && |ds| <= MAX_HEADER_SIZE && RunBytes(p, log, ds).All?
    ensures HexDigits(ds) && HexValue(ds) == RunBytes(p, log, ds).p.length <==> Ascii(ds)
  {
    hide RunBytes, SizeValue, HexValue, SizeDigits, HexDigits, Ascii;
    SizeExact(p, log, ds);
    SameDigits(ds);
  }

  /** The parser takes a line feed alone for the end of a line. */
  predicate IsLineEnd(e: string) { e == CRLF || e == "\n" }

  lemma RunOne(p: Parser, log: Log, ch: char)
    ensures var s := ByteStep(p, log, ch);
            RunBytes(p, log, [ch]) ==
            match s case Bad(e) => Failed(e, 0) case Left(q, l) => Exited(q, l, 1) case Done(q, l) => All(q, l)
  {
    hide ByteStep;
    assert [ch][1..] == [];
  }

  // ---------- Chunked bodies ----------

  function EncodeChunk(c: string): string { Hex(|c|) + CRLF + c + CRLF }

  function EncodeChunks(cs: seq<string>): string {
    if cs == [] then "0" + CRLF + CRLF else EncodeChunk(cs[0]) + EncodeChunks(cs[1..])
  }

  function ChunkEvents(c: string): Log { [Signalled(ChunkHeader), Data(BodyPiece, c), Signalled(ChunkComplete)] }

  function BodyEvents(cs: seq<string>): Log {
    if cs == [] then [Signalled(ChunkHeader), Signalled(ChunkComplete), Signalled(MessageComplete)]
    else ChunkEvents(cs[0]) + BodyEvents(cs[1..])
  }

  function Shown(e: Event): string { if e.Data? && e.piece == BodyPiece then e.bytes else [] }

  function Is(e: Event, s: Signal): nat { if e == Signalled(s) then 1 else 0 }

  function BodyOf(log: Log): string {
    if log == [] then [] else Shown(log[0]) + BodyOf(log[1..])
  }

  function Concat(cs: seq<string>): string { if cs == [] then [] else cs[0] + Concat(cs[1..]) }

  function Count(log: Log, s: Signal): nat {
    if log == [] then 0 else Is(log[0], s) + Count(log[1..], s)
  }

  ghost predicate ChunkStart(p: Parser) {
    p.st == Frame(SizeStart) && p.nread == 0 && p.flags.chunked && !p.flags.trailing && p.length <= ULLONG_MAX
  }

  /** The stream after one byte that is simply taken. */
  lemma RunHead(p: Parser, log: Log, ch: char, rest: string, q: Parser, log': Log)
    requires ByteStep(p, log, ch) == Done(q, log')
    ensures RunBytes(p, log, [ch] + rest) == Later(1, RunBytes(q, log', rest))
  {
    hide ByteStep;
    assert ([ch] + rest)[1..] == rest;
  }

  lemma SizeEnd(q: Parser, log: Log)
    requires (q.st == Frame(Size) || q.st == Frame(Parameters)) && q.nread + 2 <= MAX_HEADER_SIZE
    ensures RunBytes(q, log, CRLF) ==
            All(if q.length == 0 then q.(st := Header(FieldStart), nread := 0, flags := q.flags.(trailing := true))
                else q.(st := Body(ChunkData), nread := 0), log + [Signalled(ChunkHeader)])
  {
    var c := Counted(q);
    var q1 := q.(st := Frame(SizeAlmostDone), nread := q.nread + 1);
    var c1 := Counted(q1);
    assert Exec(c, '\r') == Move(c, Frame(SizeAlmostDone));
    assert Exec(c1, '\n') == ChunkSizeAlmostDonePass(c1, '\n');
    assert ByteStep(q, log, '\r') == Done(q1, log);
    RunHead(q, log, '\r', "\n", q1, log);
    RunOne(q1, log, '\n');
    assert ['\r'] + "\n" == CRLF;
  }

  lemma HexText(ds: string)
    requires HexDigits(ds)
    ensures SizeText(ds)
  {
  }

  lemma SizeLine(p: Parser, log: Log, n: nat)
    requires ChunkStart(p) && n <= ULLONG_MAX - 16
    ensures RunBytes(p, log, Hex(n) + CRLF) ==
            All(if n == 0 then p.(st := Header(FieldStart), length := 0, flags := p.flags.(trailing := true))
                else p.(st := Body(ChunkData), length := n), log + [Signalled(ChunkHeader)])
  {
    HexRoundTrip(n);
    SixteenDigits();
    HexLength(n, 16);
    SameDigits(Hex(n));
    HexText(Hex(n));
    SizeExact(p, log, Hex(n));
    var q := p.(st := Frame(Size), nread := |Hex(n)|, length := n);
    RunConcat(p, log, Hex(n), CRLF);
    SizeEnd(q, log);
  }

  /** The byte 128 alone reads as the last chunk, and behind the digit 1 as sixteen bytes to come. */
  lemma HighByteSize(p: Parser, log: Log)
    requires ChunkStart(p)
    ensures var high := [0x80 as char]; var l := log + [Signalled(ChunkHeader)];
            && RunBytes(p, log, high + CRLF) ==
               All(p.(st := Header(FieldStart), length := 0, flags := p.flags.(trailing := true)), l)
            && RunBytes(p, log, "1" + high + CRLF) == All(p.(st := Body(ChunkData), length := 16), l)
  {
    hide RunBytes, ByteStep;
    var high := [0x80 as char];
    var one := "1" + high;
    assert high[..0] == [] && one[..1] == "1" && "1"[..0] == [];
    assert SizeValue("1") == 1;
    SizeExact(p, log, high);
    SizeExact(p, log, one);
    RunConcat(p, log, high, CRLF);
    RunConcat(p, log, one, CRLF);
    SizeEnd(p.(st := Frame(Size), nread := 1, length := 0), log);
    SizeEnd(p.(st := Frame(Size), nread := 2, length := 16), log);
  }

  lemma ChunkEnd(p: Parser, log: Log)
    requires p.st == Body(ChunkDataAlmostDone)
    ensures RunBytes(p, log, CRLF) == All(p.(st := Frame(SizeStart), nread := 0), log + [Signalled(ChunkComplete)])
  {
    var q := p.(st := Body(ChunkDataDone));
    assert Exec(p, '\r') == Next(q, [Flush(BodyPiece)]);
    assert Exec(q, '\n') == Next(q.(nread := 0, st := Frame(SizeStart)), [Notify(ChunkComplete)]);
    RunHead(p, log, '\r', "\n", q, log);
    RunOne(q, log, '\n');
    assert ['\r'] + "\n" == CRLF;
  }

  /** One printed chunk: its bytes are reported as one body piece between the chunk signals. */
  lemma ChunkRoundTrip(p: Parser, log: Log, c: string)
    requires ChunkStart(p) && 0 < |c| <= ULLONG_MAX - 16
    ensures RunBytes(p, log, EncodeChunk(c)) == All(p.(length := 0), log + ChunkEvents(c))
  {
    hide RunBytes;
    SizeLine(p, log, |c|);
    var q, l := p.(st := Body(ChunkData), length := |c|), log + [Signalled(ChunkHeader)];
    RunConcat(p, log, Hex(|c|) + CRLF, c);
    assert c[..|c|] == c && c[|c|..] == [];
    BodyRun(q, l, c, |c|);
    var q2, l2 := TakeBody(q, |c|), Emit(l, BodyPiece, c);
    assert RunBytes(q2, l2, []) == All(q2, l2) by { RunNothing(q2, l2); }
    RunConcat(p, log, Hex(|c|) + CRLF + c, CRLF);
    ChunkEnd(q2, l2);
    assert l2 + [Signalled(ChunkComplete)] == log + ChunkEvents(c);
  }

  lemma RunNothing(p: Parser, log: Log)
    ensures RunBytes(p, log, []) == All(p, log)
  {
  }

  /** After the last chunk: the trailer is empty, the message is complete and the parser is ready for the
      next message, or has left if the connection was upgraded. */
  function AfterBody(p: Parser): Parser {
    var q := p.(nread := 2, length := 0, flags := p.flags.(trailing := true));
    q.(st := NewMessage(q))
  }

  lemma BlankLine(p: Parser, log: Log)
    requires p.st == Header(FieldStart) && p.nread == 0 && p.flags.trailing
    ensures var q := p.(nread := 2, st := NewMessage(p));
            var l := log + [Signalled(ChunkComplete), Signalled(MessageComplete)];
            RunBytes(p, log, CRLF) == if p.upgrade then Exited(q, l, 2) else All(q, l)
  {
    var c := p.(nread := 1);
    var p1 := c.(st := Frame(HeadersAlmostDone));
    assert Exec(c, '\r') == FieldStartPass(c, '\r');
    assert ByteStep(p, log, '\r') == Done(p1, log);
    BlankLineEnd(p1, log);
    hide ByteStep, RunBytes;
    RunHead(p, log, '\r', "\n", p1, log);
    RunOne(p1, log, '\n');
    assert ['\r'] + "\n" == CRLF;
  }

  lemma BlankLineEnd(p: Parser, log: Log)
    requires p.st == Frame(HeadersAlmostDone) && p.nread == 1 && p.flags.trailing
    ensures var q := p.(nread := 2, st := NewMessage(p));
            var l := log + [Signalled(ChunkComplete), Signalled(MessageComplete)];
            ByteStep(p, log, '\n') == if p.upgrade then Left(q, l) else Done(q, l)
  {
    var c := p.(nread := 2);
    var d := c.(st := Body(MessageDone));
    assert Exec(c, '\n') == HeadersAlmostDonePass(c, '\n');
    assert Exec(d, '\n') == MessageDonePass(d);
    var l1 := log + [Signalled(ChunkComplete)];
    assert l1 + [Signalled(MessageComplete)] == log + [Signalled(ChunkComplete), Signalled(MessageComplete)];
    assert Passes(c, log, '\n') == Passes(d, l1, '\n');
  }

  /** Section 4.1 of RFC 7230: any body cut into chunks and printed is read back chunk by chunk, exactly the
      printed bytes are taken, and the message is completed once. */
  lemma {:induction false} ChunkedRoundTrip(p: Parser, log: Log, cs: seq<string>)
    requires ChunkStart(p) && forall c | c in cs :: 0 < |c| <= ULLONG_MAX - 16
    ensures var r := RunBytes(p, log, EncodeChunks(cs));
            && TakesAll(r, |EncodeChunks(cs)|) && r.Exited? == p.upgrade
            && r.p == AfterBody(p) && r.log == log + BodyEvents(cs)
    decreases |cs|
  {
    hide RunBytes, EncodeChunk, ChunkEvents, NewMessage;
    if cs == [] {
      LastChunk(p, log);
    } else {
      ChunkRoundTrip(p, log, cs[0]);
      RunConcat(p, log, EncodeChunk(cs[0]), EncodeChunks(cs[1..]));
      ChunkedRoundTrip(p.(length := 0), log + ChunkEvents(cs[0]), cs[1..]);
      Regroup(log, ChunkEvents(cs[0]), BodyEvents(cs[1..]));
    }
  }

  lemma LastChunk(p: Parser, log: Log)
    requires ChunkStart(p)
    ensures var r := RunBytes(p, log, EncodeChunks([]));
            && TakesAll(r, |EncodeChunks([])|) && r.Exited? == p.upgrade
            && r.p == AfterBody(p) && r.log == log + BodyEvents([])
  {
    hide RunBytes;
    assert Hex(0) + CRLF == "0" + CRLF;
    SizeLine(p, log, 0);
    var q := p.(st := Header(FieldStart), length := 0, flags := p.flags.(trailing := true));
    RunConcat(p, log, "0" + CRLF, CRLF);
    BlankLine(q, log + [Signalled(ChunkHeader)]);
    assert log + [Signalled(ChunkHeader)] + [Signalled(ChunkComplete), Signalled(MessageComplete)] == log + BodyEvents([]);
  }

  lemma BodyOfCons(e: Event, rest: Log)
    ensures BodyOf([e] + rest) == Shown(e) + BodyOf(rest)
  {
    assert ([e] + rest)[1..] == rest;
  }

  lemma CountCons(e: Event, rest: Log, s: Signal)
    ensures Count([e] + rest, s) == Is(e, s) + Count(rest, s)
  {
    assert ([e] + rest)[1..] == rest;
  }

  /** What those events say: the body pieces spell the body, and there is one end of message. */
  lemma {:induction false} BodyEventsMean(cs: seq<string>)
    ensures BodyOf(BodyEvents(cs)) == Concat(cs)
    ensures Count(BodyEvents(cs), MessageComplete) == 1
    ensures Count(BodyEvents(cs), ChunkHeader) == |cs| + 1 == Count(BodyEvents(cs), ChunkComplete)
  {
    hide BodyOf, Count, BodyEvents;
    EventsOf(cs);
    if cs == [] {
      var x, y, z := Signalled(ChunkHeader), Signalled(ChunkComplete), Signalled(MessageComplete);
      EventsAlone(x, y, z, []);
      assert [x, y, z] + [] == BodyEvents(cs);
      Nothing();
    } else {
      BodyEventsMean(cs[1..]);
      EventsAlone(Signalled(ChunkHeader), Data(BodyPiece, cs[0]), Signalled(ChunkComplete), BodyEvents(cs[1..]));
    }
  }

  lemma EventsOf(cs: seq<string>)
    ensures BodyEvents(cs) ==
            if cs == [] then [Signalled(ChunkHeader), Signalled(ChunkComplete), Signalled(MessageComplete)]
            else [Signalled(ChunkHeader), Data(BodyPiece, cs[0]), Signalled(ChunkComplete)] + BodyEvents(cs[1..])
  {
  }

  lemma Nothing()
    ensures BodyOf([]) == [] && forall s :: Count([], s) == 0
  {
  }

  lemma EventsAlone(x: Event, y: Event, z: Event, rest: Log)
    ensures BodyOf([x, y, z] + rest) == Shown(x) + Shown(y) + Shown(z) + BodyOf(rest)
    ensures forall s :: Count([x, y, z] + rest, s) == Is(x, s) + Is(y, s) + Is(z, s) + Count(rest, s)
  {
    hide *;
    var b, c := [y] + ([z] + rest), [z] + rest;
    OneByOne(x, y, z, rest);
    BodyOfCons(x, b); BodyOfCons(y, c); BodyOfCons(z, rest);
    Regroup(Shown(x), Shown(y), Shown(z) + BodyOf(rest));
    Regroup(Shown(x) + Shown(y), Shown(z), BodyOf(rest));
    forall s ensures Count([x, y, z] + rest, s) == Is(x, s) + Is(y, s) + Is(z, s) + Count(rest, s) {
      CountCons(x, b, s); CountCons(y, c, s); CountCons(z, rest, s);
    }
  }

  lemma OneByOne(x: Event, y: Event, z: Event, rest: Log)
    ensures [x, y, z] + rest == [x] + ([y] + ([z] + rest))
  {
  }
}
