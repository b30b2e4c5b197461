/** Whole requests: a request line, header lines, a blank line and a body, and what the parser makes of them. */
module HttpMessages {
  import opened Arithmetic
  import opened Sequences
  import opened HttpStep
  import opened HttpStream
  import opened HttpParser
  import opened HttpFraming
  import opened HttpHeaders
  import opened HttpRequest
  import V = HttpValues

  // ---------- All header lines ----------

  function HeadersText(hs: seq<HeaderLine>): string { if hs == [] then [] else HeaderText(hs[0]) + HeadersText(hs[1..]) }

  function HeadersLog(hs: seq<HeaderLine>): Log { if hs == [] then [] else HeaderLog(hs[0]) + HeadersLog(hs[1..]) }

  /** What the headers say together. */
  function Gathered(i: Info, hs: seq<HeaderLine>): Info
    decreases |hs|
  {
    if hs == [] then i else Gathered(Adds(i, hs[0]), hs[1..])
  }

  ghost predicate HeadersOk(i: Info, hs: seq<HeaderLine>)
    decreases |hs|
  {
    hs == [] || (HeaderOk(i, hs[0]) && HeadersOk(Adds(i, hs[0]), hs[1..]))
  }

  /** The next byte of a text that begins with header lines, or with `next`. */
  lemma NextStart(i: Info, hs: seq<HeaderLine>, next: char, more: string) returns (ch: char, rest: string)
    requires HeadersOk(i, hs) && !IsBlank(next)
    ensures HeadersText(hs) + ([next] + more) == [ch] + rest && !IsBlank(ch)
  {
    var t := HeadersText(hs) + ([next] + more);
    ch, rest := t[0], t[1..];
    if hs != [] {
      hide V.Plain, Folded, FoldsOk, Gap, IsNumber, NumberOf;
      assert HeaderText(hs[0])[0] == hs[0].name[0] && IsToken(hs[0].name[0]);
    }
  }

  lemma PieceEnds(log: Log, h: HeaderLine)
    ensures !EndsWith(log + HeaderLog(h), FieldPiece)
  {
    hide ValueSaid;
  }

  /** All header lines, up to a line that does not begin with a blank. */
  lemma {:induction false} HeadersRead(p: Parser, log: Log, hs: seq<HeaderLine>, next: char, more: string) returns (q: Parser)
    requires p.st == Header(FieldStart) && HeadersOk(InfoOf(p), hs) && !IsBlank(next) && !EndsWith(log, FieldPiece)
    requires p.nread + |HeadersText(hs)| <= MAX_HEADER_SIZE
    ensures q == Told(p, Gathered(InfoOf(p), hs)).(st := Header(FieldStart), hs := q.hs, index := q.index, nread := p.nread + |HeadersText(hs)|)
    ensures RunBytes(p, log, HeadersText(hs) + ([next] + more)) ==
            Later(|HeadersText(hs)|, RunBytes(q, log + HeadersLog(hs), [next] + more))
    ensures !EndsWith(log + HeadersLog(hs), FieldPiece)
    decreases |hs|
  {
    hide RunBytes, HeaderOk, Adds, HeaderText, HeaderLog, EndsWith;
    var t := [next] + more;
    if hs == [] {
      q := p;
      assert HeadersText(hs) + t == t && log + HeadersLog(hs) == log;
    } else {
      var h, others := hs[0], hs[1..];
      var i := Adds(InfoOf(p), h);
      var ch, rest := NextStart(i, others, next, more);
      var a := HeaderRead(p, log, h, ch, rest);
      PieceEnds(log, h);
      q := HeadersRead(a, log + HeaderLog(h), others, next, more);
      Regroup(HeaderText(h), HeadersText(others), t);
      Regroup(log, HeaderLog(h), HeadersLog(others));
      LaterTwice(|HeaderText(h)|, |HeadersText(others)|, RunBytes(q, log + HeadersLog(hs), t));
    }
  }

  lemma LaterTwice(m: nat, n: nat, o: Outcome)
    ensures Later(m, Later(n, o)) == Later(m + n, o)
  {
  }

  /** Header values leave these flags alone. */
  lemma {:induction false} HeardKeeps(k: V.List, f: Flags, es: seq<string>, first: bool)
    ensures var g := V.Heard(k, f, es, first);
            g.trailing == f.trailing && g.skipBody == f.skipBody && g.contentLength == f.contentLength && g.upgrade == f.upgrade
    decreases |es|
  {
    hide V.ElementState, V.Stops, V.Swallows;
    if |es| == 1 {
      SettingKeeps(f, V.ElementState(k, es[0], first));
    } else if |es| > 1 && !V.Stops(k, es[0], first) {
      if V.Swallows(k, es[0], first) {
        HeardKeeps(k, f, es[2..], false);
      } else {
        SettingKeeps(f, V.ElementState(k, es[0], first));
        HeardKeeps(k, SetConnection(f, V.ElementState(k, es[0], first)), es[1..], false);
      }
    }
  }

  lemma ConnectionKeeps(f: Flags, h: Hs)
    ensures var g := SetConnection(f, h);
            g.trailing == f.trailing && g.skipBody == f.skipBody && g.contentLength == f.contentLength && g.upgrade == f.upgrade
  {
    match h
    case ConnKeepAlive =>
    case ConnClose =>
    case ConnUpgrade =>
    case _ =>
  }

  lemma SettingKeeps(f: Flags, h: Hs)
    ensures var g := SetConnection(f, h);
            g.trailing == f.trailing && g.skipBody == f.skipBody && g.contentLength == f.contentLength && g.upgrade == f.upgrade
    ensures var g := FinishValue(f, h);
            g.trailing == f.trailing && g.skipBody == f.skipBody && g.contentLength == f.contentLength && g.upgrade == f.upgrade
  {
    ConnectionKeeps(f, h);
    hide SetConnection;
  }

  /** The length is known exactly if a Content-Length has been counted, and it is never the value that stands for an
      unknown one. */
  ghost predicate Sane(i: Info) {
    && !i.flags.trailing && !i.flags.skipBody
    && (if i.flags.contentLength then i.length <= ULLONG_MAX - 6 else i.length == NO_LENGTH)
  }

  lemma AddsSane(i: Info, h: HeaderLine)
    requires Sane(i) && HeaderOk(i, h)
    ensures Sane(Adds(i, h)) && (Adds(i, h).flags.contentLength <==> i.flags.contentLength || IsLength(h))
  {
    hide V.Heard, V.Elements, Folded, V.Plain, Tokens, Gap, FoldsOk, IsNumber, NumberOf;
    NamesApart();
    HeardKeeps(V.EncodingList, i.flags, V.Elements(h.value), true);
    HeardKeeps(V.ConnectionList, i.flags, V.Elements(h.value), true);
    if h.value == [] { NoLengthHere(i, h); }
  }

  lemma NoLengthHere(i: Info, h: HeaderLine)
    requires HeaderOk(i, h) && h.value == []
    ensures !IsLength(h)
  {
    hide Folded, V.Plain, Tokens, Gap, FoldsOk;
  }

  lemma {:induction false} GatheredSane(i: Info, hs: seq<HeaderLine>)
    requires Sane(i) && HeadersOk(i, hs)
    ensures Sane(Gathered(i, hs))
    ensures Gathered(i, hs).flags.contentLength <==> i.flags.contentLength || exists k :: 0 <= k < |hs| && IsLength(hs[k])
    decreases |hs|
  {
    hide HeaderOk, Adds, Sane, IsLength;
    if hs != [] {
      AddsSane(i, hs[0]);
      GatheredSane(Adds(i, hs[0]), hs[1..]);
      assert forall k | 0 <= k < |hs| - 1 :: hs[1..][k] == hs[k + 1];
      assert forall k | 0 < k < |hs| :: hs[k] == hs[1..][k - 1];
    }
  }

  // ---------- The blank line ----------

  /** How a body is framed, if there is one (section 3.3.3 of RFC 7230). */
  datatype Framing = NoBody | Sized(n: nat) | Chunks | Leaves | Refused(e: Errno)

  predicate Upgrades(i: Info, verb: nat) { verb == CONNECT || (i.flags.upgrade && i.flags.connUpgrade) }

  function FramingOf(i: Info, verb: nat): Framing {
    if i.usesTe && i.flags.contentLength then Refused(UnexpectedContentLength)
    else if verb == CONNECT then Leaves
    else if i.flags.chunked then Chunks
    else if !i.usesTe && i.length != 0 && i.length != NO_LENGTH then Sized(i.length)
    else if Upgrades(i, verb) then Leaves
    else if i.usesTe then Refused(InvalidTransferEncoding)
    else NoBody
  }

  /** Whether the connection goes on after the message (section 6.3 of RFC 7230). */
  predicate Persists(i: Info, major: nat, minor: nat) {
    if major == 0 || minor == 0 then i.flags.keepAlive else !i.flags.close
  }

  function NextSt(i: Info, major: nat, minor: nat): St { Line(if Persists(i, major, minor) then StartReq else Dead) }

  function Ready(q: Parser): Parser { q.(nread := 0, upgrade := Upgrades(InfoOf(q), q.verb)) }

  /** What the line feed of the blank line does. */
  lemma HeadDone(q: Parser, log: Log)
    requires q.st == Frame(HeadersAlmostDone) && Sane(InfoOf(q)) && q.nread <= MAX_HEADER_SIZE
    ensures var l, a := log + [Signalled(HeadersComplete)], Ready(q);
            var end := a.(st := NextSt(InfoOf(q), q.major, q.minor));
            Passes(q, log, '\n') ==
            match FramingOf(InfoOf(q), q.verb)
            case NoBody => Done(end, l + [Signalled(MessageComplete)])
            case Sized(_) => Done(a.(st := Body(Identity)), l)
            case Chunks => Done(a.(st := Frame(SizeStart)), l)
            case Leaves => Left(end, l + [Signalled(MessageComplete)])
            case Refused(e) => Bad(e)
  {
    var d := q.(st := Frame(HeadersDone), upgrade := Upgrades(InfoOf(q), q.verb));
    assert Exec(q, '\n') == HeadersAlmostDonePass(q, '\n');
    if !(q.usesTe && q.flags.contentLength) {
      assert Exec(d, '\n') == HeadersDonePass(d, '\n');
      assert Passes(q, log, '\n') == Passes(d, log + [Signalled(HeadersComplete)], '\n');
    }
  }

  /** The blank line behind the headers. */
  lemma HeadEnds(q: Parser, log: Log, blank: string)
    requires q.st == Header(FieldStart) && Sane(InfoOf(q)) && IsLineEnd(blank) && q.nread + |blank| <= MAX_HEADER_SIZE
    ensures var l, a := log + [Signalled(HeadersComplete)], Ready(q);
            var end := a.(st := NextSt(InfoOf(q), q.major, q.minor));
            RunBytes(q, log, blank) ==
            match FramingOf(InfoOf(q), q.verb)
            case NoBody => All(end, l + [Signalled(MessageComplete)])
            case Sized(_) => All(a.(st := Body(Identity)), l)
            case Chunks => All(a.(st := Frame(SizeStart)), l)
            case Leaves => Exited(end, l + [Signalled(MessageComplete)], |blank|)
            case Refused(e) => Failed(e, |blank| - 1)
  {
    hide FramingOf, NextSt, RunBytes, Passes;
    var n := q.nread + |blank|;
    var c := q.(st := Frame(HeadersAlmostDone), nread := n);
    HeadDone(c, log);
    if blank == "\n" {
      FeedBlank(q, log);
      RunOne(q, log, '\n');
      assert ['\n'] == blank;
    } else {
      ReturnBlank(q, log);
      var b := c.(nread := n - 1);
      assert ByteStep(b, log, '\n') == Passes(c, log, '\n');
      hide ByteStep;
      RunOne(b, log, '\n');
      RunHead(q, log, '\r', ['\n'], b, log);
      assert ['\r'] + ['\n'] == blank;
    }
  }

  lemma FeedBlank(q: Parser, log: Log)
    requires q.st == Header(FieldStart) && q.nread < MAX_HEADER_SIZE
    ensures ByteStep(q, log, '\n') == Passes(q.(st := Frame(HeadersAlmostDone), nread := q.nread + 1), log, '\n')
  {
    var c := Counted(q);
    var d := c.(st := Frame(HeadersAlmostDone));
    assert Exec(c, '\n') == FieldStartPass(c, '\n') == Again(d, []);
    assert Passes(c, log, '\n') == Passes(d, log, '\n') by { hide Exec; }
  }

  lemma ReturnBlank(q: Parser, log: Log)
    requires q.st == Header(FieldStart) && q.nread < MAX_HEADER_SIZE
    ensures ByteStep(q, log, '\r') == Done(q.(st := Frame(HeadersAlmostDone), nread := q.nread + 1), log)
  {
    assert Exec(Counted(q), '\r') == FieldStartPass(Counted(q), '\r');
  }

  // ---------- Bodies of known length ----------

  lemma LastByte(a: Parser, log: Log, c: char)
    requires a.st == Body(Identity) && a.length == 1
    ensures var end, l := a.(st := NewMessage(a), length := 0), Emit(log, BodyPiece, [c]) + [Signalled(MessageComplete)];
            ByteStep(a, log, c) == if a.upgrade then Left(end, l) else Done(end, l)
  {
    hide Emit;
    var d := a.(length := 0, st := Body(MessageDone));
    assert Exec(a, c) == BodyPass(a) == Again(d, [Finish(BodyPiece)]);
    assert Exec(d, c) == MessageDonePass(d);
    assert Passes(a, log, c) == Passes(d, Emit(log, BodyPiece, [c]), c);
  }

  lemma BodyButLast(a: Parser, log: Log, s: string)
    requires a.st == Body(Identity) && a.length == |s| + 1 && !EndsWith(log, BodyPiece)
    ensures RunBytes(a, log, s) == All(a.(length := 1), if s == [] then log else log + [Data(BodyPiece, s)])
  {
    hide RunBytes;
    if s == [] {
      RunNothing(a, log);
    } else {
      BodyRun(a, log, s, |s|);
      assert s[..|s|] == s && s[|s|..] == [];
      RunNothing(a.(length := 1), log + [Data(BodyPiece, s)]);
    }
  }

  /** Exactly the bytes that were announced are the body: they are one piece, and the message is complete. */
  lemma SizedBody(a: Parser, log: Log, s: string)
    requires a.st == Body(Identity) && a.length == |s| > 0 && !EndsWith(log, BodyPiece)
    ensures var end, l := a.(st := NewMessage(a), length := 0), log + [Data(BodyPiece, s), Signalled(MessageComplete)];
            RunBytes(a, log, s) == if a.upgrade then Exited(end, l, |s|) else All(end, l)
  {
    hide RunBytes, ByteStep, Emit, EndsWith;
    var n := |s| - 1;
    var init, c := s[..n], s[n];
    assert init + [c] == s;
    var b, l := a.(length := 1), if n == 0 then log else log + [Data(BodyPiece, init)];
    BodyButLast(a, log, init);
    LastByte(b, l, c);
    RunOne(b, l, c);
    On(a, log, init, b, l, [c]);
    GlueLast(log, init, c, s);
  }

  lemma GlueLast(log: Log, init: string, c: char, s: string)
    requires init + [c] == s && !EndsWith(log, BodyPiece)
    ensures Emit(if init == [] then log else log + [Data(BodyPiece, init)], BodyPiece, [c]) + [Signalled(MessageComplete)] ==
            log + [Data(BodyPiece, s), Signalled(MessageComplete)]
  {
    if init == [] { assert s == [c]; }
  }

  // ---------- Whole requests ----------

  datatype Request = Request(line: RequestLine, headers: seq<HeaderLine>, blank: string)

  ghost predicate RequestOk(r: Request) { LineOk(r.line) && HeadersOk(NOTHING, r.headers) && IsLineEnd(r.blank) }

  function HeadText(r: Request): string
    requires r.line.verb < METHOD_COUNT
  {
    LineText(r.line) + (HeadersText(r.headers) + r.blank)
  }

  function Said(r: Request): Info { Gathered(NOTHING, r.headers) }

  /** The callbacks up to the end of the headers. */
  function HeadLog(r: Request): Log {
    [Signalled(MessageBegin), Data(UrlPiece, r.line.target)] + HeadersLog(r.headers)
  }

  function Frames(r: Request): Framing { FramingOf(Said(r), r.line.verb) }

  ghost predicate GoesOn(r: Request)
    requires LineOk(r.line)
  {
    Persists(Said(r), MajorOf(r.line.version), MinorOf(r.line.version))
  }

  /** The parser behind the head of a request, but for what its matchers leave behind. */
  ghost function AfterHead(r: Request, st: St, hs: Hs, index: nat): Parser
    requires LineOk(r.line)
  {
    Parser(st, hs, index, 0, Said(r).length, Said(r).flags, Said(r).usesTe,
           r.line.verb, MajorOf(r.line.version), MinorOf(r.line.version), Upgrades(Said(r), r.line.verb))
  }

  ghost function EndSt(r: Request): St
    requires LineOk(r.line)
  {
    Line(if GoesOn(r) then StartReq else Dead)
  }

  /** The head of a request, from any parser between two messages: the callbacks, and what the framing leads to. */
  lemma HeadRead(p: Parser, log: Log, r: Request) returns (hs: Hs, index: nat)
    requires p.st == Line(StartReq) && RequestOk(r) && p.nread + |HeadText(r)| <= MAX_HEADER_SIZE
    ensures var n, l := |HeadText(r)|, log + HeadLog(r) + [Signalled(HeadersComplete)];
            RunBytes(p, log, HeadText(r)) ==
            match Frames(r)
            case NoBody => All(AfterHead(r, EndSt(r), hs, index), l + [Signalled(MessageComplete)])
            case Sized(_) => All(AfterHead(r, Body(Identity), hs, index), l)
            case Chunks => All(AfterHead(r, Frame(SizeStart), hs, index), l)
            case Leaves => Exited(AfterHead(r, EndSt(r), hs, index), l + [Signalled(MessageComplete)], n)
            case Refused(e) => Failed(e, n - 1)
    ensures Sane(Said(r))
  {
    hide RunBytes, LineText, HeadersText, HeadersLog, Gathered, HeadersOk, FramingOf;
    var l1 := log + [Signalled(MessageBegin), Data(UrlPiece, r.line.target)];
    LineRead(p, log, r.line);
    var a := AfterLine(p, r.line);
    assert [r.blank[0]] + r.blank[1..] == r.blank;
    var q := HeadersRead(a, l1, r.headers, r.blank[0], r.blank[1..]);
    GatheredSane(NOTHING, r.headers);
    var l2 := l1 + HeadersLog(r.headers);
    HeadEnds(q, l2, r.blank);
    On(p, log, LineText(r.line), a, l1, HeadersText(r.headers) + r.blank);
    Regroup(log, [Signalled(MessageBegin), Data(UrlPiece, r.line.target)], HeadersLog(r.headers));
    hs, index := q.hs, q.index;
  }

  /** The first byte of a Content-Length value: it must be a digit, and there must not have been a length before. */
  lemma LengthBegins(p: Parser, log: Log, h: HeaderLine, d: char)
    requires p.st == Header(FieldStart) && IsLength(h) && h.name != [] && Tokens(h.name) && Gap(h.gap)
    requires p.nread + |h.name| + |h.gap| + 2 <= MAX_HEADER_SIZE && !EndsWith(log, FieldPiece)
    requires !IsBlank(d) && d != '\r' && d != '\n' && (p.flags.contentLength || !IsDigit(d))
    ensures RunBytes(p, log, h.name + (":" + h.gap) + [d]) ==
            Failed(if IsDigit(d) then UnexpectedContentLength else InvalidContentLength, |h.name| + 1 + |h.gap|)
  {
    hide RunBytes, Tokens, Gap, Resolves, Folded;
    var c, l := NameAndGap(p, log, h);
    ResolvedNames(c.hs, c.index, Folded(h.name));
    LengthByte(c, l, d);
    RunOne(c, l, d);
    On(p, log, h.name + (":" + h.gap), c, l, [d]);
  }

  lemma LengthByte(c: Parser, l: Log, d: char)
    requires c.st == Header(DiscardWs) && c.hs == ContentLength && c.nread < MAX_HEADER_SIZE
    requires !IsBlank(d) && d != '\r' && d != '\n' && (c.flags.contentLength || !IsDigit(d))
    ensures ByteStep(c, l, d) == Bad(if IsDigit(d) then UnexpectedContentLength else InvalidContentLength)
  {
    assert Exec(Counted(c), d) == ValueStartPass(Counted(c), d);
  }

  /** A request is refused at the first digit of its second Content-Length, wherever the two headers stand. */
  lemma SecondLength(p: Parser, log: Log, r: RequestLine, hs: seq<HeaderLine>, h: HeaderLine, d: char)
    requires p.st == Line(StartReq) && LineOk(r) && HeadersOk(NOTHING, hs) && (exists k :: 0 <= k < |hs| && IsLength(hs[k]))
    requires IsLength(h) && h.name != [] && Tokens(h.name) && Gap(h.gap) && IsDigit(d)
    requires p.nread + |LineText(r)| + |HeadersText(hs)| + |h.name| + |h.gap| + 2 <= MAX_HEADER_SIZE
    ensures var n := |LineText(r)| + |HeadersText(hs)| + |h.name| + 1 + |h.gap|;
            RunBytes(p, log, LineText(r) + (HeadersText(hs) + (h.name + (":" + h.gap) + [d]))) == Failed(UnexpectedContentLength, n)
  {
    hide RunBytes, LineText, HeadersText, HeadersLog, Gathered, HeadersOk, IsLength, Gap;
    var l1 := log + [Signalled(MessageBegin), Data(UrlPiece, r.target)];
    LineRead(p, log, r);
    var a := AfterLine(p, r);
    var t := h.name + (":" + h.gap) + [d];
    assert [t[0]] + t[1..] == t && t[0] == h.name[0] && IsToken(h.name[0]);
    var q := HeadersRead(a, l1, hs, t[0], t[1..]);
    GatheredSane(NOTHING, hs);
    LengthBegins(q, l1 + HeadersLog(hs), h, d);
    On(p, log, LineText(r), a, l1, HeadersText(hs) + t);
  }
}
