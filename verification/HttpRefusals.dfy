/** What the parser refuses: the versions, names, values, lengths and line ends it takes are exactly these. */
module HttpRefusals {
  import opened Arithmetic
  import opened Sequences
  import opened HttpStep
  import opened HttpStream
  import opened HttpParser
  import opened HttpFraming
  import opened HttpHeaders
  import opened HttpMethods
  import opened HttpRequest
  import V = HttpValues

  predicate OneLine(s: string) { forall i | 0 <= i < |s| :: s[i] != '\r' && s[i] != '\n' }

  lemma OneLineTail(s: string)
    requires OneLine(s) && s != []
    ensures OneLine(s[1..])
  {
  }

  // ---------- Versions ----------

  /** Two digits with a dot between them. */
  predicate Numbers(s: string) { |s| == 3 && IsDigit(s[0]) && s[1] == '.' && IsDigit(s[2]) }

  predicate Protocol(word: string, s: string) { word <= s && Numbers(s[|word|..]) }

  /** Blanks, and then a version. */
  predicate VersionIs(s: string, verb: nat) {
    if s != [] && s[0] == ' ' then VersionIs(s[1..], verb) else Protocol("HTTP/", s) || (verb == SOURCE && Protocol("ICE/", s))
  }

  /** What is still to come in a state of the version. */
  predicate Rest(st: LineSt, s: string, verb: nat) {
    match st
    case HttpStart => VersionIs(s, verb)
    case HttpH => Protocol("TTP/", s)
    case HttpHT => Protocol("TP/", s)
    case HttpHTT => Protocol("P/", s)
    case HttpI => Protocol("CE/", s)
    case HttpIC => Protocol("E/", s)
    case HttpHTTP => Protocol("/", s)
    case HttpMajor => Numbers(s)
    case HttpDot => |s| == 2 && s[0] == '.' && IsDigit(s[1])
    case HttpMinor => |s| == 1 && IsDigit(s[0])
    case HttpEnd => s == []
    case _ => false
  }

  predicate InVersion(st: LineSt) {
    st.HttpStart? || st.HttpH? || st.HttpHT? || st.HttpHTT? || st.HttpHTTP? || st.HttpI? || st.HttpIC? || st.HttpMajor? || st.HttpDot? ||
    st.HttpMinor? || st.HttpEnd?
  }

  lemma ProtocolStep(c: char, word: string, s: string)
    ensures Protocol([c] + word, s) <==> s != [] && s[0] == c && Protocol(word, s[1..])
  {
    if s != [] && s[0] == c {
      assert [c] + word <= s <==> word <= s[1..] by {
        if [c] + word <= s { assert word == ([c] + word)[1..] == s[1..][..|word|]; }
        if word <= s[1..] { assert [c] + word == s[..1] + s[1..][..|word|] == s[..1 + |word|]; }
      }
      if word <= s[1..] { assert s[1..][|word|..] == s[|word| + 1..]; }
    }
  }

  /** Where a byte leads; `Dead` if nowhere. */
  function Goes(st: LineSt, c: char, verb: nat): LineSt {
    match st
    case HttpStart => if c == ' ' then st else if c == 'H' then HttpH else if verb == SOURCE && c == 'I' then HttpI else Dead
    case HttpH => if c == 'T' then HttpHT else Dead
    case HttpHT => if c == 'T' then HttpHTT else Dead
    case HttpHTT => if c == 'P' then HttpHTTP else Dead
    case HttpI => if c == 'C' then HttpIC else Dead
    case HttpIC => if c == 'E' then HttpHTTP else Dead
    case HttpHTTP => if c == '/' then HttpMajor else Dead
    case HttpMajor => if IsDigit(c) then HttpDot else Dead
    case HttpDot => if c == '.' then HttpMinor else Dead
    case HttpMinor => if IsDigit(c) then HttpEnd else Dead
    case _ => Dead
  }

  lemma RestStep(st: LineSt, s: string, verb: nat)
    requires InVersion(st) && s != []
    ensures var t := Goes(st, s[0], verb); Rest(st, s, verb) <==> InVersion(t) && Rest(t, s[1..], verb)
  {
    hide Protocol;
    ProtocolStep('H', "TTP/", s); ProtocolStep('T', "TP/", s); ProtocolStep('T', "P/", s); ProtocolStep('P', "/", s);
    ProtocolStep('I', "CE/", s); ProtocolStep('C', "E/", s); ProtocolStep('E', "/", s); ProtocolStep('/', "", s);
    assert ['H'] + "TTP/" == "HTTP/" && ['T'] + "TP/" == "TTP/" && ['T'] + "P/" == "TP/" && ['P'] + "/" == "P/";
    assert ['I'] + "CE/" == "ICE/" && ['C'] + "E/" == "CE/" && ['E'] + "/" == "E/" && ['/'] + "" == "/";
    ProtocolEmpty(s[1..]);
  }

  lemma ProtocolEmpty(s: string)
    ensures Protocol("", s) <==> Numbers(s)
  {
  }

  lemma VersionStep(p: Parser, log: Log, c: char)
    requires p.st.Line? && InVersion(p.st.line) && c != '\r' && c != '\n' && p.nread < MAX_HEADER_SIZE
    ensures var r, t := ByteStep(p, log, c), Goes(p.st.line, c, p.verb);
            if InVersion(t) then r.Done? && r.log == log && r.p == p.(st := Line(t), nread := p.nread + 1, major := r.p.major, minor := r.p.minor)
            else r.Bad?
  {
    assert Exec(Counted(p), c) == LinePass(Counted(p), p.st.line, c);
  }

  lemma VersionLast(p: Parser, log: Log)
    requires p.st.Line? && InVersion(p.st.line) && p.nread < MAX_HEADER_SIZE
    ensures ByteStep(p, log, '\r').Done? <==> p.st == Line(HttpEnd)
    ensures ByteStep(p, log, '\r').Left? ==> false
    ensures Rest(p.st.line, [], p.verb) <==> p.st == Line(HttpEnd)
  {
    assert Exec(Counted(p), '\r') == LinePass(Counted(p), p.st.line, '\r');
  }

  /** What stands between the target and the end of the line is taken if and only if it is blanks and a version. */
  lemma {:induction false} VersionExact(p: Parser, log: Log, s: string)
    requires p.st.Line? && InVersion(p.st.line) && OneLine(s) && p.nread + |s| < MAX_HEADER_SIZE
    ensures RunBytes(p, log, s + "\r").All? <==> Rest(p.st.line, s, p.verb)
    decreases |s|
  {
    hide ByteStep, RunBytes, Rest, Goes, InVersion;
    if s == [] {
      VersionLast(p, log);
      RunOne(p, log, '\r');
      assert s + "\r" == ['\r'];
    } else {
      OneLineTail(s);
      RestStep(p.st.line, s, p.verb);
      VersionStep(p, log, s[0]);
      var r := ByteStep(p, log, s[0]);
      assert [s[0]] + (s[1..] + "\r") == s + "\r";
      if r.Done? {
        RunHead(p, log, s[0], s[1..] + "\r", r.p, r.log);
        VersionExact(r.p, r.log, s[1..]);
      } else {
        RunOne(p, log, s[0]);
        RunConcat(p, log, [s[0]], s[1..] + "\r");
      }
    }
  }

  // ---------- Header names ----------

  lemma NameByteStep(p: Parser, log: Log, c: char)
    requires (p.st == Header(FieldStart) && c != '\r' && c != '\n') || (p.st == Header(Field) && c != ':')
    requires p.nread < MAX_HEADER_SIZE
    ensures var r := ByteStep(p, log, c);
            if IsToken(c) then r.Done? && r.p.st == Header(Field) && r.p.nread == p.nread + 1 else r == Bad(InvalidHeaderToken)
  {
    hide NameByte;
    assert Exec(Counted(p), c) == HeaderPass(Counted(p), p.st.header, c);
  }

  /** A text before a colon is taken as the name of a header if and only if its bytes are token characters. */
  lemma {:induction false} NameExact(p: Parser, log: Log, s: string)
    requires (p.st == Header(FieldStart) && s != [] && s[0] != '\r' && s[0] != '\n') || p.st == Header(Field)
    requires ':' !in s && p.nread + |s| <= MAX_HEADER_SIZE
    ensures var r := RunBytes(p, log, s);
            if Tokens(s) then r.All? && r.p.st == Header(Field) else r.Failed? && r.e == InvalidHeaderToken
    decreases |s|
  {
    hide ByteStep, RunBytes, IsToken;
    if s == [] {
      RunNothing(p, log);
    } else {
      var tail := s[1..];
      assert [s[0]] + tail == s && forall k | 0 <= k < |tail| :: tail[k] == s[k + 1];
      assert forall k | 0 < k < |s| :: s[k] == tail[k - 1];
      NameByteStep(p, log, s[0]);
      var r := ByteStep(p, log, s[0]);
      if IsToken(s[0]) {
        RunHead(p, log, s[0], tail, r.p, r.log);
        NameExact(r.p, r.log, tail);
      } else {
        RunOne(p, log, s[0]);
        RunConcat(p, log, [s[0]], tail);
      }
    }
  }

  // ---------- Header values ----------

  lemma ValueByteStep(p: Parser, log: Log, c: char)
    requires p.st == Header(Value) && p.hs.OfValue() && p.hs != ContentLengthNum && p.hs != ContentLengthWs && c != '\r' && c != '\n'
    requires p.nread < MAX_HEADER_SIZE
    ensures var r := ByteStep(p, log, c);
            if V.PlainByte(c) then
              r.Done? && r.p.st == Header(Value) && r.p.nread == p.nread + 1 && r.p.hs.OfValue() &&
              r.p.hs != ContentLengthNum && r.p.hs != ContentLengthWs
            else r == Bad(InvalidHeaderToken)
  {
    ValueKinds(V.ValueOf(p), c);
    hide ValueByte;
    assert Exec(Counted(p), c) == ValuePass(Counted(p), c);
  }

  lemma ValueKinds(v: Val, c: char)
    requires v.hs.OfValue() && v.hs != ContentLengthNum && v.hs != ContentLengthWs && c != '\r' && c != '\n'
    ensures var r := ValueByte(v, c);
            if V.PlainByte(c) then r.ValOk? && r.v.hs.OfValue() && r.v.hs != ContentLengthNum && r.v.hs != ContentLengthWs
            else r == ValErr(InvalidHeaderToken)
  {
    hide Lower;
  }

  /** The bytes of a value that is not a length are taken if and only if none is a control byte. */
  lemma {:induction false} ValueExact(p: Parser, log: Log, s: string)
    requires p.st == Header(Value) && p.hs.OfValue() && p.hs != ContentLengthNum && p.hs != ContentLengthWs
    requires OneLine(s) && p.nread + |s| <= MAX_HEADER_SIZE
    ensures var r := RunBytes(p, log, s);
            if V.Plain(s) then r.All? && r.p.st == Header(Value) else r.Failed? && r.e == InvalidHeaderToken
    decreases |s|
  {
    hide ByteStep, RunBytes, V.PlainByte;
    if s == [] {
      RunNothing(p, log);
    } else {
      var tail := s[1..];
      assert [s[0]] + tail == s && forall k | 0 <= k < |tail| :: tail[k] == s[k + 1];
      assert forall k | 0 < k < |s| :: s[k] == tail[k - 1];
      ValueByteStep(p, log, s[0]);
      var r := ByteStep(p, log, s[0]);
      if V.PlainByte(s[0]) {
        RunHead(p, log, s[0], tail, r.p, r.log);
        ValueExact(r.p, r.log, tail);
      } else {
        RunOne(p, log, s[0]);
        RunConcat(p, log, [s[0]], tail);
      }
    }
  }

  /** The first byte of a value is not looked at: any control byte but a line end is taken there, and only there. */
  lemma FirstUnchecked(p: Parser, log: Log, c: char)
    requires p.st == Header(DiscardWs) && p.hs == General && p.nread < MAX_HEADER_SIZE && !V.PlainByte(c) && c != '\r' && c != '\n'
    ensures !IsBlank(c) && ByteStep(p, log, c) == Done(p.(st := Header(Value), index := 0, nread := p.nread + 1), Emit(log, ValuePiece, [c]))
  {
    hide Emit;
    assert Exec(Counted(p), c) == DiscardWsPass(Counted(p), c) == ValueStartPass(Counted(p), c);
  }

  // ---------- Lengths ----------

  /** What may follow the digits of a length. */
  predicate MoreDigits(s: string, blank: bool) {
    s == [] || if s[0] == ' ' then MoreDigits(s[1..], true) else !blank && IsDigit(s[0]) && MoreDigits(s[1..], false)
  }

  lemma LengthByteStep(p: Parser, log: Log, c: char)
    requires p.st == Header(Value) && (p.hs == ContentLengthNum || p.hs == ContentLengthWs) && c != '\r' && c != '\n'
    requires p.nread < MAX_HEADER_SIZE && p.length <= ULLONG_MAX
    ensures var r := ByteStep(p, log, c);
            if c == ' ' then r.Done? && r.p == p.(hs := ContentLengthWs, nread := p.nread + 1)
            else if p.hs == ContentLengthNum && IsDigit(c) then
              var v := p.length * 10 + (c as int - '0' as int);
              if v <= ULLONG_MAX - 6 then r.Done? && r.p == p.(length := v, nread := p.nread + 1) else r == Bad(InvalidContentLength)
            else r.Bad?
  {
    if p.hs == ContentLengthNum && IsDigit(c) {
      NextDigit(p, log, c);
    } else {
      assert Exec(Counted(p), c) == ValuePass(Counted(p), c);
    }
  }

  /** The length when more digits have been read. */
  function More(v: nat, s: string): nat
    requires MoreDigits(s, false)
    decreases |s|
  {
    if s == [] || s[0] == ' ' then v else More(v * 10 + (s[0] as int - '0' as int), s[1..])
  }

  lemma {:induction false} MoreAtLeast(v: nat, s: string)
    requires MoreDigits(s, false)
    ensures More(v, s) >= v
    decreases |s|
  {
    if s != [] && s[0] != ' ' { MoreAtLeast(v * 10 + (s[0] as int - '0' as int), s[1..]); }
  }

  /** Behind the first digit of a length exactly digits and then blanks are taken, and no length above the limit. */
  lemma {:induction false} LengthExact(p: Parser, log: Log, s: string)
    requires p.st == Header(Value) && (p.hs == ContentLengthNum || p.hs == ContentLengthWs) && OneLine(s)
    requires p.nread + |s| <= MAX_HEADER_SIZE && p.length <= ULLONG_MAX - 6
    ensures RunBytes(p, log, s).All? <==>
            if p.hs == ContentLengthWs then MoreDigits(s, true) else MoreDigits(s, false) && More(p.length, s) <= ULLONG_MAX - 6
    decreases |s|
  {
    hide ByteStep, RunBytes;
    if s == [] {
      RunNothing(p, log);
    } else {
      var tail := s[1..];
      OneLineTail(s);
      assert [s[0]] + tail == s;
      LengthByteStep(p, log, s[0]);
      var r := ByteStep(p, log, s[0]);
      if r.Done? {
        RunHead(p, log, s[0], tail, r.p, r.log);
        LengthExact(r.p, r.log, tail);
      } else {
        if p.hs == ContentLengthNum && MoreDigits(s, false) { MoreAtLeast(p.length * 10 + (s[0] as int - '0' as int), tail); }
        RunOne(p, log, s[0]);
        RunConcat(p, log, [s[0]], tail);
      }
    }
  }

  /** A Content-Length without a value is an error when the next line begins. */
  lemma NoLengthGiven(p: Parser, log: Log, end: string, ch: char)
    requires p.st == Header(DiscardWs) && p.hs == ContentLength && IsLineEnd(end) && !IsBlank(ch) && p.nread + |end| < MAX_HEADER_SIZE
    ensures RunBytes(p, log, end + [ch]) == Failed(InvalidContentLength, |end|)
  {
    hide RunBytes, ByteStep;
    var q := p.(st := Header(DiscardLws), nread := p.nread + |end|);
    EmptyLineRead(p, log, end);
    LwsLength(q, log, ch);
    RunOne(q, log, ch);
    On(p, log, end, q, log, [ch]);
  }

  lemma LwsLength(q: Parser, log: Log, ch: char)
    requires q.st == Header(DiscardLws) && q.hs == ContentLength && !IsBlank(ch) && q.nread < MAX_HEADER_SIZE
    ensures ByteStep(q, log, ch) == Bad(InvalidContentLength)
  {
    assert Exec(Counted(q), ch) == DiscardLwsPass(Counted(q), ch);
  }

  // ---------- Line ends ----------

  /** The states behind a carriage return. */
  predicate Returned(st: St) {
    st == Line(LineAlmostDone) || st == Header(DiscardWsAlmostDone) || st == Header(AlmostDone) || st == Frame(HeadersAlmostDone) ||
    st == Frame(SizeAlmostDone) || st == Body(ChunkDataDone)
  }

  /** A carriage return leads there wherever the parser takes one, but for the empty lines between messages, the bytes
      of a body and the beginning of a folded line. */
  lemma ReturnTaken(p: Parser, log: Log)
    requires p.st != Line(StartReq) && p.st != Line(Dead) && p.st != Header(ValueStart)
    requires p.st != Body(ChunkData) && p.st != Body(Identity) && p.st != Body(MessageDone)
    ensures var r := ByteStep(p, log, '\r'); r.Bad? || (r.Done? && Returned(r.p.st))
  {
    var q := Counted(p);
    match p.st
    case Header(ValueLws) => assert Exec(q, '\r') == ValueLwsPass(q, '\r'); FieldReturn(Exec(q, '\r').p, log);
    case Header(DiscardLws) =>
      assert Exec(q, '\r') == DiscardLwsPass(q, '\r');
      if Exec(q, '\r').Again? { FieldReturn(Exec(q, '\r').p, ApplyOps(log, Exec(q, '\r').ops, '\r')); }
    case Header(FieldStart) => FieldReturn(q, log);
    case _ => OtherReturn(p, log);
  }

  lemma FieldReturn(q: Parser, log: Log)
    requires q.st == Header(FieldStart)
    ensures var r := Passes(q, log, '\r'); r.Done? && Returned(r.p.st)
  {
    assert Exec(q, '\r') == FieldStartPass(q, '\r');
  }

  lemma OtherReturn(p: Parser, log: Log)
    requires p.st != Line(StartReq) && p.st != Line(Dead)
    requires p.st != Header(ValueStart) && p.st != Header(ValueLws) && p.st != Header(DiscardLws) && p.st != Header(FieldStart)
    requires p.st != Body(ChunkData) && p.st != Body(Identity) && p.st != Body(MessageDone)
    ensures var r := ByteStep(p, log, '\r'); r.Bad? || (r.Done? && Returned(r.p.st))
  {
    OtherPass(Counted(p));
    hide Exec, Returned, ApplyOps;
  }

  lemma OtherPass(q: Parser)
    requires q.st != Line(StartReq) && q.st != Line(Dead)
    requires q.st != Header(ValueStart) && q.st != Header(ValueLws) && q.st != Header(DiscardLws) && q.st != Header(FieldStart)
    requires q.st != Body(ChunkData) && q.st != Body(Identity) && q.st != Body(MessageDone)
    ensures var r := Exec(q, '\r'); r.Fail? || (r.Next? && Returned(r.p.st))
  {
    hide LinePass, UrlPass, HeaderPass, FramePass, BodyStatePass;
    match q.st
    case Line(s) => LineReturn(q, s);
    case Url(u) => UrlReturn(q, u);
    case Header(s) => HeaderReturn(q, s);
    case Frame(s) => FrameReturn(q, s);
    case Body(s) => BodyReturn(q, s);
  }

  lemma LineReturn(q: Parser, s: LineSt)
    requires s != StartReq && s != Dead
    ensures var r := LinePass(q, s, '\r'); r.Fail? || (r.Next? && Returned(r.p.st))
  {
    if s.ReqMethod? && q.verb < METHOD_COUNT { NameChars(q.verb); }
    hide MethodName;
  }

  lemma UrlReturn(q: Parser, u: UrlSt)
    ensures var r := UrlPass(q, u, '\r'); r.Fail? || (r.Next? && Returned(r.p.st))
  {
  }

  lemma HeaderReturn(q: Parser, s: HeaderSt)
    requires s != ValueStart && s != ValueLws && s != DiscardLws && s != FieldStart
    ensures var r := HeaderPass(q, s, '\r'); r.Fail? || (r.Next? && Returned(r.p.st))
  {
    hide NameByte, StartValue, ValueByte;
  }

  lemma FrameReturn(q: Parser, s: FrameSt)
    ensures var r := FramePass(q, s, '\r'); r.Fail? || (r.Next? && Returned(r.p.st))
  {
  }

  lemma BodyReturn(q: Parser, s: BodySt)
    requires s != BodySt.ChunkData && s != Identity && s != MessageDone
    ensures var r := BodyStatePass(q, s, '\r'); r.Fail? || (r.Next? && Returned(r.p.st))
  {
  }

  /** And there nothing but a line feed is taken. */
  lemma OnlyFeed(p: Parser, log: Log, c: char)
    requires Returned(p.st) && c != '\n'
    ensures ByteStep(p, log, c).Bad?
  {
  }

  /** Behind the data of a chunk there is a line end of two bytes and nothing else. */
  lemma ChunkEndExact(p: Parser, log: Log, s: string)
    requires p.st == Body(ChunkDataAlmostDone) && |s| == 2
    ensures RunBytes(p, log, s).All? <==> s == CRLF
  {
    hide RunBytes, ByteStep;
    ChunkEnd(p, log);
    var q := p.(st := Body(ChunkDataDone));
    ChunkReturn(p, log, s[0]);
    assert [s[0]] + [s[1]] == s;
    if s[0] == '\r' {
      RunHead(p, log, s[0], [s[1]], q, log);
      if s[1] != '\n' {
        OnlyFeed(q, log, s[1]);
        RunOne(q, log, s[1]);
      }
    } else {
      RunOne(p, log, s[0]);
      RunConcat(p, log, [s[0]], [s[1]]);
    }
  }

  lemma ChunkReturn(p: Parser, log: Log, c: char)
    requires p.st == Body(ChunkDataAlmostDone)
    ensures ByteStep(p, log, c) == if c == '\r' then Done(p.(st := Body(ChunkDataDone)), log) else Bad(Strict)
  {
    assert Exec(p, c) == BodyStatePass(p, ChunkDataAlmostDone, c);
  }
}
