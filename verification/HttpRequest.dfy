/** What a whole request means: the text of its line, its headers and its body, and the callbacks and the state they
    lead to. */
module HttpRequest {
  import opened Arithmetic
  import opened Sequences
  import opened HttpStep
  import opened HttpStream
  import opened HttpParser
  import opened HttpFraming
  import opened HttpHeaders
  import opened HttpMethods
  import opened HttpTarget
  import V = HttpValues

  // ---------- The request line ----------

  predicate AllBlank(s: string) { forall i | 0 <= i < |s| :: s[i] == ' ' }

  predicate AllEnds(s: string) { forall i | 0 <= i < |s| :: s[i] == '\r' || s[i] == '\n' }

  /** The version that is written behind the target; without one the line ends there and means 0.9. */
  datatype Version = Version(gap: string, ice: bool, major: char, minor: char) | Simple

  /** A request line, with the empty lines before it. */
  datatype RequestLine = RequestLine(lead: string, verb: nat, gap: string, target: string, version: Version, end: string)

  ghost predicate LineOk(r: RequestLine) {
    && AllEnds(r.lead) && r.verb < METHOD_COUNT && AllBlank(r.gap) && InLine(r.target) && Target(r.verb, r.target) && IsLineEnd(r.end)
    && (r.version.Version? ==>
          AllBlank(r.version.gap) && IsDigit(r.version.major) && IsDigit(r.version.minor) && (r.version.ice ==> r.verb == SOURCE))
  }

  function VersionText(v: Version): string {
    match v
    case Version(gap, ice, major, minor) => " " + gap + (if ice then "ICE" else "HTTP") + "/" + [major] + "." + [minor]
    case Simple => ""
  }

  function LineText(r: RequestLine): string
    requires r.verb < METHOD_COUNT
  {
    r.lead + (MethodName(r.verb) + " " + r.gap + (r.target + (VersionText(r.version) + r.end)))
  }

  function MajorOf(v: Version): nat
    requires v.Version? ==> IsDigit(v.major)
  {
    if v.Version? then v.major as int - '0' as int else 0
  }

  function MinorOf(v: Version): nat
    requires v.Version? ==> IsDigit(v.minor)
  {
    if v.Version? then v.minor as int - '0' as int else 9
  }

  /** The stream goes on behind some bytes that have been taken. */
  lemma On(p: Parser, log: Log, a: string, q: Parser, l: Log, b: string)
    requires RunBytes(p, log, a) == All(q, l)
    ensures RunBytes(p, log, a + b) == Later(|a|, RunBytes(q, l, b))
  {
    hide RunBytes;
    RunConcat(p, log, a, b);
  }

  lemma Chain(p: Parser, log: Log, a: string, q: Parser, l: Log, b: string, r: Parser, m: Log, c: string)
    requires RunBytes(p, log, a) == All(q, l) && RunBytes(q, l, b) == All(r, m)
    ensures RunBytes(p, log, a + (b + c)) == Later(|a| + |b|, RunBytes(r, m, c))
  {
    hide RunBytes;
    On(q, l, b, r, m, c);
    On(p, log, a, q, l, b + c);
  }

  lemma MethodRead(p: Parser, log: Log, v: nat)
    requires p.st == Line(StartReq) && v < METHOD_COUNT && p.nread + |MethodName(v)| < MAX_HEADER_SIZE
    ensures var n := |MethodName(v)|;
            RunBytes(p, log, MethodName(v) + " ") ==
            All(InMethod(p, v, n).(st := Line(SpacesBeforeUrl), index := n + 1, nread := p.nread + n + 1), log + [Signalled(MessageBegin)])
  {
    NameChars(v);
    hide ByteStep, RunBytes, MethodName, GuessAt;
    var s, n := MethodName(v), |MethodName(v)|;
    var m := WordRead(p, log, s);
    GuessEnds(v);
    On(p, log, s, InMethod(p, v, n), log + [Signalled(MessageBegin)], " ");
    LastSpace(p, log + [Signalled(MessageBegin)], v, n);
    RunOne(InMethod(p, v, n), log + [Signalled(MessageBegin)], ' ');
    assert [' '] == " ";
  }

  lemma BlankByte(p: Parser, log: Log)
    requires (p.st == Line(SpacesBeforeUrl) || p.st == Line(HttpStart)) && p.nread < MAX_HEADER_SIZE
    ensures ByteStep(p, log, ' ') == Done(p.(nread := p.nread + 1), log)
  {
    var q := Counted(p);
    assert Exec(q, ' ') == Next(q, []);
  }

  lemma {:induction false} BlanksRead(p: Parser, log: Log, s: string)
    requires (p.st == Line(SpacesBeforeUrl) || p.st == Line(HttpStart)) && AllBlank(s) && p.nread + |s| <= MAX_HEADER_SIZE
    ensures RunBytes(p, log, s) == All(p.(nread := p.nread + |s|), log)
    decreases |s|
  {
    hide ByteStep;
    if s != [] {
      BlankByte(p, log);
      BlanksRead(p.(nread := p.nread + 1), log, s[1..]);
    }
  }

  /** A byte that is expected in a state of the version. */
  lemma VersionByte(p: Parser, log: Log, c: char, st: LineSt)
    requires p.st.Line? && p.nread < MAX_HEADER_SIZE
    requires match p.st.line
             case HttpStart => (c == 'H' && st == HttpH) || (c == 'I' && p.verb == SOURCE && st == HttpI)
             case HttpH => c == 'T' && st == HttpHT
             case HttpHT => c == 'T' && st == HttpHTT
             case HttpHTT => c == 'P' && st == HttpHTTP
             case HttpI => c == 'C' && st == HttpIC
             case HttpIC => c == 'E' && st == HttpHTTP
             case HttpHTTP => c == '/' && st == HttpMajor
             case HttpDot => c == '.' && st == HttpMinor
             case HttpEnd => c == '\r' && st == LineAlmostDone
             case _ => false
    ensures ByteStep(p, log, c) == Done(p.(st := Line(st), nread := p.nread + 1), log)
  {
    var q := Counted(p);
    assert Exec(q, c) == Next(q.(st := Line(st)), []);
  }

  lemma VersionDigit(p: Parser, log: Log, c: char)
    requires (p.st == Line(HttpMajor) || p.st == Line(HttpMinor)) && IsDigit(c) && p.nread < MAX_HEADER_SIZE
    ensures var d := c as int - '0' as int;
            ByteStep(p, log, c) ==
            Done(if p.st == Line(HttpMajor) then p.(major := d, st := Line(HttpDot), nread := p.nread + 1)
                 else p.(minor := d, st := Line(HttpEnd), nread := p.nread + 1), log)
  {
    var q := Counted(p);
    assert Exec(q, c) == LinePass(q, p.st.line, c);
  }

  /** The name of the protocol. */
  lemma ProtocolRead(p: Parser, log: Log, ice: bool)
    requires p.st == Line(HttpStart) && p.nread + 5 <= MAX_HEADER_SIZE && (ice ==> p.verb == SOURCE)
    ensures var s := if ice then "ICE" else "HTTP";
            RunBytes(p, log, s) == All(p.(st := Line(HttpHTTP), nread := p.nread + |s|), log)
  {
    hide ByteStep, RunBytes;
    var n := p.nread;
    if ice {
      VersionByte(p, log, 'I', HttpI);
      VersionByte(p.(st := Line(HttpI), nread := n + 1), log, 'C', HttpIC);
      VersionByte(p.(st := Line(HttpIC), nread := n + 2), log, 'E', HttpHTTP);
      RunOne(p.(st := Line(HttpIC), nread := n + 2), log, 'E');
      RunHead(p.(st := Line(HttpI), nread := n + 1), log, 'C', ['E'], p.(st := Line(HttpIC), nread := n + 2), log);
      RunHead(p, log, 'I', ['C'] + ['E'], p.(st := Line(HttpI), nread := n + 1), log);
      assert ['I'] + (['C'] + ['E']) == "ICE";
    } else {
      VersionByte(p, log, 'H', HttpH);
      VersionByte(p.(st := Line(HttpH), nread := n + 1), log, 'T', HttpHT);
      VersionByte(p.(st := Line(HttpHT), nread := n + 2), log, 'T', HttpHTT);
      VersionByte(p.(st := Line(HttpHTT), nread := n + 3), log, 'P', HttpHTTP);
      RunOne(p.(st := Line(HttpHTT), nread := n + 3), log, 'P');
      RunHead(p.(st := Line(HttpHT), nread := n + 2), log, 'T', ['P'], p.(st := Line(HttpHTT), nread := n + 3), log);
      RunHead(p.(st := Line(HttpH), nread := n + 1), log, 'T', ['T'] + ['P'], p.(st := Line(HttpHT), nread := n + 2), log);
      RunHead(p, log, 'H', ['T'] + (['T'] + ['P']), p.(st := Line(HttpH), nread := n + 1), log);
      assert ['H'] + (['T'] + (['T'] + ['P'])) == "HTTP";
    }
  }

  lemma NumbersRead(p: Parser, log: Log, major: char, minor: char)
    requires p.st == Line(HttpHTTP) && p.nread + 4 <= MAX_HEADER_SIZE && IsDigit(major) && IsDigit(minor)
    ensures RunBytes(p, log, "/" + [major] + "." + [minor]) ==
            All(p.(st := Line(HttpEnd), nread := p.nread + 4, major := major as int - '0' as int, minor := minor as int - '0' as int), log)
  {
    hide ByteStep, RunBytes;
    var a := p.(st := Line(HttpMajor), nread := p.nread + 1);
    var b := a.(st := Line(HttpDot), nread := p.nread + 2, major := major as int - '0' as int);
    var c := b.(st := Line(HttpMinor), nread := p.nread + 3);
    VersionByte(p, log, '/', HttpMajor);
    VersionDigit(a, log, major);
    VersionByte(b, log, '.', HttpMinor);
    VersionDigit(c, log, minor);
    RunOne(c, log, minor);
    RunHead(b, log, '.', [minor], c, log);
    RunHead(a, log, major, ['.'] + [minor], b, log);
    RunHead(p, log, '/', [major] + (['.'] + [minor]), a, log);
    assert ['/'] + ([major] + (['.'] + [minor])) == "/" + [major] + "." + [minor];
  }

  lemma LineEndRead(p: Parser, log: Log, end: string)
    requires p.st == Line(HttpEnd) && IsLineEnd(end) && p.nread + |end| <= MAX_HEADER_SIZE
    ensures RunBytes(p, log, end) == All(p.(st := Header(FieldStart), nread := p.nread + |end|), log)
  {
    if end == "\n" {
      LastOfLine(p, log);
    } else {
      var a := p.(st := Line(LineAlmostDone), nread := p.nread + 1);
      VersionByte(p, log, '\r', LineAlmostDone);
      LastOfLine(a, log);
      hide ByteStep, RunBytes;
      RunHead(p, log, '\r', "\n", a, log);
      assert ['\r'] + "\n" == CRLF;
    }
  }

  lemma LastOfLine(p: Parser, log: Log)
    requires (p.st == Line(LineAlmostDone) || p.st == Line(HttpEnd)) && p.nread < MAX_HEADER_SIZE
    ensures RunBytes(p, log, "\n") == All(p.(st := Header(FieldStart), nread := p.nread + 1), log)
  {
    var q := Counted(p);
    assert Exec(q, '\n') == Next(q.(st := Header(FieldStart)), []);
    assert ByteStep(p, log, '\n') == Done(p.(st := Header(FieldStart), nread := p.nread + 1), log);
    hide ByteStep;
    RunOne(p, log, '\n');
    assert ['\n'] == "\n";
  }

  lemma ProtocolAndNumbers(a: Parser, l: Log, v: Version, name: string, digits: string, end: string)
    requires a.st == Line(HttpStart) && v.Version? && AllBlank(v.gap) && IsDigit(v.major) && IsDigit(v.minor) && (v.ice ==> a.verb == SOURCE)
    requires name == (if v.ice then "ICE" else "HTTP") && digits == "/" + [v.major] + "." + [v.minor]
    requires IsLineEnd(end) && a.nread + |v.gap| + |name| + 4 + |end| <= MAX_HEADER_SIZE
    ensures RunBytes(a, l, v.gap + (name + (digits + end))) ==
            All(a.(st := Header(FieldStart), nread := a.nread + |v.gap| + |name| + 4 + |end|, major := MajorOf(v), minor := MinorOf(v)), l)
  {
    hide RunBytes, AllBlank;
    BlanksRead(a, l, v.gap);
    var b := a.(nread := a.nread + |v.gap|);
    ProtocolRead(b, l, v.ice);
    var c := b.(st := Line(HttpHTTP), nread := b.nread + |name|);
    NumbersRead(c, l, v.major, v.minor);
    var d := c.(st := Line(HttpEnd), nread := c.nread + 4, major := MajorOf(v), minor := MinorOf(v));
    LineEndRead(d, l, end);
    On(c, l, digits, d, l, end);
    On(b, l, name, c, l, digits + end);
    On(a, l, v.gap, b, l, name + (digits + end));
  }

  /** The end of the request line: the version, if there is one. */
  lemma VersionRead(p: Parser, log: Log, s: string, v: Version, end: string)
    requires p.st == Line(SpacesBeforeUrl) && s != [] && InLine(s) && Target(p.verb, s) && !EndsWith(log, UrlPiece)
    requires v.Version? ==> AllBlank(v.gap) && IsDigit(v.major) && IsDigit(v.minor) && (v.ice ==> p.verb == SOURCE)
    requires IsLineEnd(end) && p.nread + |s| + |VersionText(v)| + |end| <= MAX_HEADER_SIZE
    ensures RunBytes(p, log, s + (VersionText(v) + end)) ==
            All(p.(st := Header(FieldStart), nread := p.nread + |s| + |VersionText(v)| + |end|, major := MajorOf(v), minor := MinorOf(v)),
                log + [Data(UrlPiece, s)])
  {
    hide RunBytes, Target;
    var l := log + [Data(UrlPiece, s)];
    match v
    case Simple =>
      TargetRead(p, log, s, end[0]);
      var a := AfterTarget(p, |s|, end[0]);
      On(p, log, s + [end[0]], a, l, end[1..]);
      if end == CRLF { LastOfLine(a, l); } else { RunNothing(a, l); }
      assert s + (VersionText(v) + end) == s + [end[0]] + end[1..];
    case Version(gap, ice, major, minor) =>
      var name := if ice then "ICE" else "HTTP";
      var digits := "/" + [major] + "." + [minor];
      TargetRead(p, log, s, ' ');
      var a := AfterTarget(p, |s|, ' ');
      VersionSplit(s, gap, name, digits, v, end);
      ProtocolAndNumbers(a, l, v, name, digits, end);
      On(p, log, s + [' '], a, l, gap + (name + (digits + end)));
  }

  lemma VersionSplit(s: string, gap: string, name: string, digits: string, v: Version, end: string)
    requires v.Version? && v.gap == gap && name == (if v.ice then "ICE" else "HTTP") && digits == "/" + [v.major] + "." + [v.minor]
    ensures s + (VersionText(v) + end) == (s + [' ']) + (gap + (name + (digits + end)))
    ensures |VersionText(v)| == 1 + |gap| + |name| + |digits| && |digits| == 4
  {
    assert VersionText(v) == [' '] + (gap + (name + digits));
    Regroup(gap, name + digits, end);
    Regroup(name, digits, end);
    Regroup([' '], gap + (name + digits), end);
    Regroup(s, [' '], gap + (name + (digits + end)));
  }

  /** The parser behind a request line. */
  function AfterLine(p: Parser, r: RequestLine): Parser
    requires LineOk(r)
  {
    Parser(Header(FieldStart), p.hs, |MethodName(r.verb)| + 1, p.nread + |LineText(r)|, ULLONG_MAX, NO_FLAGS, false,
           r.verb, MajorOf(r.version), MinorOf(r.version), p.upgrade)
  }

  lemma LeadByte(p: Parser, log: Log, c: char)
    requires p.st == Line(StartReq) && p.nread < MAX_HEADER_SIZE && (c == '\r' || c == '\n')
    ensures ByteStep(p, log, c) == Done(p.(nread := p.nread + 1), log)
  {
    assert Exec(Counted(p), c) == Next(Counted(p), []);
  }

  lemma {:induction false} LeadRead(p: Parser, log: Log, s: string)
    requires p.st == Line(StartReq) && AllEnds(s) && p.nread + |s| <= MAX_HEADER_SIZE
    ensures RunBytes(p, log, s) == All(p.(nread := p.nread + |s|), log)
    decreases |s|
  {
    hide ByteStep;
    if s != [] {
      LeadByte(p, log, s[0]);
      LeadRead(p.(nread := p.nread + 1), log, s[1..]);
    }
  }

  /** A request line: the message begins, the target is one piece, and method and version are known. */
  lemma LineRead(p: Parser, log: Log, r: RequestLine)
    requires p.st == Line(StartReq) && LineOk(r) && p.nread + |LineText(r)| <= MAX_HEADER_SIZE
    ensures RunBytes(p, log, LineText(r)) == All(AfterLine(p, r), log + [Signalled(MessageBegin), Data(UrlPiece, r.target)])
  {
    hide RunBytes, MethodName, VersionText, Target;
    NameChars(r.verb);
    TargetSome(r);
    LeadRead(p, log, r.lead);
    var o := p.(nread := p.nread + |r.lead|);
    var name, n := MethodName(r.verb), |MethodName(r.verb)|;
    var l := log + [Signalled(MessageBegin)];
    MethodRead(o, log, r.verb);
    var a := InMethod(o, r.verb, n).(st := Line(SpacesBeforeUrl), index := n + 1, nread := o.nread + n + 1);
    BlanksRead(a, l, r.gap);
    var b := a.(nread := a.nread + |r.gap|);
    var more := r.target + (VersionText(r.version) + r.end);
    VersionRead(b, l, r.target, r.version, r.end);
    On(a, l, r.gap, b, l, more);
    On(o, log, name + " ", a, l, r.gap + more);
    Regroup(name + " ", r.gap, more);
    On(p, log, r.lead, o, log, name + " " + r.gap + more);
    assert l + [Data(UrlPiece, r.target)] == log + [Signalled(MessageBegin), Data(UrlPiece, r.target)];
  }

  lemma TargetSome(r: RequestLine)
    requires LineOk(r)
    ensures r.target != []
  {
  }

  // ---------- Header lines ----------

  predicate IsBlank(c: char) { c == ' ' || c == '\t' }

  /** A value may go on in the next line, if that begins with a blank (section 3.2.4 of RFC 7230). */
  datatype Fold = Fold(end: string, text: string)

  /** A header line: a name, a gap behind the colon, a value, the lines it goes on in, and the end of the line. */
  datatype HeaderLine = HeaderLine(name: string, gap: string, value: string, folds: seq<Fold>, end: string)

  /** Blanks, and line ends with a blank behind them. */
  predicate Gap(s: string) {
    s == [] ||
    if IsBlank(s[0]) then Gap(s[1..])
    else if s[0] == '\n' then |s| > 1 && IsBlank(s[1]) && Gap(s[2..])
    else |s| > 2 && s[0] == '\r' && s[1] == '\n' && IsBlank(s[2]) && Gap(s[3..])
  }

  function FoldsText(fs: seq<Fold>): string { if fs == [] then [] else fs[0].end + (fs[0].text + FoldsText(fs[1..])) }

  /** The bytes of the value in those lines. */
  function FoldsValue(fs: seq<Fold>): string { if fs == [] then [] else fs[0].text + FoldsValue(fs[1..]) }

  predicate FoldOk(f: Fold) { IsLineEnd(f.end) && f.text != [] && IsBlank(f.text[0]) && V.Plain(f.text) }

  predicate FoldsOk(fs: seq<Fold>) { fs == [] || (FoldOk(fs[0]) && FoldsOk(fs[1..])) }

  /** What the headers so far say about the message. */
  datatype Info = Info(flags: Flags, length: nat, usesTe: bool)

  const NO_LENGTH := ULLONG_MAX
  const NOTHING := Info(NO_FLAGS, NO_LENGTH, false)

  function DigitCount(s: string): (n: nat)
    ensures n <= |s| && Digits(s[..n])
  {
    if s != [] && IsDigit(s[0]) then
      var n := 1 + DigitCount(s[1..]);
      assert forall i | 0 < i < n :: s[..n][i] == s[1..][..n - 1][i - 1];
      n
    else 0
  }

  /** Digits and then blanks. */
  predicate IsNumber(s: string) { DigitCount(s) > 0 && AllBlank(s[DigitCount(s)..]) }

  function NumberOf(s: string): nat { Numeral(s[..DigitCount(s)]) }

  predicate IsLength(h: HeaderLine) { Folded(h.name) == CONTENT_LENGTH }

  predicate IsList(h: HeaderLine) {
    Folded(h.name) == TRANSFER_ENCODING || Folded(h.name) == CONNECTION || Folded(h.name) == PROXY_CONNECTION
  }

  /** What a header line adds. Names are compared without regard to case; the encoding mark is set by names that begin
      with "transfer-encoding". */
  function Adds(i: Info, h: HeaderLine): Info {
    var low := Folded(h.name);
    var j := i.(usesTe := i.usesTe || TRANSFER_ENCODING <= low);
    if h.value == [] then j
    else if low == CONTENT_LENGTH then j.(flags := i.flags.(contentLength := true), length := NumberOf(h.value))
    else if low == TRANSFER_ENCODING then j.(flags := V.Heard(V.EncodingList, i.flags, V.Elements(h.value), true))
    else if low == CONNECTION || low == PROXY_CONNECTION then
      j.(flags := V.Heard(V.ConnectionList, i.flags, V.Elements(h.value), true))
    else if low == UPGRADE then j.(flags := i.flags.(upgrade := true))
    else j
  }

  /** The first byte of a value is not looked at, unless the name asks for it. */
  predicate ValueOk(s: string) { s == [] || (!IsBlank(s[0]) && s[0] != '\r' && s[0] != '\n' && V.Plain(s[1..])) }

  ghost predicate HeaderOk(i: Info, h: HeaderLine) {
    && h.name != [] && Tokens(h.name) && Gap(h.gap) && IsLineEnd(h.end) && FoldsOk(h.folds)
    && ValueOk(h.value) && (IsList(h) ==> V.Plain(h.value))
    && (h.value == [] || IsLength(h) || IsList(h) ==> h.folds == [])
    && (IsLength(h) ==> IsNumber(h.value) && NumberOf(h.value) <= ULLONG_MAX - 6 && !i.flags.contentLength)
  }

  function ValueText(h: HeaderLine): string { h.value + (FoldsText(h.folds) + h.end) }

  function HeaderText(h: HeaderLine): string { h.name + (":" + (h.gap + ValueText(h))) }

  function ValueSaid(h: HeaderLine): string { h.value + FoldsValue(h.folds) }

  function HeaderLog(h: HeaderLine): Log { [Data(FieldPiece, h.name), Data(ValuePiece, ValueSaid(h))] }

  /** A parser with what the headers said. */
  function Told(p: Parser, i: Info): Parser { p.(flags := i.flags, length := i.length, usesTe := i.usesTe) }

  function InfoOf(p: Parser): Info { Info(p.flags, p.length, p.usesTe) }

  lemma ColonRead(q: Parser, log: Log)
    requires q.st == Header(Field) && q.nread < MAX_HEADER_SIZE
    ensures RunBytes(q, log, ":") == All(q.(st := Header(DiscardWs), nread := q.nread + 1), log)
  {
    var c := Counted(q);
    assert Exec(c, ':') == FieldPass(c, ':');
    assert ByteStep(q, log, ':') == Done(q.(st := Header(DiscardWs), nread := q.nread + 1), log);
    hide ByteStep;
    RunOne(q, log, ':');
    assert [':'] == ":";
  }

  lemma GapByte(p: Parser, log: Log, c: char)
    requires p.st == Header(DiscardWs) && p.nread < MAX_HEADER_SIZE && IsBlank(c)
    ensures ByteStep(p, log, c) == Done(p.(nread := p.nread + 1), log)
  {
    var q := Counted(p);
    assert Exec(q, c) == DiscardWsPass(q, c);
  }

  /** A line end behind the colon, and the blank that the next line begins with. */
  lemma GapLine(p: Parser, log: Log, c: char)
    requires p.st == Header(DiscardLws) && p.nread < MAX_HEADER_SIZE && IsBlank(c)
    ensures ByteStep(p, log, c) == Done(p.(st := Header(DiscardWs), nread := p.nread + 1), log)
  {
    var q := Counted(p);
    assert Exec(q, c) == DiscardLwsPass(q, c);
  }

  lemma {:induction false} GapRead(p: Parser, log: Log, s: string)
    requires p.st == Header(DiscardWs) && p.nread + |s| <= MAX_HEADER_SIZE && Gap(s)
    ensures RunBytes(p, log, s) == All(p.(nread := p.nread + |s|), log)
    decreases |s|
  {
    hide ByteStep, RunBytes;
    if s == [] {
      RunNothing(p, log);
    } else if IsBlank(s[0]) {
      GapByte(p, log, s[0]);
      RunOne(p, log, s[0]);
      var q := p.(nread := p.nread + 1);
      GapRead(q, log, s[1..]);
      On(p, log, [s[0]], q, log, s[1..]);
      assert [s[0]] + s[1..] == s;
    } else {
      var n := if s[0] == '\n' then 1 else 2;
      var end, more := s[..n], s[n + 1..];
      EmptyLineRead(p, log, end);
      var a := p.(st := Header(DiscardLws), nread := p.nread + n);
      var b := p.(nread := p.nread + n + 1);
      GapLine(a, log, s[n]);
      RunHead(a, log, s[n], more, b, log);
      GapRead(b, log, more);
      On(p, log, end, a, log, [s[n]] + more);
      assert end + ([s[n]] + more) == s;
    }
  }

  /** A line without a value: an empty piece is reported when the next line begins. */
  lemma NoValue(p: Parser, log: Log, end: string, ch: char, rest: string)
    requires p.st == Header(DiscardWs) && IsLineEnd(end) && p.nread + |end| <= MAX_HEADER_SIZE
    requires p.hs.OfField() && p.hs != ContentLength && !IsBlank(ch)
    ensures RunBytes(p, log, end + ([ch] + rest)) ==
            Later(|end|, RunBytes(p.(st := Header(FieldStart), nread := p.nread + |end|), Emit(log, ValuePiece, []), [ch] + rest))
  {
    hide ByteStep, RunBytes, Emit, Hs.OfField, IsLineEnd;
    var b := p.(st := Header(DiscardLws), nread := p.nread + |end|);
    EmptyLineRead(p, log, end);
    LwsEnds(b, log, ch, rest);
    On(p, log, end, b, log, [ch] + rest);
  }

  lemma EmptyLineRead(p: Parser, log: Log, end: string)
    requires p.st == Header(DiscardWs) && IsLineEnd(end) && p.nread + |end| <= MAX_HEADER_SIZE
    ensures RunBytes(p, log, end) == All(p.(st := Header(DiscardLws), nread := p.nread + |end|), log)
  {
    hide ByteStep, RunBytes;
    if end == "\n" {
      FeedEnds(p, log);
      RunOne(p, log, '\n');
      assert ['\n'] == "\n";
    } else {
      var a := p.(st := Header(DiscardWsAlmostDone), nread := p.nread + 1);
      EmptyLine(p, log);
      RunOne(a, log, '\n');
      RunHead(p, log, '\r', ['\n'], a, log);
      assert ['\r'] + ['\n'] == CRLF;
    }
  }

  lemma FeedEnds(p: Parser, log: Log)
    requires p.st == Header(DiscardWs) && p.nread < MAX_HEADER_SIZE
    ensures ByteStep(p, log, '\n') == Done(p.(st := Header(DiscardLws), nread := p.nread + 1), log)
  {
    assert Exec(Counted(p), '\n') == DiscardWsPass(Counted(p), '\n');
  }

  lemma EmptyLine(p: Parser, log: Log)
    requires p.st == Header(DiscardWs) && p.nread + 2 <= MAX_HEADER_SIZE
    ensures var a := p.(st := Header(DiscardWsAlmostDone), nread := p.nread + 1);
            && ByteStep(p, log, '\r') == Done(a, log)
            && ByteStep(a, log, '\n') == Done(p.(st := Header(DiscardLws), nread := p.nread + 2), log)
  {
    var a := p.(st := Header(DiscardWsAlmostDone), nread := p.nread + 1);
    assert Exec(Counted(p), '\r') == DiscardWsPass(Counted(p), '\r');
    assert Exec(Counted(a), '\n') == Next(Counted(a).(st := Header(DiscardLws)), []);
  }

  lemma LwsEnds(p: Parser, log: Log, ch: char, rest: string)
    requires p.st == Header(DiscardLws) && p.hs.OfField() && p.hs != ContentLength && !IsBlank(ch)
    ensures RunBytes(p, log, [ch] + rest) == RunBytes(p.(st := Header(FieldStart)), Emit(log, ValuePiece, []), [ch] + rest)
  {
    var q := p.(st := Header(FieldStart));
    hide Emit;
    assert FinishValue(p.flags, p.hs) == p.flags;
    assert Exec(Counted(p), ch) == DiscardLwsPass(Counted(p), ch) == Again(Counted(q), [Empty(ValuePiece)]);
    assert ByteStep(p, log, ch) == ByteStep(q, Emit(log, ValuePiece, []), ch);
    hide ByteStep;
  }

  /** The first line of a value. */
  lemma ValueBegins(p: Parser, log: Log, s: string, w: Val)
    requires p.st == Header(DiscardWs) && s != [] && ValueOk(s) && p.nread + |s| <= MAX_HEADER_SIZE
    requires StartValue(V.ValueOf(p), s[0]) == ValOk(w) && V.Values(w, s[1..]).ValOk? && !EndsWith(log, ValuePiece)
    ensures RunBytes(p, log, s) == All(V.WithValue(p, V.Values(w, s[1..]).v, |s|), log + [Data(ValuePiece, s)])
  {
    hide ByteStep, RunBytes, V.Values, StartValue, V.Plain, ValueOk, Emit, EndsWith;
    ValueShape(s);
    V.FirstValueByte(p, log, s[0]);
    var one := V.WithValue(p, w, 1);
    var l1 := Emit(log, ValuePiece, [s[0]]);
    RunOne(p, log, s[0]);
    V.EndsEmit(log, [s[0]]);
    V.ValueBytes(one, l1, s[1..]);
    WholePiece(log, ValuePiece, s);
    On(p, log, [s[0]], one, l1, s[1..]);
    assert [s[0]] + s[1..] == s;
  }

  lemma ValueShape(s: string)
    requires s != [] && ValueOk(s)
    ensures !IsBlank(s[0]) && s[0] != '\r' && s[0] != '\n' && V.Plain(s[1..])
  {
    hide V.Plain;
  }

  /** The end of the last line of a value, and the first byte of the next header line. */
  lemma ValueEnds(p: Parser, log: Log, end: string, ch: char, rest: string)
    requires p.st == Header(Value) && IsLineEnd(end) && p.nread + |end| <= MAX_HEADER_SIZE && !IsBlank(ch)
    ensures RunBytes(p, log, end + ([ch] + rest)) ==
            Later(|end|, RunBytes(p.(st := Header(FieldStart), nread := p.nread + |end|, flags := FinishValue(p.flags, p.hs)), log, [ch] + rest))
  {
    hide RunBytes, FinishValue;
    V.LineEnd(p, log, end);
    var q := p.(st := Header(ValueLws), nread := p.nread + |end|);
    V.NextLine(q, log, ch, rest);
    On(p, log, end, q, log, [ch] + rest);
  }

  /** A value in one line that leaves the flags `f` and the length `n`. */
  lemma PlainValue(p: Parser, log: Log, s: string, w: Val, f: Flags, n: nat, end: string, ch: char, rest: string) returns (q: Parser)
    requires p.st == Header(DiscardWs) && s != [] && ValueOk(s) && IsLineEnd(end) && p.nread + |s| + |end| <= MAX_HEADER_SIZE
    requires StartValue(V.ValueOf(p), s[0]) == ValOk(w)
    requires var r := V.Values(w, s[1..]); r.ValOk? && FinishValue(r.v.flags, r.v.hs) == f && r.v.length == n
    requires !IsBlank(ch) && !EndsWith(log, ValuePiece)
    ensures q == p.(st := Header(FieldStart), hs := q.hs, index := q.index, nread := p.nread + |s| + |end|, flags := f, length := n)
    ensures RunBytes(p, log, s + (end + ([ch] + rest))) == Later(|s| + |end|, RunBytes(q, log + [Data(ValuePiece, s)], [ch] + rest))
  {
    hide RunBytes, V.Values, StartValue, FinishValue;
    ValueBegins(p, log, s, w);
    var a, l := V.WithValue(p, V.Values(w, s[1..]).v, |s|), log + [Data(ValuePiece, s)];
    ValueEnds(a, l, end, ch, rest);
    On(p, log, s, a, l, end + ([ch] + rest));
    q := a.(st := Header(FieldStart), nread := a.nread + |end|, flags := f);
  }

  // ---------- Values in several lines ----------

  /** What a matcher is in the next line of a value. A length may only be followed by blanks, the start of a list
      element stays what it is, and anything else is forgotten: a word in the line before does not count. */
  function Continued(hs: Hs): Hs {
    if hs.ContentLengthNum? || hs.ContentLengthWs? then ContentLengthWs
    else if hs.TeTokenStart? || hs.ConnTokenStart? then hs
    else General
  }

  lemma FoldByte(p: Parser, log: Log, c: char)
    requires p.st == Header(ValueLws) && p.hs.OfValue() && p.nread < MAX_HEADER_SIZE && IsBlank(c)
    ensures ByteStep(p, log, c) ==
            Done(p.(st := Header(Value), hs := Continued(p.hs), index := 0, nread := p.nread + 1), Emit(log, ValuePiece, [c]))
  {
    hide Emit;
    var q := Counted(p);
    var a := q.(hs := if q.hs == ContentLengthNum then ContentLengthWs else q.hs, st := Header(ValueStart));
    assert Exec(q, c) == ValueLwsPass(q, c) == Again(a, []);
    assert Exec(a, c) == ValueStartPass(a, c);
    assert Passes(q, log, c) == Passes(a, log, c);
  }

  /** A value that goes on in the next line: the bytes of that line are part of the same piece, and the matcher reads
      them from the state above. */
  lemma FoldRead(p: Parser, log: Log, f: Fold)
    requires p.st == Header(Value) && p.hs.OfValue() && FoldOk(f) && p.nread + |f.end| + |f.text| <= MAX_HEADER_SIZE && EndsWith(log, ValuePiece)
    requires V.Values(Val(Continued(p.hs), 0, p.flags, p.length), f.text[1..]).ValOk?
    ensures RunBytes(p, log, f.end + f.text) ==
            All(V.WithValue(p, V.Values(Val(Continued(p.hs), 0, p.flags, p.length), f.text[1..]).v, |f.end| + |f.text|),
                Emit(log, ValuePiece, f.text))
  {
    hide ByteStep, RunBytes, V.Values, Continued, Emit;
    var c, s := f.text[0], f.text[1..];
    assert [c] + s == f.text;
    V.LineEnd(p, log, f.end);
    var a := p.(st := Header(ValueLws), nread := p.nread + |f.end|);
    FoldByte(a, log, c);
    RunOne(a, log, c);
    var b := a.(st := Header(Value), hs := Continued(p.hs), index := 0, nread := a.nread + 1);
    V.EndsEmit(log, [c]);
    V.ValueBytes(b, Emit(log, ValuePiece, [c]), s);
    EmitEmit(log, ValuePiece, [c], s);
    On(a, log, [c], b, Emit(log, ValuePiece, [c]), s);
    On(p, log, f.end, a, log, f.text);
  }

  lemma {:induction false} GeneralBytes(v: Val, s: string)
    requires v.hs == General && V.Plain(s)
    ensures V.Values(v, s) == ValOk(v)
    decreases |s|
  {
    if s != [] {
      assert V.PlainByte(s[0]);
      GeneralBytes(v, s[1..]);
    }
  }

  /** A word that its list ends with does not count if the value goes on in the next line, whatever that line says. */
  lemma FoldForgets(p: Parser, log: Log, f: Fold, end: string, ch: char, rest: string) returns (q: Parser)
    requires p.st == Header(Value) && (p.hs.TeChunked? || p.hs.ConnKeepAlive? || p.hs.ConnClose? || p.hs.ConnUpgrade?)
    requires FoldOk(f) && IsLineEnd(end) && p.nread + |f.end| + |f.text| + |end| <= MAX_HEADER_SIZE && EndsWith(log, ValuePiece) && !IsBlank(ch)
    ensures RunBytes(p, log, end + ([ch] + rest)) ==
            Later(|end|, RunBytes(p.(st := Header(FieldStart), nread := p.nread + |end|, flags := FinishValue(p.flags, p.hs)), log, [ch] + rest))
    ensures q == p.(st := Header(FieldStart), hs := General, index := 0, nread := p.nread + |f.end| + |f.text| + |end|)
    ensures RunBytes(p, log, f.end + f.text + (end + ([ch] + rest))) ==
            Later(|f.end| + |f.text| + |end|, RunBytes(q, Emit(log, ValuePiece, f.text), [ch] + rest))
  {
    hide RunBytes, FinishValue, V.Values, V.Plain;
    ValueEnds(p, log, end, ch, rest);
    var v := Val(General, 0, p.flags, p.length);
    TailPlain(f.text);
    GeneralBytes(v, f.text[1..]);
    FoldRead(p, log, f);
    var a, l := V.WithValue(p, v, |f.end| + |f.text|), Emit(log, ValuePiece, f.text);
    ValueEnds(a, l, end, ch, rest);
    NoWord(p.flags);
    On(p, log, f.end + f.text, a, l, end + ([ch] + rest));
    q := a.(st := Header(FieldStart), nread := a.nread + |end|);
  }

  lemma TailPlain(s: string)
    requires V.Plain(s) && s != []
    ensures V.Plain(s[1..])
  {
  }

  lemma NoWord(f: Flags)
    ensures FinishValue(f, General) == f
  {
  }

  /** A digit of a length in the next line is an error. */
  lemma FoldedDigit(p: Parser, log: Log, end: string, c: char, s: string, d: char)
    requires p.st == Header(Value) && (p.hs == ContentLengthNum || p.hs == ContentLengthWs) && EndsWith(log, ValuePiece)
    requires IsLineEnd(end) && IsBlank(c) && AllBlank(s) && IsDigit(d) && p.nread + |end| + |s| + 2 <= MAX_HEADER_SIZE
    ensures RunBytes(p, log, (end + ([c] + s)) + [d]) == Failed(InvalidContentLength, |end| + |s| + 1)
  {
    hide RunBytes, ByteStep, V.WithValue;
    var a := FoldedBlanks(p, log, end, c, s);
    var l := Emit(log, ValuePiece, [c] + s);
    LateDigit(a, l, d);
    RunOne(a, l, d);
    On(p, log, end + ([c] + s), a, l, [d]);
  }

  lemma FoldedBlanks(p: Parser, log: Log, end: string, c: char, s: string) returns (a: Parser)
    requires p.st == Header(Value) && (p.hs == ContentLengthNum || p.hs == ContentLengthWs) && EndsWith(log, ValuePiece)
    requires IsLineEnd(end) && IsBlank(c) && AllBlank(s) && p.nread + |end| + |s| + 2 <= MAX_HEADER_SIZE
    ensures a == p.(hs := ContentLengthWs, index := 0, nread := p.nread + |end| + |s| + 1)
    ensures RunBytes(p, log, end + ([c] + s)) == All(a, Emit(log, ValuePiece, [c] + s))
  {
    hide RunBytes, V.Values, V.Plain, Emit;
    var v := Val(ContentLengthWs, 0, p.flags, p.length);
    var f := Fold(end, [c] + s);
    assert f.text[1..] == s;
    BlankPlain(c, s);
    SpacesBehind(v, s);
    FoldRead(p, log, f);
    a := V.WithValue(p, v, |end| + |s| + 1);
  }

  lemma BlankPlain(c: char, s: string)
    requires IsBlank(c) && AllBlank(s)
    ensures V.Plain([c] + s)
  {
  }

  lemma {:induction false} SpacesBehind(v: Val, s: string)
    requires v.hs == ContentLengthWs && AllBlank(s)
    ensures V.Values(v, s) == ValOk(v)
    decreases |s|
  {
    if s != [] { SpacesBehind(v, s[1..]); }
  }

  lemma LateDigit(p: Parser, log: Log, d: char)
    requires p.st == Header(Value) && p.hs == ContentLengthWs && IsDigit(d) && p.nread < MAX_HEADER_SIZE
    ensures ByteStep(p, log, d) == Bad(InvalidContentLength)
  {
    assert Exec(Counted(p), d) == ValuePass(Counted(p), d);
  }

  lemma {:induction false} FoldsRead(p: Parser, log: Log, fs: seq<Fold>) returns (q: Parser)
    requires p.st == Header(Value) && p.hs == General && FoldsOk(fs) && p.nread + |FoldsText(fs)| <= MAX_HEADER_SIZE && EndsWith(log, ValuePiece)
    ensures q == p.(index := q.index, nread := p.nread + |FoldsText(fs)|)
    ensures RunBytes(p, log, FoldsText(fs)) == All(q, Emit(log, ValuePiece, FoldsValue(fs)))
    decreases |fs|
  {
    hide RunBytes, V.Values, V.Plain, Emit, EndsWith;
    if fs == [] {
      RunNothing(p, log);
      EmitNothing(log, ValuePiece);
      q := p;
    } else {
      var f, more := fs[0], FoldsText(fs[1..]);
      var v := Val(General, 0, p.flags, p.length);
      TailPlain(f.text);
      GeneralBytes(v, f.text[1..]);
      FoldRead(p, log, f);
      var a, l := V.WithValue(p, v, |f.end| + |f.text|), Emit(log, ValuePiece, f.text);
      V.EndsEmit(log, f.text);
      q := FoldsRead(a, l, fs[1..]);
      EmitEmit(log, ValuePiece, f.text, FoldsValue(fs[1..]));
      On(p, log, f.end + f.text, a, l, more);
      Regroup(f.end, f.text, more);
    }
  }

  lemma GeneralValue(p: Parser, log: Log, h: HeaderLine, f: Flags, ch: char, rest: string) returns (q: Parser)
    requires p.st == Header(DiscardWs) && h.value != [] && ValueOk(h.value) && p.nread + |ValueText(h)| <= MAX_HEADER_SIZE
    requires FoldsOk(h.folds) && IsLineEnd(h.end) && StartValue(V.ValueOf(p), h.value[0]) == ValOk(Val(General, 0, f, p.length))
    requires !IsBlank(ch) && !EndsWith(log, ValuePiece)
    ensures q == p.(st := Header(FieldStart), hs := q.hs, index := q.index, nread := p.nread + |ValueText(h)|, flags := f)
    ensures RunBytes(p, log, ValueText(h) + ([ch] + rest)) == Later(|ValueText(h)|, RunBytes(q, log + [Data(ValuePiece, ValueSaid(h))], [ch] + rest))
  {
    hide RunBytes, StartValue, V.Values, V.Plain, FoldsText, FoldsValue, FoldsOk, Emit, EndsWith, ValueOk, IsLineEnd, FinishValue;
    var s, w := h.value, Val(General, 0, f, p.length);
    ValueShape(s);
    GeneralBytes(w, s[1..]);
    ValueBegins(p, log, s, w);
    var a, l := V.WithValue(p, w, |s|), log + [Data(ValuePiece, s)];
    LastPiece(log, s, FoldsValue(h.folds));
    var b := FoldsRead(a, l, h.folds);
    var l2 := log + [Data(ValuePiece, ValueSaid(h))];
    ValueEnds(b, l2, h.end, ch, rest);
    NoWord(f);
    var last := h.end + ([ch] + rest);
    Chain(p, log, s, a, l, FoldsText(h.folds), b, l2, last);
    ValueSplit(s, FoldsText(h.folds), h.end, [ch] + rest);
    q := b.(st := Header(FieldStart), nread := b.nread + |h.end|);
  }

  lemma LastPiece(log: Log, a: string, b: string)
    ensures Emit(log + [Data(ValuePiece, a)], ValuePiece, b) == log + [Data(ValuePiece, a + b)]
    ensures EndsWith(log + [Data(ValuePiece, a)], ValuePiece)
  {
  }

  lemma ValueSplit(a: string, b: string, c: string, d: string)
    ensures (a + (b + c)) + d == a + (b + (c + d))
  {
  }

  /** The digits of a length, and blanks behind them. */
  lemma {:induction false} LengthDigits(v: Val, s: string, n: nat)
    requires v.hs == ContentLengthNum && Digits(s) && n <= ULLONG_MAX - 6 && v.length <= n && v.length * Power10(|s|) + Numeral(s) == n
    ensures V.Values(v, s) == ValOk(v.(length := n))
    decreases |s|
  {
    if s == [] {
    } else {
      DigitFirst(s);
      var d := s[0] as int - '0' as int;
      var next := v.length * 10 + d;
      Grows(v.length, d, Power10(|s| - 1), Numeral(s[1..]));
      assert ValueByte(v, s[0]) == ValOk(v.(length := next)) by { SmallNext(next); }
      hide ValueByte;
      LengthDigits(v.(length := next), s[1..], n);
    }
  }

  function Power10(k: nat): nat { if k == 0 then 1 else 10 * Power10(k - 1) }

  lemma Grows(v: nat, d: nat, p: nat, more: nat)
    requires p > 0
    ensures (v * 10 + d) * p + more == v * (10 * p) + (d * p + more) && v * 10 + d <= (v * 10 + d) * p + more
  {
    assert (v * 10 + d) * p == v * (10 * p) + d * p;
    MultipleAtLeast(p, v * 10 + d);
  }

  lemma SmallNext(next: nat)
    requires next <= ULLONG_MAX - 6
    ensures next % TWO_64 == next
  {
  }

  lemma {:induction false} DigitFirst(s: string)
    requires s != [] && Digits(s)
    ensures Digits(s[1..]) && Numeral(s) == (s[0] as int - '0' as int) * Power10(|s| - 1) + Numeral(s[1..]) && Power10(|s| - 1) > 0
    decreases |s|
  {
    hide Numeral;
    var n := |s| - 1;
    NumeralLast(s);
    if n == 0 {
      assert s[..0] == [] && s[1..] == [];
      EmptyValue();
    } else {
      var init, tail := s[..n], s[1..];
      assert init[1..] == tail[..n - 1] && init[0] == s[0] && tail[n - 1] == s[n] && |init| - 1 == n - 1;
      NumeralLast(tail);
      DigitFirst(init);
      TenTimes(s[0] as int - '0' as int, Power10(n - 1), Numeral(init[1..]));
    }
  }

  lemma NumeralLast(s: string)
    requires s != [] && Digits(s)
    ensures var n := |s| - 1; Digits(s[..n]) && Numeral(s) == Numeral(s[..n]) * 10 + (s[n] as int - '0' as int)
  {
  }

  lemma TenTimes(d: nat, p: nat, more: nat)
    ensures (d * p + more) * 10 == d * (10 * p) + more * 10
  {
  }

  lemma {:induction false} BlanksBehind(v: Val, s: string)
    requires (v.hs == ContentLengthNum || v.hs == ContentLengthWs) && AllBlank(s)
    ensures var r := V.Values(v, s); r.ValOk? && r.v == v.(hs := r.v.hs) && (r.v.hs == ContentLengthNum || r.v.hs == ContentLengthWs)
    decreases |s|
  {
    if s != [] { BlanksBehind(v.(hs := ContentLengthWs), s[1..]); }
  }

  lemma LengthValue(p: Parser, log: Log, s: string, end: string, ch: char, rest: string) returns (q: Parser)
    requires p.st == Header(DiscardWs) && p.hs == ContentLength && !p.flags.contentLength && IsNumber(s) && NumberOf(s) <= ULLONG_MAX - 6
    requires ValueOk(s) && IsLineEnd(end) && p.nread + |s| + |end| <= MAX_HEADER_SIZE && !IsBlank(ch) && !EndsWith(log, ValuePiece)
    ensures q == p.(st := Header(FieldStart), hs := q.hs, index := q.index, nread := p.nread + |s| + |end|,
                    flags := p.flags.(contentLength := true), length := NumberOf(s))
    ensures RunBytes(p, log, s + (end + ([ch] + rest))) == Later(|s| + |end|, RunBytes(q, log + [Data(ValuePiece, s)], [ch] + rest))
  {
    hide RunBytes, V.Values, Numeral, Power10;
    var n, k := NumberOf(s), DigitCount(s);
    var ds, ws := s[..k], s[k..];
    DigitFirst(ds);
    assert ds[0] == s[0] && IsDigit(s[0]);
    var d := s[0] as int - '0' as int;
    var w := Val(ContentLengthNum, 0, p.flags.(contentLength := true), d);
    assert StartValue(V.ValueOf(p), s[0]) == ValOk(w);
    var m := ds[1..];
    assert s[1..] == m + ws;
    AtMost(d, Power10(|m|), Numeral(m));
    LengthDigits(w, m, n);
    V.ValuesConcat(w, m, ws);
    BlanksBehind(w.(length := n), ws);
    var r := V.Values(w, s[1..]);
    NoFlag(r.v.flags, r.v.hs);
    q := PlainValue(p, log, s, w, p.flags.(contentLength := true), n, end, ch, rest);
  }

  lemma AtMost(d: nat, p: nat, more: nat)
    requires p > 0
    ensures d <= d * p + more
  {
    MultipleAtLeast(p, d);
  }

  lemma NoFlag(f: Flags, hs: Hs)
    requires hs == ContentLengthNum || hs == ContentLengthWs
    ensures FinishValue(f, hs) == f
  {
  }

  /** The value of any header, by the name that the parser has resolved. */
  lemma ValueRead(p: Parser, log: Log, h: HeaderLine, ch: char, rest: string) returns (q: Parser)
    requires p.st == Header(DiscardWs) && HeaderOk(InfoOf(p), h) && p.nread + |ValueText(h)| <= MAX_HEADER_SIZE
    requires Resolves(p.hs, p.index, Folded(h.name)) && !IsBlank(ch) && !EndsWith(log, ValuePiece)
    requires p.usesTe == (p.usesTe || TRANSFER_ENCODING <= Folded(h.name))
    ensures q == Told(p, Adds(InfoOf(p), h)).(st := Header(FieldStart), hs := q.hs, index := q.index, nread := p.nread + |ValueText(h)|)
    ensures RunBytes(p, log, ValueText(h) + ([ch] + rest)) ==
            Later(|ValueText(h)|, RunBytes(q, log + [Data(ValuePiece, ValueSaid(h))], [ch] + rest))
  {
    hide RunBytes, V.Heard, V.Elements, Resolves, NumberOf, IsNumber, V.Plain, Tokens, FoldsOk, FoldsText, FoldsValue;
    var low := Folded(h.name);
    ResolvedNames(p.hs, p.index, low);
    ResolvedOf(p.hs, p.index, low);
    NamesApart();
    if h.value == [] || low == CONTENT_LENGTH || IsList(h) { OneLine(h, [ch] + rest); }
    if h.value == [] {
      NoLength(p, h);
      q := EmptyRead(p, log, h.end, ch, rest);
    } else if low == CONTENT_LENGTH {
      q := LengthValue(p, log, h.value, h.end, ch, rest);
    } else if IsList(h) {
      q := ListRead(if low == TRANSFER_ENCODING then V.EncodingList else V.ConnectionList, p, log, h.value, h.end, ch, rest);
    } else {
      q := OtherValue(p, log, h, ch, rest);
    }
  }

  lemma EmptyRead(p: Parser, log: Log, end: string, ch: char, rest: string) returns (q: Parser)
    requires p.st == Header(DiscardWs) && IsLineEnd(end) && p.nread + |end| <= MAX_HEADER_SIZE
    requires p.hs.OfField() && p.hs != ContentLength && !IsBlank(ch) && !EndsWith(log, ValuePiece)
    ensures q == p.(st := Header(FieldStart), nread := p.nread + |end|)
    ensures RunBytes(p, log, [] + (end + ([ch] + rest))) == Later(|end|, RunBytes(q, log + [Data(ValuePiece, [])], [ch] + rest))
  {
    hide RunBytes;
    NoValue(p, log, end, ch, rest);
    q := p.(st := Header(FieldStart), nread := p.nread + |end|);
    assert Emit(log, ValuePiece, []) == log + [Data(ValuePiece, [])];
    assert [] + (end + ([ch] + rest)) == end + ([ch] + rest);
  }

  lemma OneLine(h: HeaderLine, rest: string)
    requires h.folds == []
    ensures ValueText(h) + rest == h.value + (h.end + rest) && ValueSaid(h) == h.value && |ValueText(h)| == |h.value| + |h.end|
  {
    assert FoldsText([]) + h.end == h.end && h.value + FoldsValue([]) == h.value;
    Regroup(h.value, h.end, rest);
  }

  lemma ListRead(k: V.List, p: Parser, log: Log, s: string, end: string, ch: char, rest: string) returns (q: Parser)
    requires p.st == Header(DiscardWs) && p.hs == (if k.ConnectionList? then Connection else TransferEncoding)
    requires V.Plain(s) && s != [] && !IsBlank(s[0]) && IsLineEnd(end) && p.nread + |s| + |end| <= MAX_HEADER_SIZE
    requires !IsBlank(ch) && !EndsWith(log, ValuePiece)
    ensures q == p.(st := Header(FieldStart), hs := q.hs, index := q.index, nread := p.nread + |s| + |end|,
                    flags := V.Heard(k, p.flags, V.Elements(s), true))
    ensures RunBytes(p, log, s + (end + ([ch] + rest))) == Later(|s| + |end|, RunBytes(q, log + [Data(ValuePiece, s)], [ch] + rest))
  {
    hide RunBytes, V.Heard, V.Elements;
    q := V.ListValue(k, p, log, s, end, ch, rest);
    Regroup(s, end, [ch] + rest);
    assert Emit(log, ValuePiece, s) == log + [Data(ValuePiece, s)];
  }

  /** The value of a header that has no list and no length. */
  lemma OtherValue(p: Parser, log: Log, h: HeaderLine, ch: char, rest: string) returns (q: Parser)
    requires p.st == Header(DiscardWs) && p.hs.OfField() && p.hs != ContentLength && p.hs != TransferEncoding && p.hs != Connection
    requires h.value != [] && ValueOk(h.value) && p.nread + |ValueText(h)| <= MAX_HEADER_SIZE
    requires FoldsOk(h.folds) && IsLineEnd(h.end) && !IsBlank(ch) && !EndsWith(log, ValuePiece)
    ensures q == p.(st := Header(FieldStart), hs := q.hs, index := q.index, nread := p.nread + |ValueText(h)|,
                    flags := if p.hs == Upgrade then p.flags.(upgrade := true) else p.flags)
    ensures RunBytes(p, log, ValueText(h) + ([ch] + rest)) == Later(|ValueText(h)|, RunBytes(q, log + [Data(ValuePiece, ValueSaid(h))], [ch] + rest))
  {
    hide RunBytes, StartValue, V.Plain, ValueText, ValueSaid, FoldsOk;
    Starts(p, h.value[0]);
    q := GeneralValue(p, log, h, if p.hs == Upgrade then p.flags.(upgrade := true) else p.flags, ch, rest);
  }

  lemma NoLength(p: Parser, h: HeaderLine)
    requires HeaderOk(InfoOf(p), h) && h.value == []
    ensures Folded(h.name) != CONTENT_LENGTH
  {
  }

  lemma ResolvedOf(hs: Hs, index: nat, low: string)
    requires Resolves(hs, index, low)
    ensures hs.OfField()
  {
  }

  lemma NamesApart()
    ensures CONTENT_LENGTH != TRANSFER_ENCODING && CONTENT_LENGTH != CONNECTION && CONTENT_LENGTH != PROXY_CONNECTION && CONTENT_LENGTH != UPGRADE
    ensures TRANSFER_ENCODING != CONNECTION && TRANSFER_ENCODING != PROXY_CONNECTION && TRANSFER_ENCODING != UPGRADE
    ensures UPGRADE != CONNECTION && UPGRADE != PROXY_CONNECTION
  {
    assert |CONTENT_LENGTH| == 14 && |TRANSFER_ENCODING| == 17 && |CONNECTION| == 10 && |PROXY_CONNECTION| == 16 && |UPGRADE| == 7;
  }

  lemma Starts(p: Parser, c: char)
    requires p.hs.OfField() && p.hs != ContentLength && p.hs != TransferEncoding && p.hs != Connection
    ensures StartValue(V.ValueOf(p), c) ==
            ValOk(Val(General, 0, if p.hs == Upgrade then p.flags.(upgrade := true) else p.flags, p.length))
  {
  }

  /** A header line: its name and its value are one piece each, and the parser knows what it adds. */
  lemma HeaderRead(p: Parser, log: Log, h: HeaderLine, ch: char, rest: string) returns (q: Parser)
    requires p.st == Header(FieldStart) && HeaderOk(InfoOf(p), h) && p.nread + |HeaderText(h)| <= MAX_HEADER_SIZE
    requires !IsBlank(ch) && !EndsWith(log, FieldPiece)
    ensures q == Told(p, Adds(InfoOf(p), h)).(st := Header(FieldStart), hs := q.hs, index := q.index, nread := p.nread + |HeaderText(h)|)
    ensures RunBytes(p, log, HeaderText(h) + ([ch] + rest)) == Later(|HeaderText(h)|, RunBytes(q, log + HeaderLog(h), [ch] + rest))
  {
    hide RunBytes, Resolves, Adds, V.Plain, IsNumber, NumberOf, Tokens, ValueText, ValueSaid, FoldsOk;
    HeaderLong(h);
    var c, l := NameAndGap(p, log, h);
    var more := ValueText(h) + ([ch] + rest);
    SameHeader(InfoOf(p), InfoOf(c), h);
    q := ValueRead(c, l, h, ch, rest);
    On(p, log, h.name + (":" + h.gap), c, l, more);
    HeaderSplit(h, [ch] + rest);
    assert l + [Data(ValuePiece, ValueSaid(h))] == log + HeaderLog(h);
  }

  lemma NameAndGap(p: Parser, log: Log, h: HeaderLine) returns (c: Parser, l: Log)
    requires p.st == Header(FieldStart) && h.name != [] && Tokens(h.name) && Gap(h.gap)
    requires p.nread + |h.name| + 1 + |h.gap| <= MAX_HEADER_SIZE && !EndsWith(log, FieldPiece)
    ensures l == log + [Data(FieldPiece, h.name)] && RunBytes(p, log, h.name + (":" + h.gap)) == All(c, l)
    ensures c == p.(st := Header(DiscardWs), hs := c.hs, index := c.index, nread := p.nread + |h.name| + 1 + |h.gap|,
                    usesTe := p.usesTe || TRANSFER_ENCODING <= Folded(h.name))
    ensures Resolves(c.hs, c.index, Folded(h.name))
  {
    hide RunBytes, Resolves, Tokens, Gap;
    var a := NameRecognised(p, log, h.name);
    l := log + [Data(FieldPiece, h.name)];
    assert Emit(log, FieldPiece, h.name) == l;
    ColonRead(a, l);
    var b := a.(st := Header(DiscardWs), nread := a.nread + 1);
    GapRead(b, l, h.gap);
    c := b.(nread := b.nread + |h.gap|);
    On(a, l, ":", b, l, h.gap);
    On(p, log, h.name, a, l, ":" + h.gap);
  }

  lemma HeaderLong(h: HeaderLine)
    ensures |HeaderText(h)| == |h.name| + 1 + |h.gap| + |ValueText(h)|
  {
  }

  /** The encoding mark is the only thing that the name alone changes. */
  lemma SameHeader(i: Info, j: Info, h: HeaderLine)
    requires j == i.(usesTe := i.usesTe || TRANSFER_ENCODING <= Folded(h.name))
    ensures Adds(j, h) == Adds(i, h) && (HeaderOk(i, h) <==> HeaderOk(j, h))
  {
    hide V.Heard, V.Elements, NumberOf, IsNumber, V.Plain, Tokens, Folded, Gap, FoldsOk;
  }

  lemma HeaderSplit(h: HeaderLine, rest: string)
    ensures HeaderText(h) + rest == h.name + (":" + h.gap) + (ValueText(h) + rest)
  {
    hide ValueText;
    Regroup(":", h.gap, ValueText(h));
    Regroup(h.name, ":" + h.gap, ValueText(h));
    Regroup(h.name + (":" + h.gap), ValueText(h), rest);
  }
}
