/** The request side of the HTTP/1.1 push parser, one byte at a time.

    `Exec` is one pass through the parser's switch for one byte, in strict mode and with callbacks
    that return 0. A pass ends the byte (`Next`), asks to run the switch again on the same byte
    (`Again`), leaves the parser after an upgrade (`Exit`) or reports an error (`Fail`).
    A byte counts in this module as a character below 256. */
module HttpStep {
  import opened Arithmetic

  const MAX_HEADER_SIZE: nat := 80 * 1024
  const ULLONG_MAX: nat := 0xFFFF_FFFF_FFFF_FFFF
  const TWO_64: nat := 0x1_0000_0000_0000_0000

  // The parser's states, grouped by the part of the message they read.
  datatype LineSt =
    | Dead | StartReq | ReqMethod | SpacesBeforeUrl
    | HttpStart | HttpH | HttpHT | HttpHTT | HttpHTTP | HttpI | HttpIC
    | HttpMajor | HttpDot | HttpMinor | HttpEnd | LineAlmostDone
  datatype UrlSt =
    | Schema | SchemaSlash | SchemaSlashSlash | ServerStart | Server | ServerWithAt
    | Path | QueryStringStart | QueryString | FragmentStart | Fragment
  datatype HeaderSt =
    | FieldStart | Field | DiscardWs | DiscardWsAlmostDone | DiscardLws | ValueStart | Value | ValueLws | AlmostDone
  datatype FrameSt =
    | HeadersAlmostDone | HeadersDone | SizeStart | Size | Parameters | SizeAlmostDone
  datatype BodySt =
    | ChunkData | ChunkDataAlmostDone | ChunkDataDone | Identity | MessageDone

  datatype St = Line(line: LineSt) | Url(url: UrlSt) | Header(header: HeaderSt) | Frame(frame: FrameSt) | Body(body: BodySt)
  {
    /** All states up to and including `HeadersDone` count towards the header size. */
    predicate ParsingHeader() { !Body? }
  }

  datatype Hs =
    | General | C | CO | CON
    | MatchConnection | MatchProxyConnection | MatchContentLength | MatchTransferEncoding | MatchUpgrade
    | Connection | ContentLength | ContentLengthNum | ContentLengthWs | TransferEncoding | Upgrade
    | TeTokenStart | TeMatchChunked | TeToken
    | ConnTokenStart | ConnMatchKeepAlive | ConnMatchClose | ConnMatchUpgrade | ConnToken
    | TeChunked | ConnKeepAlive | ConnClose | ConnUpgrade
  {
    predicate OfField() {
      General? || C? || CO? || CON? || MatchConnection? || MatchProxyConnection? || MatchContentLength? ||
      MatchTransferEncoding? || MatchUpgrade? || Connection? || ContentLength? || TransferEncoding? || Upgrade?
    }

    /** The states a header value can be in: the name has been resolved. */
    predicate OfValue() {
      General? || ContentLengthNum? || ContentLengthWs? || TeTokenStart? || TeMatchChunked? || TeToken? ||
      ConnTokenStart? || ConnMatchKeepAlive? || ConnMatchClose? || ConnMatchUpgrade? || ConnToken? ||
      TeChunked? || ConnKeepAlive? || ConnClose? || ConnUpgrade?
    }
  }

  datatype Flags = Flags(
    chunked: bool, keepAlive: bool, close: bool, connUpgrade: bool,
    trailing: bool, upgrade: bool, skipBody: bool, contentLength: bool)

  const NO_FLAGS := Flags(false, false, false, false, false, false, false, false)

  datatype Parser = Parser(
    st: St, hs: Hs, index: nat, nread: nat, length: nat, flags: Flags, usesTe: bool,
    verb: nat, major: nat, minor: nat, upgrade: bool)

  datatype Errno =
    | HeaderOverflow | ClosedConnection | InvalidVersion | InvalidMethod | InvalidUrl | LfExpected
    | InvalidHeaderToken | InvalidContentLength | UnexpectedContentLength | InvalidChunkSize
    | InvalidConstant | Strict | InvalidTransferEncoding | InvalidEofState

  datatype Piece = UrlPiece | FieldPiece | ValuePiece | BodyPiece
  datatype Signal = MessageBegin | HeadersComplete | ChunkHeader | ChunkComplete | MessageComplete

  /** What the byte does to the callback stream. `Begin`: the byte is part of a piece and the piece
      is marked from here unless it is marked already. `Continue`: the byte is part of the piece that
      is already marked. `Flush`: the piece ends before this byte. `Finish`: the byte is the last of
      the piece. `Empty`: a piece without bytes is reported. */
  datatype Op =
    | Begin(piece: Piece) | Continue(piece: Piece) | Flush(piece: Piece) | Finish(piece: Piece) | Empty(piece: Piece)
    | Notify(signal: Signal)

  datatype Pass = Next(p: Parser, ops: seq<Op>) | Again(p: Parser, ops: seq<Op>) | Exit(p: Parser, ops: seq<Op>) | Fail(e: Errno)

  // ---------- Character classes ----------

  function Lower(c: char): char {
    if c as int < 256 && (c as int / 32) % 2 == 0 then (c as int + 32) as char else c
  }

  predicate IsAlpha(c: char) { 'a' <= c <= 'z' || 'A' <= c <= 'Z' }

  predicate IsTokenMark(c: char) {
    c == '!' || c == '#' || c == '$' || c == '%' || c == '&' || c == '\'' || c == '*' || c == '+' ||
    c == '-' || c == '.' || c == '^' || c == '_' || c == '`' || c == '|' || c == '~'
  }

  predicate IsToken(c: char) { IsDigit(c) || IsAlpha(c) || IsTokenMark(c) }

  /** The token table lowercases letters. */
  function TokenOf(c: char): char {
    if 'A' <= c <= 'Z' then Lower(c) else c
  }

  predicate IsHeaderChar(c: char) {
    c == '\r' || c == '\n' || c == '\t' || (c as int > 31 && c as int != 127)
  }

  predicate IsUserinfo(c: char) {
    IsAlpha(c) || IsDigit(c) ||
    c == '-' || c == '_' || c == '.' || c == '!' || c == '~' || c == '*' || c == '\'' || c == '(' || c == ')' ||
    c == '%' || c == ';' || c == ':' || c == '&' || c == '=' || c == '+' || c == '$' || c == ','
  }

  predicate IsUrlChar(c: char) { 33 <= c as int <= 126 && c != '#' && c != '?' }

  // ---------- Methods ----------

  const METHOD_COUNT: nat := 34

  function MethodName(m: nat): string {
    match m
    case 0 => "DELETE" case 1 => "GET" case 2 => "HEAD" case 3 => "POST"
    case 4 => "PUT" case 5 => "CONNECT" case 6 => "OPTIONS" case 7 => "TRACE"
    case 8 => "COPY" case 9 => "LOCK" case 10 => "MKCOL" case 11 => "MOVE"
    case 12 => "PROPFIND" case 13 => "PROPPATCH" case 14 => "SEARCH" case 15 => "UNLOCK"
    case 16 => "BIND" case 17 => "REBIND" case 18 => "UNBIND" case 19 => "ACL"
    case 20 => "REPORT" case 21 => "MKACTIVITY" case 22 => "CHECKOUT" case 23 => "MERGE"
    case 24 => "M-SEARCH" case 25 => "NOTIFY" case 26 => "SUBSCRIBE" case 27 => "UNSUBSCRIBE"
    case 28 => "PATCH" case 29 => "PURGE" case 30 => "MKCALENDAR" case 31 => "LINK"
    case 32 => "UNLINK" case 33 => "SOURCE"
    case _ => ""
  }

  const CONNECT: nat := 5
  const SOURCE: nat := 33

  function FirstMethod(c: char): nat {
    match c
    case 'A' => 19 case 'B' => 16 case 'C' => 5 case 'D' => 0 case 'G' => 1 case 'H' => 2 case 'L' => 9
    case 'M' => 10 case 'N' => 25 case 'O' => 6 case 'P' => 3 case 'R' => 20 case 'S' => 26 case 'T' => 7
    case 'U' => 15
    case _ => 34
  }

  /** The method that a letter turns the current guess into; 34 if there is none. */
  function SwitchMethod(m: nat, index: nat, c: char): nat {
    if m == 3 && index == 1 && c == 'U' then 4
    else if m == 3 && index == 1 && c == 'A' then 28
    else if m == 3 && index == 1 && c == 'R' then 12
    else if m == 4 && index == 2 && c == 'R' then 29
    else if m == 5 && index == 1 && c == 'H' then 22
    else if m == 5 && index == 2 && c == 'P' then 8
    else if m == 10 && index == 1 && c == 'O' then 11
    else if m == 10 && index == 1 && c == 'E' then 23
    else if m == 10 && index == 1 && c == '-' then 24
    else if m == 10 && index == 2 && c == 'A' then 21
    else if m == 10 && index == 3 && c == 'A' then 30
    else if m == 26 && index == 1 && c == 'E' then 14
    else if m == 26 && index == 1 && c == 'O' then 33
    else if m == 20 && index == 2 && c == 'B' then 17
    else if m == 12 && index == 4 && c == 'P' then 13
    else if m == 9 && index == 1 && c == 'I' then 31
    else if m == 15 && index == 2 && c == 'S' then 27
    else if m == 15 && index == 2 && c == 'B' then 18
    else if m == 15 && index == 3 && c == 'I' then 32
    else 34
  }

  // ---------- The URL states ----------

  datatype UrlStep = To(st: UrlSt) | UrlDead

  predicate UrlBlank(c: char) { c == ' ' || c == '\r' || c == '\n' || c == '\t' || c as int == 12 }

  function FirstUrlChar(c: char): UrlStep {
    if c == '/' || c == '*' then To(Path) else if IsAlpha(c) then To(Schema) else UrlDead
  }

  function ParseUrlChar(s: UrlSt, c: char): UrlStep {
    if UrlBlank(c) then UrlDead
    else match s
      case Schema => if IsAlpha(c) then To(Schema) else if c == ':' then To(SchemaSlash) else UrlDead
      case SchemaSlash => if c == '/' then To(SchemaSlashSlash) else UrlDead
      case SchemaSlashSlash => if c == '/' then To(ServerStart) else UrlDead
      case ServerWithAt => if c == '@' then UrlDead else ServerChar(c)
      case ServerStart => ServerChar(c)
      case Server => ServerChar(c)
      case Path =>
        if IsUrlChar(c) then To(Path)
        else if c == '?' then To(QueryStringStart)
        else if c == '#' then To(FragmentStart)
        else UrlDead
      case QueryStringStart => QueryChar(c)
      case QueryString => QueryChar(c)
      case FragmentStart =>
        if IsUrlChar(c) || c == '?' then To(Fragment) else if c == '#' then To(FragmentStart) else UrlDead
      case Fragment => if IsUrlChar(c) || c == '?' || c == '#' then To(Fragment) else UrlDead
  }

  function ServerChar(c: char): UrlStep {
    if c == '/' then To(Path)
    else if c == '?' then To(QueryStringStart)
    else if c == '@' then To(ServerWithAt)
    else if IsUserinfo(c) || c == '[' || c == ']' then To(Server)
    else UrlDead
  }

  function QueryChar(c: char): UrlStep {
    if IsUrlChar(c) || c == '?' then To(QueryString) else if c == '#' then To(FragmentStart) else UrlDead
  }

  // ---------- Header names ----------

  const CONNECTION := "connection"
  const PROXY_CONNECTION := "proxy-connection"
  const CONTENT_LENGTH := "content-length"
  const TRANSFER_ENCODING := "transfer-encoding"
  const UPGRADE := "upgrade"
  const CHUNKED := "chunked"
  const KEEP_ALIVE := "keep-alive"
  const CLOSE := "close"

  datatype Name = Name(hs: Hs, index: nat, usesTe: bool)

  /** One more byte of a literal that is being matched; `index` is a 5-bit field. */
  function Matching(literal: string, index: nat, c: char, going: Hs, found: Hs, lost: Hs): (Hs, nat) {
    var i := (index + 1) % 32;
    if i >= |literal| || c != literal[i] then (lost, i)
    else if i == |literal| - 1 then (found, i)
    else (going, i)
  }

  function StartName(c: char): Hs {
    match c
    case 'c' => C case 'p' => MatchProxyConnection case 't' => MatchTransferEncoding case 'u' => MatchUpgrade
    case _ => General
  }

  /** The name matcher on one more token character (already lowercased). */
  function NameByte(n: Name, c: char): Name {
    match n.hs
    case General => n
    case C => Name(if c == 'o' then CO else General, (n.index + 1) % 32, n.usesTe)
    case CO => Name(if c == 'n' then CON else General, (n.index + 1) % 32, n.usesTe)
    case CON =>
      Name(if c == 'n' then MatchConnection else if c == 't' then MatchContentLength else General,
           (n.index + 1) % 32, n.usesTe)
    case MatchConnection =>
      var (h, i) := Matching(CONNECTION, n.index, c, n.hs, Connection, General); Name(h, i, n.usesTe)
    case MatchProxyConnection =>
      var (h, i) := Matching(PROXY_CONNECTION, n.index, c, n.hs, Connection, General); Name(h, i, n.usesTe)
    case MatchContentLength =>
      var (h, i) := Matching(CONTENT_LENGTH, n.index, c, n.hs, ContentLength, General); Name(h, i, n.usesTe)
    case MatchTransferEncoding =>
      var (h, i) := Matching(TRANSFER_ENCODING, n.index, c, n.hs, TransferEncoding, General);
      Name(h, i, n.usesTe || h == TransferEncoding)
    case MatchUpgrade =>
      var (h, i) := Matching(UPGRADE, n.index, c, n.hs, Upgrade, General); Name(h, i, n.usesTe)
    // a resolved name followed by another token character is a different name
    case _ => Name(General, n.index, n.usesTe)
  }

  // ---------- Header values ----------

  datatype Val = Val(hs: Hs, index: nat, flags: Flags, length: nat)
  datatype ValResult = ValOk(v: Val) | ValErr(e: Errno)

  /** The first byte of a value, or the blank that folds the value onto another line. */
  function StartValue(v: Val, c: char): ValResult {
    var k := v.(index := 0);
    match v.hs
    case Upgrade => ValOk(k.(flags := v.flags.(upgrade := true), hs := General))
    case TransferEncoding => ValOk(k.(hs := if Lower(c) == 'c' then TeMatchChunked else TeToken))
    case TeTokenStart => ValOk(k)
    case ContentLength =>
      if !IsDigit(c) then ValErr(InvalidContentLength)
      else if v.flags.contentLength then ValErr(UnexpectedContentLength)
      else ValOk(Val(ContentLengthNum, 0, v.flags.(contentLength := true), c as int - '0' as int))
    case ContentLengthWs => ValOk(k)
    case Connection =>
      ValOk(k.(hs := if Lower(c) == 'k' then ConnMatchKeepAlive
                     else if Lower(c) == 'c' then ConnMatchClose
                     else if Lower(c) == 'u' then ConnMatchUpgrade
                     else ConnToken))
    case ConnTokenStart => ValOk(k)
    case _ => ValOk(k.(hs := General))
  }

  function SetConnection(flags: Flags, hs: Hs): Flags {
    match hs
    case ConnKeepAlive => flags.(keepAlive := true)
    case ConnClose => flags.(close := true)
    case ConnUpgrade => flags.(connUpgrade := true)
    case _ => flags
  }

  function MatchValue(v: Val, literal: string, c: char, found: Hs, lost: Hs): ValResult {
    var (h, i) := Matching(literal, v.index, c, v.hs, found, lost);
    ValOk(v.(hs := h, index := i))
  }

  /** One more byte of a value that is neither CR nor LF. */
  function ValueByte(v: Val, ch: char): ValResult {
    var c := Lower(ch);
    if !IsHeaderChar(ch) then ValErr(InvalidHeaderToken)
    else match v.hs
      case General => ValOk(v)
      case ContentLengthNum =>
        if ch == ' ' then ValOk(v.(hs := ContentLengthWs))
        else if !IsDigit(ch) then ValErr(InvalidContentLength)
        else
          var t := (v.length * 10 + (ch as int - '0' as int)) % TWO_64;
          if (ULLONG_MAX - 10) / 10 < v.length then ValErr(InvalidContentLength) else ValOk(v.(length := t))
      case ContentLengthWs => if ch == ' ' then ValOk(v) else ValErr(InvalidContentLength)
      case TeTokenStart =>
        ValOk(v.(hs := if c == 'c' then TeMatchChunked
                       else if IsToken(c) then TeToken
                       else if c == ' ' || c == '\t' then v.hs
                       else General))
      case TeMatchChunked => MatchValue(v, CHUNKED, c, TeChunked, TeToken)
      case TeToken => if ch == ',' then ValOk(v.(hs := TeTokenStart, index := 0)) else ValOk(v)
      case ConnTokenStart =>
        ValOk(v.(hs := if c == 'k' then ConnMatchKeepAlive
                       else if c == 'c' then ConnMatchClose
                       else if c == 'u' then ConnMatchUpgrade
                       else if IsToken(c) then ConnToken
                       else if c == ' ' || c == '\t' then v.hs
                       else General))
      case ConnMatchKeepAlive => MatchValue(v, KEEP_ALIVE, c, ConnKeepAlive, ConnToken)
      case ConnMatchClose => MatchValue(v, CLOSE, c, ConnClose, ConnToken)
      case ConnMatchUpgrade => MatchValue(v, UPGRADE, c, ConnUpgrade, ConnToken)
      case ConnToken => if ch == ',' then ValOk(v.(hs := ConnTokenStart, index := 0)) else ValOk(v)
      case TeChunked => ValOk(v.(hs := if ch != ' ' then TeToken else v.hs))
      case ConnKeepAlive => ConnectionWord(v, ch)
      case ConnClose => ConnectionWord(v, ch)
      case ConnUpgrade => ConnectionWord(v, ch)
      case _ => ValOk(v.(hs := General))
  }

  function ConnectionWord(v: Val, ch: char): ValResult {
    if ch == ',' then ValOk(v.(flags := SetConnection(v.flags, v.hs), hs := ConnTokenStart, index := 0))
    else if ch != ' ' then ValOk(v.(hs := ConnToken))
    else ValOk(v)
  }

  /** The flags a finished header value leaves behind. */
  function FinishValue(flags: Flags, hs: Hs): Flags {
    if hs == TeChunked then flags.(chunked := true) else SetConnection(flags, hs)
  }

  // ---------- Message boundaries ----------

  predicate ShouldKeepAlive(p: Parser) {
    if p.major > 0 && p.minor > 0 then !p.flags.close else p.flags.keepAlive
  }

  function NewMessage(p: Parser): St {
    Line(if ShouldKeepAlive(p) then StartReq else Dead)
  }

  function HeadersAlmostDonePass(p: Parser, ch: char): Pass {
    if ch != '\n' then Fail(Strict)
    else if p.flags.trailing then Again(p.(st := Body(MessageDone)), [Notify(ChunkComplete)])
    else if p.usesTe && p.flags.contentLength then Fail(UnexpectedContentLength)
    else
      Again(p.(st := Frame(HeadersDone),
               upgrade := if p.flags.upgrade && p.flags.connUpgrade then true else p.verb == CONNECT),
            [Notify(HeadersComplete)])
  }

  function HeadersDonePass(q: Parser, ch: char): Pass {
    if ch != '\n' then Fail(Strict)
    else
      var p := q.(nread := 0);
      var hasBody := p.flags.chunked || (p.length > 0 && p.length != ULLONG_MAX);
      var done := p.(st := NewMessage(p));
      if p.upgrade && (p.verb == CONNECT || p.flags.skipBody || !hasBody) then Exit(done, [Notify(MessageComplete)])
      else if p.flags.skipBody then Next(done, [Notify(MessageComplete)])
      else if p.flags.chunked then Next(p.(st := Frame(SizeStart)), [])
      else if p.usesTe then Fail(InvalidTransferEncoding)
      else if p.length == 0 then Next(done, [Notify(MessageComplete)])
      else if p.length != ULLONG_MAX then Next(p.(st := Body(Identity)), [])
      else Next(done, [Notify(MessageComplete)])
  }

  function MessageDonePass(p: Parser): Pass {
    var done := p.(st := NewMessage(p));
    if p.upgrade then Exit(done, [Notify(MessageComplete)]) else Next(done, [Notify(MessageComplete)])
  }

  // ---------- One pass of the switch ----------

  function Move(p: Parser, st: St): Pass { Next(p.(st := st), []) }

  function Expect(p: Parser, ok: bool, st: St, e: Errno): Pass {
    if ok then Move(p, st) else Fail(e)
  }

  function StartPass(p: Parser, ch: char): Pass {
    if ch == '\r' || ch == '\n' then Next(p, [])
    else if FirstMethod(ch) == METHOD_COUNT then Fail(InvalidMethod)
    else
      Next(p.(flags := NO_FLAGS, usesTe := false, length := ULLONG_MAX, verb := FirstMethod(ch), index := 1,
              st := Line(ReqMethod)), [Notify(MessageBegin)])
  }

  function MethodPass(p: Parser, ch: char): Pass {
    if p.verb >= METHOD_COUNT || ch as int == 0 then Fail(InvalidMethod)
    else
      var name := MethodName(p.verb);
      if ch == ' ' && p.index == |name| then Next(p.(index := (p.index + 1) % 32, st := Line(SpacesBeforeUrl)), [])
      else if p.index < |name| && ch == name[p.index] then Next(p.(index := (p.index + 1) % 32), [])
      else if ('A' <= ch <= 'Z' || ch == '-') && SwitchMethod(p.verb, p.index, ch) < METHOD_COUNT then
        Next(p.(verb := SwitchMethod(p.verb, p.index, ch), index := (p.index + 1) % 32), [])
      else Fail(InvalidMethod)
  }

  function SpacesPass(p: Parser, ch: char): Pass {
    if ch == ' ' then Next(p, [])
    else
      match if p.verb == CONNECT then ParseUrlChar(ServerStart, ch) else FirstUrlChar(ch)
      case UrlDead => Fail(InvalidUrl)
      case To(u) => Next(p.(st := Url(u)), [Begin(UrlPiece)])
  }

  function UrlPass(p: Parser, u: UrlSt, ch: char): Pass {
    var early := u.Schema? || u.SchemaSlash? || u.SchemaSlashSlash? || u.ServerStart?;
    if early && (ch == ' ' || ch == '\r' || ch == '\n') then Fail(InvalidUrl)
    else if ch == ' ' then Next(p.(st := Line(HttpStart)), [Flush(UrlPiece)])
    else if ch == '\r' then Next(p.(major := 0, minor := 9, st := Line(LineAlmostDone)), [Flush(UrlPiece)])
    else if ch == '\n' then Next(p.(major := 0, minor := 9, st := Header(FieldStart)), [Flush(UrlPiece)])
    else
      match ParseUrlChar(u, ch)
      case UrlDead => Fail(InvalidUrl)
      case To(v) => Next(p.(st := Url(v)), [Continue(UrlPiece)])
  }

  function HttpStartPass(p: Parser, ch: char): Pass {
    if ch == ' ' then Next(p, [])
    else if ch == 'H' then Move(p, Line(HttpH))
    else if ch == 'I' && p.verb == SOURCE then Move(p, Line(HttpI))
    else Fail(InvalidConstant)
  }

  function FieldStartPass(p: Parser, ch: char): Pass {
    if ch == '\r' then Move(p, Frame(HeadersAlmostDone))
    else if ch == '\n' then Again(p.(st := Frame(HeadersAlmostDone)), [])
    else if !IsToken(ch) then Fail(InvalidHeaderToken)
    else Next(p.(index := 0, st := Header(Field), hs := StartName(TokenOf(ch))), [Begin(FieldPiece)])
  }

  function FieldPass(p: Parser, ch: char): Pass {
    if IsToken(ch) then
      var n := NameByte(Name(p.hs, p.index, p.usesTe), TokenOf(ch));
      Next(p.(hs := n.hs, index := n.index, usesTe := n.usesTe), [Continue(FieldPiece)])
    else if ch == ':' then Next(p.(st := Header(DiscardWs)), [Flush(FieldPiece)])
    else Fail(InvalidHeaderToken)
  }

  function ValueStartPass(p: Parser, ch: char): Pass {
    match StartValue(Val(p.hs, p.index, p.flags, p.length), ch)
    case ValErr(e) => Fail(e)
    case ValOk(v) =>
      Next(p.(st := Header(Value), hs := v.hs, index := v.index, flags := v.flags, length := v.length), [Begin(ValuePiece)])
  }

  function DiscardWsPass(p: Parser, ch: char): Pass {
    if ch == ' ' || ch == '\t' then Next(p, [])
    else if ch == '\r' then Move(p, Header(DiscardWsAlmostDone))
    else if ch == '\n' then Move(p, Header(DiscardLws))
    else ValueStartPass(p, ch)
  }

  function ValuePass(p: Parser, ch: char): Pass {
    if ch == '\r' then Next(p.(st := Header(AlmostDone)), [Flush(ValuePiece)])
    else if ch == '\n' then Again(p.(st := Header(AlmostDone)), [Flush(ValuePiece)])
    else
      match ValueByte(Val(p.hs, p.index, p.flags, p.length), ch)
      case ValErr(e) => Fail(e)
      case ValOk(v) =>
        Next(p.(hs := v.hs, index := v.index, flags := v.flags, length := v.length), [Continue(ValuePiece)])
  }

  function ValueLwsPass(p: Parser, ch: char): Pass {
    if ch == ' ' || ch == '\t' then
      Again(p.(hs := if p.hs == ContentLengthNum then ContentLengthWs else p.hs, st := Header(ValueStart)), [])
    else
      Again(p.(flags := FinishValue(p.flags, p.hs), st := Header(FieldStart)), [])
  }

  function DiscardLwsPass(p: Parser, ch: char): Pass {
    if ch == ' ' || ch == '\t' then Move(p, Header(DiscardWs))
    else if p.hs == ContentLength then Fail(InvalidContentLength)
    else Again(p.(flags := FinishValue(p.flags, p.hs), st := Header(FieldStart)), [Empty(ValuePiece)])
  }

  /** The digit table of the chunk decoder. It lists 128 entries of 256, so the other 128 are zero: every
      byte from 128 on counts as the digit 0. */
  function ChunkDigit(c: char): int { if c as int < 128 then Unhex(c) else 0 }

  function ChunkSizeStartPass(p: Parser, ch: char): Pass {
    if ChunkDigit(ch) == -1 then Fail(InvalidChunkSize)
    else Next(p.(length := ChunkDigit(ch), st := Frame(Size)), [])
  }

  function ChunkSizePass(p: Parser, ch: char): Pass {
    if ch == '\r' then Move(p, Frame(SizeAlmostDone))
    else if ChunkDigit(ch) == -1 then
      if ch == ';' || ch == ' ' then Move(p, Frame(Parameters)) else Fail(InvalidChunkSize)
    else
      var t := (p.length * 16 + ChunkDigit(ch)) % TWO_64;
      if (ULLONG_MAX - 16) / 16 < p.length then Fail(InvalidContentLength) else Next(p.(length := t), [])
  }

  function ChunkSizeAlmostDonePass(q: Parser, ch: char): Pass {
    var p := q.(nread := 0);
    if ch != '\n' then Fail(Strict)
    else if p.length == 0 then
      Next(p.(flags := p.flags.(trailing := true), st := Header(FieldStart)), [Notify(ChunkHeader)])
    else Next(p.(st := Body(ChunkData)), [Notify(ChunkHeader)])
  }

  /** One byte of a body of known length: the length left shrinks by one. */
  function BodyPass(p: Parser): Pass
  {
    var left := if p.length > 0 then p.length - 1 else 0;
    if p.st == Body(Identity) then
      if left == 0 then Again(p.(length := 0, st := Body(MessageDone)), [Finish(BodyPiece)])
      else Next(p.(length := left), [Begin(BodyPiece)])
    else
      Next(p.(length := left, st := Body(if left == 0 then ChunkDataAlmostDone else ChunkData)), [Begin(BodyPiece)])
  }

  function LinePass(p: Parser, s: LineSt, ch: char): Pass {
    match s
    case Dead => if ch == '\r' || ch == '\n' then Next(p, []) else Fail(ClosedConnection)
    case StartReq => StartPass(p, ch)
    case ReqMethod => MethodPass(p, ch)
    case SpacesBeforeUrl => SpacesPass(p, ch)
    case HttpStart => HttpStartPass(p, ch)
    case HttpH => Expect(p, ch == 'T', Line(HttpHT), Strict)
    case HttpHT => Expect(p, ch == 'T', Line(HttpHTT), Strict)
    case HttpHTT => Expect(p, ch == 'P', Line(HttpHTTP), Strict)
    case HttpI => Expect(p, ch == 'C', Line(HttpIC), Strict)
    case HttpIC => Expect(p, ch == 'E', Line(HttpHTTP), Strict)
    case HttpHTTP => Expect(p, ch == '/', Line(HttpMajor), Strict)
    case HttpMajor =>
      if IsDigit(ch) then Next(p.(major := ch as int - '0' as int, st := Line(HttpDot)), []) else Fail(InvalidVersion)
    case HttpDot => Expect(p, ch == '.', Line(HttpMinor), InvalidVersion)
    case HttpMinor =>
      if IsDigit(ch) then Next(p.(minor := ch as int - '0' as int, st := Line(HttpEnd)), []) else Fail(InvalidVersion)
    case HttpEnd =>
      if ch == '\r' then Move(p, Line(LineAlmostDone)) else Expect(p, ch == '\n', Header(FieldStart), InvalidVersion)
    case LineAlmostDone => Expect(p, ch == '\n', Header(FieldStart), LfExpected)
  }

  function HeaderPass(p: Parser, s: HeaderSt, ch: char): Pass {
    match s
    case FieldStart => FieldStartPass(p, ch)
    case Field => FieldPass(p, ch)
    case DiscardWs => DiscardWsPass(p, ch)
    case DiscardWsAlmostDone => Expect(p, ch == '\n', Header(DiscardLws), Strict)
    case DiscardLws => DiscardLwsPass(p, ch)
    case ValueStart => ValueStartPass(p, ch)
    case Value => ValuePass(p, ch)
    case AlmostDone => Expect(p, ch == '\n', Header(ValueLws), LfExpected)
    case ValueLws => ValueLwsPass(p, ch)
  }

  function FramePass(p: Parser, s: FrameSt, ch: char): Pass {
    match s
    case HeadersAlmostDone => HeadersAlmostDonePass(p, ch)
    case HeadersDone => HeadersDonePass(p, ch)
    case SizeStart => ChunkSizeStartPass(p, ch)
    case Size => ChunkSizePass(p, ch)
    case Parameters => if ch == '\r' then Move(p, Frame(SizeAlmostDone)) else Next(p, [])
    case SizeAlmostDone => ChunkSizeAlmostDonePass(p, ch)
  }

  function BodyStatePass(p: Parser, s: BodySt, ch: char): Pass {
    match s
    case ChunkData => BodyPass(p)
    case ChunkDataAlmostDone =>
      if ch == '\r' then Next(p.(st := Body(ChunkDataDone)), [Flush(BodyPiece)]) else Fail(Strict)
    case ChunkDataDone =>
      if ch == '\n' then Next(p.(nread := 0, st := Frame(SizeStart)), [Notify(ChunkComplete)]) else Fail(Strict)
    case Identity => BodyPass(p)
    case MessageDone => MessageDonePass(p)
  }

  function Exec(p: Parser, ch: char): Pass {
    match p.st
    case Line(s) => LinePass(p, s, ch)
    case Url(s) => UrlPass(p, s, ch)
    case Header(s) => HeaderPass(p, s, ch)
    case Frame(s) => FramePass(p, s, ch)
    case Body(s) => BodyStatePass(p, s, ch)
  }

  /** How many more passes a byte can need. */
  function Rank(st: St): nat {
    match st
    case Header(ValueLws) => 4 case Header(DiscardLws) => 4 case Header(FieldStart) => 3
    case Frame(HeadersAlmostDone) => 2 case Header(Value) => 1 case Body(Identity) => 1
    case _ => 0
  }

  lemma AgainGoesDown(p: Parser, ch: char)
    requires Exec(p, ch).Again?
    ensures Rank(Exec(p, ch).p.st) < Rank(p.st)
  {
  }
}
