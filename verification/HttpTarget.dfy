/** Which request targets the URL states take (section 5.3 of RFC 7230): a grammar of paths, queries, fragments,
    schemes and authorities, and the proof that the eleven states take exactly that. */
module HttpTarget {
  import opened HttpStep
  import opened HttpStream
  import opened HttpFraming

  // ---------- The grammar ----------

  /** Printable bytes; `#` and `?` have a meaning of their own. */
  predicate Printed(c: char) { 33 <= c as int <= 126 }

  predicate OfAuthority(c: char) {
    'a' <= c <= 'z' || 'A' <= c <= 'Z' || '0' <= c <= '9' || c in "-_.!~*'()%;:&=+$,[]"
  }

  predicate Fragment(s: string) { forall i | 0 <= i < |s| :: Printed(s[i]) }

  /** A query up to the end or up to the fragment. */
  predicate Query(s: string) {
    s == [] || if s[0] == '#' then Fragment(s[1..]) else Printed(s[0]) && Query(s[1..])
  }

  /** What may follow the first byte of a path. */
  predicate Path(s: string) {
    s == [] ||
    if s[0] == '?' then Query(s[1..]) else if s[0] == '#' then Fragment(s[1..]) else Printed(s[0]) && Path(s[1..])
  }

  /** An authority, and the path or query after it; two `@` do not follow each other. */
  predicate Authority(s: string, at: bool) {
    s == [] ||
    if s[0] == '/' then Path(s[1..])
    else if s[0] == '?' then Query(s[1..])
    else if s[0] == '@' then !at && Authority(s[1..], true)
    else OfAuthority(s[0]) && Authority(s[1..], false)
  }

  /** The rest of a scheme, and what it is the scheme of. */
  predicate Scheme(s: string) {
    s != [] &&
    if IsAlpha(s[0]) then Scheme(s[1..]) else "://" <= s && |s| > 3 && Authority(s[3..], false)
  }

  /** The target of a request: an authority for CONNECT, otherwise a path, an asterisk or an absolute form. */
  predicate Target(verb: nat, s: string) {
    s != [] &&
    if verb == CONNECT then Authority(s, false)
    else if s[0] == '/' || s[0] == '*' then Path(s[1..])
    else IsAlpha(s[0]) && Scheme(s[1..])
  }

  // ---------- The states ----------

  /** Where some bytes lead; the states in which a target cannot end count as dead ends. */
  function Walk(u: UrlSt, s: string): UrlStep
    decreases |s|
  {
    if s == [] then To(u)
    else match ParseUrlChar(u, s[0]) case UrlDead => UrlDead case To(v) => Walk(v, s[1..])
  }

  predicate Early(u: UrlSt) { u.Schema? || u.SchemaSlash? || u.SchemaSlashSlash? || u.ServerStart? }

  predicate Ends(r: UrlStep) { r.To? && !Early(r.st) }

  /** What is still to come in a state. */
  predicate Rest(u: UrlSt, s: string) {
    match u
    case Schema => Scheme(s)
    case SchemaSlash => "//" <= s && |s| > 2 && Authority(s[2..], false)
    case SchemaSlashSlash => "/" <= s && |s| > 1 && Authority(s[1..], false)
    case ServerStart => s != [] && Authority(s, false)
    case Server => Authority(s, false)
    case ServerWithAt => Authority(s, true)
    case Path => Path(s)
    case QueryStringStart => Query(s)
    case QueryString => Query(s)
    case FragmentStart => Fragment(s)
    case Fragment => Fragment(s)
  }

  lemma Classes(c: char)
    ensures IsUrlChar(c) <==> Printed(c) && c != '#' && c != '?'
    ensures IsUserinfo(c) || c == '[' || c == ']' <==> OfAuthority(c)
    ensures OfAuthority(c) ==> c != '/' && c != '?' && c != '@' && !UrlBlank(c)
    ensures Printed(c) ==> !UrlBlank(c)
  {
  }

  lemma FragmentStep(s: string)
    requires s != []
    ensures Fragment(s) <==> Printed(s[0]) && Fragment(s[1..])
  {
    if Printed(s[0]) && Fragment(s[1..]) {
      forall i | 0 <= i < |s| ensures Printed(s[i]) { if i > 0 { assert s[i] == s[1..][i - 1]; } }
    }
    if Fragment(s) { forall i | 0 <= i < |s[1..]| ensures Printed(s[1..][i]) { assert s[1..][i] == s[i + 1]; } }
  }

  lemma FromServer(u: UrlSt, s: string)
    requires u.ServerStart? || u.Server? || u.ServerWithAt?
    requires s != []
    ensures Rest(u, s) <==> var r := ParseUrlChar(u, s[0]); r.To? && Rest(r.st, s[1..])
  {
    hide Query, Path, Printed, OfAuthority, IsUserinfo, UrlBlank, IsUrlChar;
    Classes(s[0]);
    BlankMarks();
  }

  lemma BlankMarks()
    ensures !UrlBlank('/') && !UrlBlank('?') && !UrlBlank('@') && !UrlBlank('#') && !UrlBlank(':')
    ensures Printed('/') && Printed('?') && Printed('#') && Printed('@')
    ensures !OfAuthority('/') && !OfAuthority('?') && !OfAuthority('@')
  {
  }

  lemma FromScheme(u: UrlSt, s: string)
    requires u.Schema? || u.SchemaSlash? || u.SchemaSlashSlash?
    requires s != []
    ensures Rest(u, s) <==> var r := ParseUrlChar(u, s[0]); r.To? && Rest(r.st, s[1..])
  {
    hide Authority, UrlBlank;
    BlankMarks();
    AlphaNotBlank(s[0]);
    Marks(s);
  }

  lemma AlphaNotBlank(c: char)
    ensures IsAlpha(c) ==> !UrlBlank(c) && c != ':'
  {
  }

  lemma Marks(s: string)
    requires s != []
    ensures "://" <= s <==> s[0] == ':' && "//" <= s[1..]
    ensures "//" <= s <==> s[0] == '/' && "/" <= s[1..]
    ensures "/" <= s <==> s[0] == '/'
    ensures |s| > 3 ==> s[3..] == s[1..][2..]
    ensures |s| > 2 ==> s[2..] == s[1..][1..]
  {
    if s[0] == ':' && "//" <= s[1..] { assert s[1] == s[1..][0] && s[2] == s[1..][1]; assert "://" == s[..3]; }
    if "://" <= s { assert s[1..][..2] == "//"; }
    if s[0] == '/' && "/" <= s[1..] { assert s[1] == s[1..][0]; assert "//" == s[..2]; }
    if "//" <= s { assert s[1..][..1] == "/"; }
    if s[0] == '/' { assert s[..1] == "/"; }
  }

  lemma FromPath(u: UrlSt, s: string)
    requires u.Path? || u.QueryStringStart? || u.QueryString? || u.FragmentStart? || u.Fragment?
    requires s != []
    ensures Rest(u, s) <==> var r := ParseUrlChar(u, s[0]); r.To? && Rest(r.st, s[1..])
  {
    hide Authority, Printed, UrlBlank, IsUrlChar, Fragment;
    Classes(s[0]);
    BlankMarks();
    FragmentStep(s);
  }

  /** The states take exactly the texts that the grammar allows from there on. */
  lemma {:induction false} WalkExact(u: UrlSt, s: string)
    ensures Ends(Walk(u, s)) <==> Rest(u, s)
    decreases |s|
  {
    hide ParseUrlChar, Authority, Query, Path, Fragment;
    if s == [] {
      EmptyRest();
    } else {
      match u {
        case Schema => FromScheme(u, s);
        case SchemaSlash => FromScheme(u, s);
        case SchemaSlashSlash => FromScheme(u, s);
        case ServerStart => FromServer(u, s);
        case Server => FromServer(u, s);
        case ServerWithAt => FromServer(u, s);
        case _ => FromPath(u, s);
      }
      hide Rest;
      var r := ParseUrlChar(u, s[0]);
      if r.To? { WalkExact(r.st, s[1..]); }
    }
  }

  lemma EmptyRest()
    ensures !Scheme([]) && Authority([], true) && Authority([], false) && Path([]) && Query([]) && Fragment([])
  {
  }

  /** The step before the first byte. */
  function FirstStep(verb: nat, c: char): UrlStep { if verb == CONNECT then ParseUrlChar(ServerStart, c) else FirstUrlChar(c) }

  lemma TargetExact(verb: nat, s: string)
    requires s != []
    ensures Target(verb, s) <==> var r := FirstStep(verb, s[0]); r.To? && Ends(Walk(r.st, s[1..]))
  {
    var r := FirstStep(verb, s[0]);
    if r.To? { WalkExact(r.st, s[1..]); }
    if verb == CONNECT { FromServer(ServerStart, s); }
    hide ParseUrlChar, Authority, Query, Path, Fragment, Scheme, Walk;
  }

  // ---------- In the stream of bytes ----------

  predicate InLine(s: string) { forall i | 0 <= i < |s| :: s[i] != ' ' && s[i] != '\r' && s[i] != '\n' }

  lemma UrlByte(p: Parser, log: Log, u: UrlSt, c: char)
    requires p.st == Url(u) && p.nread < MAX_HEADER_SIZE && c != ' ' && c != '\r' && c != '\n'
    ensures ByteStep(p, log, c) ==
            match ParseUrlChar(u, c)
            case UrlDead => Bad(InvalidUrl)
            case To(v) => Done(p.(st := Url(v), nread := p.nread + 1), Emit(log, UrlPiece, [c]))
  {
    hide ParseUrlChar, Emit;
    var q := Counted(p);
    assert Exec(q, c) == UrlPass(q, u, c);
  }

  lemma {:induction false} UrlBytes(p: Parser, log: Log, u: UrlSt, s: string)
    requires p.st == Url(u) && p.nread + |s| <= MAX_HEADER_SIZE && InLine(s) && EndsWith(log, UrlPiece)
    ensures var w := Walk(u, s);
            if w.To? then RunBytes(p, log, s) == All(p.(st := Url(w.st), nread := p.nread + |s|), Emit(log, UrlPiece, s))
            else RunBytes(p, log, s).Failed? && RunBytes(p, log, s).e == InvalidUrl
    decreases |s|
  {
    hide ByteStep, ParseUrlChar, Emit, EndsWith;
    if s == [] {
      EmitNothing(log, UrlPiece);
    } else {
      UrlByte(p, log, u, s[0]);
      var r := ParseUrlChar(u, s[0]);
      if r.To? {
        EmitEmit(log, UrlPiece, [s[0]], s[1..]);
        EmitEmit(log, UrlPiece, [], [s[0]]);
        assert [s[0]] + s[1..] == s;
        UrlBytes(p.(st := Url(r.st), nread := p.nread + 1), Emit(log, UrlPiece, [s[0]]), r.st, s[1..]);
      }
    }
  }

  lemma FirstTargetByte(p: Parser, log: Log, c: char)
    requires p.st == Line(SpacesBeforeUrl) && p.nread < MAX_HEADER_SIZE && c != ' '
    ensures ByteStep(p, log, c) ==
            match FirstStep(p.verb, c)
            case UrlDead => Bad(InvalidUrl)
            case To(v) => Done(p.(st := Url(v), nread := p.nread + 1), Emit(log, UrlPiece, [c]))
  {
    hide ParseUrlChar, Emit;
    var q := Counted(p);
    assert Exec(q, c) == SpacesPass(q, c);
  }

  /** The parser when a target has been read and is followed by `end`: a blank, or the end of the line in a request
      without a version. */
  function AfterTarget(p: Parser, n: nat, end: char): Parser {
    var q := p.(nread := p.nread + n + 1);
    if end == ' ' then q.(st := Line(HttpStart))
    else q.(major := 0, minor := 9, st := if end == '\r' then Line(LineAlmostDone) else Header(FieldStart))
  }

  lemma TargetEnds(p: Parser, log: Log, u: UrlSt, end: char)
    requires p.st == Url(u) && p.nread < MAX_HEADER_SIZE && (end == ' ' || end == '\r' || end == '\n')
    ensures ByteStep(p, log, end) == if Early(u) then Bad(InvalidUrl) else Done(AfterTarget(p, 0, end), log)
  {
    var q := Counted(p);
    assert Exec(q, end) == UrlPass(q, u, end);
  }

  /** The states that the bytes of a target lead through. */
  lemma TargetStates(p: Parser, log: Log, s: string)
    requires p.st == Line(SpacesBeforeUrl) && s != [] && InLine(s) && p.nread + |s| < MAX_HEADER_SIZE && !EndsWith(log, UrlPiece)
    ensures var f, r := FirstStep(p.verb, s[0]), RunBytes(p, log, s);
            if f.To? && Walk(f.st, s[1..]).To? then
              r == All(p.(st := Url(Walk(f.st, s[1..]).st), nread := p.nread + |s|), log + [Data(UrlPiece, s)])
            else r.Failed? && r.e == InvalidUrl
  {
    hide ByteStep, RunBytes, Walk, FirstStep, Emit, EndsWith;
    FirstTargetByte(p, log, s[0]);
    RunOne(p, log, s[0]);
    assert [s[0]] + s[1..] == s;
    RunConcat(p, log, [s[0]], s[1..]);
    var f := FirstStep(p.verb, s[0]);
    if f.To? {
      var q, l := p.(st := Url(f.st), nread := p.nread + 1), Emit(log, UrlPiece, [s[0]]);
      EmitEnds(log, UrlPiece, [s[0]]);
      UrlBytes(q, l, f.st, s[1..]);
      WholePiece(log, UrlPiece, s);
    }
  }

  /** A text without blanks and line ends is taken as the target of a request if and only if it is one; then it is
      reported as one piece. */
  lemma TargetRead(p: Parser, log: Log, s: string, end: char)
    requires p.st == Line(SpacesBeforeUrl) && s != [] && InLine(s) && p.nread + |s| < MAX_HEADER_SIZE
    requires (end == ' ' || end == '\r' || end == '\n') && !EndsWith(log, UrlPiece)
    ensures var r := RunBytes(p, log, s + [end]);
            if Target(p.verb, s) then r == All(AfterTarget(p, |s|, end), log + [Data(UrlPiece, s)])
            else r.Failed? && r.e == InvalidUrl
  {
    hide ByteStep, RunBytes, Walk, Target, FirstStep, Ends, EndsWith, InLine;
    TargetExact(p.verb, s);
    TargetStates(p, log, s);
    RunConcat(p, log, s, [end]);
    var f := FirstStep(p.verb, s[0]);
    if f.To? {
      var w := Walk(f.st, s[1..]);
      EndsTo(w);
      if w.To? {
        var t := p.(st := Url(w.st), nread := p.nread + |s|);
        TargetEnds(t, log + [Data(UrlPiece, s)], w.st, end);
        RunOne(t, log + [Data(UrlPiece, s)], end);
      }
    }
  }

  lemma EndsTo(w: UrlStep)
    ensures Ends(w) <==> w.To? && !Early(w.st)
  {
  }

  /** A piece that is reported byte by byte. */
  lemma WholePiece(log: Log, k: Piece, s: string)
    requires s != [] && !EndsWith(log, k)
    ensures Emit(Emit(log, k, [s[0]]), k, s[1..]) == log + [Data(k, s)] == Emit(log, k, s)
  {
    EmitEmit(log, k, [s[0]], s[1..]);
    assert [s[0]] + s[1..] == s;
  }
}
