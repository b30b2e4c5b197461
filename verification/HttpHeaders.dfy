/** How header names are recognised and how a Content-Length value is read. */
module HttpHeaders {
  import opened Arithmetic
  import opened HttpStep
  import opened HttpStream
  import opened HttpFraming

  // ---------- Content-Length ----------

  /** A parser about to read the first byte of the value of its first Content-Length header. */
  ghost predicate AtLength(p: Parser) {
    && (p.st == Header(ValueStart) || p.st == Header(DiscardWs))
    && p.hs == ContentLength && !p.flags.contentLength
  }

  /** The parser after the digits `ds` of the value. */
  ghost function LengthRead(p: Parser, ds: string): Parser
    requires Digits(ds)
  {
    p.(st := Header(Value), hs := ContentLengthNum, index := 0, nread := p.nread + |ds|,
       flags := p.flags.(contentLength := true), length := Numeral(ds))
  }

  lemma FirstDigit(p: Parser, log: Log, ch: char)
    requires AtLength(p) && IsDigit(ch) && p.nread < MAX_HEADER_SIZE
    ensures Digits([ch]) && ByteStep(p, log, ch) == Done(LengthRead(p, [ch]), Emit(log, ValuePiece, [ch]))
  {
    var c := Counted(p);
    assert [ch][..0] == [] && Numeral([ch]) == Numeral([ch][..0]) * 10 + (ch as int - '0' as int);
    assert Exec(c, ch) == ValueStartPass(c, ch);
  }

  lemma NextDigit(q: Parser, log: Log, ch: char)
    requires q.st == Header(Value) && q.hs == ContentLengthNum && IsDigit(ch) && q.nread < MAX_HEADER_SIZE
    requires q.length <= ULLONG_MAX
    ensures var v := q.length * 10 + (ch as int - '0' as int);
            ByteStep(q, log, ch) ==
            if v <= ULLONG_MAX - 6 then Done(q.(nread := q.nread + 1, length := v), Emit(log, ValuePiece, [ch]))
            else Bad(InvalidContentLength)
  {
    var c := Counted(q);
    assert Exec(c, ch) == ValuePass(c, ch);
  }

  lemma NumeralSnoc(init: string, ch: char)
    requires Digits(init) && IsDigit(ch)
    ensures Digits(init + [ch]) && Numeral(init + [ch]) == Numeral(init) * 10 + (ch as int - '0' as int)
  {
    assert (init + [ch])[..|init|] == init;
  }

  /** A Content-Length is read exactly; it is accepted if and only if it is at most 2^64 - 7, so an accepted
      length is never the all-ones value that stands for an unknown length. */
  lemma {:induction false} ContentLengthExact(p: Parser, log: Log, ds: string)
    requires AtLength(p) && ds != [] && Digits(ds) && p.nread + |ds| <= MAX_HEADER_SIZE
    ensures var r := RunBytes(p, log, ds);
            if Numeral(ds) <= ULLONG_MAX - 6 then r == All(LengthRead(p, ds), Emit(log, ValuePiece, ds))
            else r.Failed? && r.e == InvalidContentLength
    decreases |ds|
  {
    hide ByteStep, RunBytes, Emit, Numeral, AtLength;
    var n := |ds| - 1;
    var init, ch := ds[..n], ds[n];
    assert ds == init + [ch];
    NumeralSnoc(init, ch);
    RunConcat(p, log, init, [ch]);
    if init == [] {
      RunNothing(p, log);
      FirstDigit(p, log, ch);
      RunOne(p, log, ch);
      EmptyValue();
    } else {
      ContentLengthExact(p, log, init);
      if Numeral(init) <= ULLONG_MAX - 6 {
        NextDigit(LengthRead(p, init), Emit(log, ValuePiece, init), ch);
        RunOne(LengthRead(p, init), Emit(log, ValuePiece, init), ch);
        EmitEmit(log, ValuePiece, init, [ch]);
      }
    }
  }

  lemma EmptyValue()
    ensures Numeral([]) == 0
  {
  }

  // ---------- Header names ----------

  predicate Tokens(name: string) { forall i | 0 <= i < |name| :: IsToken(name[i]) }

  /** The name as the token table sees it: letters in lower case. */
  function Folded(name: string): (r: string)
    ensures |r| == |name| && forall i | 0 <= i < |name| :: r[i] == TokenOf(name[i])
  {
    if name == [] then [] else Folded(name[..|name| - 1]) + [TokenOf(name[|name| - 1])]
  }

  ghost predicate Partial(low: string, literal: string, index: nat) {
    low <= literal && |low| < |literal| && index == |low| - 1
  }

  /** No name the parser looks for starts with `low`. */
  ghost predicate Unknown(low: string) {
    && !(low <= CONNECTION) && !(low <= PROXY_CONNECTION) && !(low <= CONTENT_LENGTH)
    && !(low <= TRANSFER_ENCODING) && !(low <= UPGRADE)
  }

  /** What the matcher's state says about the part of the name read so far. */
  ghost predicate Resolves(hs: Hs, index: nat, low: string) {
    match hs
    case C => low == "c" && index == 0
    case CO => low == "co" && index == 1
    case CON => low == "con" && index == 2
    case MatchConnection => Partial(low, CONNECTION, index) && |low| > 3
    case MatchProxyConnection => Partial(low, PROXY_CONNECTION, index) && |low| > 0
    case MatchContentLength => Partial(low, CONTENT_LENGTH, index) && |low| > 3
    case MatchTransferEncoding => Partial(low, TRANSFER_ENCODING, index) && |low| > 0
    case MatchUpgrade => Partial(low, UPGRADE, index) && |low| > 0
    case Connection => low == CONNECTION || low == PROXY_CONNECTION
    case ContentLength => low == CONTENT_LENGTH
    case TransferEncoding => low == TRANSFER_ENCODING
    case Upgrade => low == UPGRADE
    case General => Unknown(low)
    case _ => false
  }

  lemma Extend(low: string, c: char, literal: string)
    ensures low + [c] <= literal <==> low <= literal && |low| < |literal| && literal[|low|] == c
  {
    if low + [c] <= literal {
      assert (low + [c])[|low|] == c && literal[|low|] == c;
      assert forall i | 0 <= i < |low| :: low[i] == (low + [c])[i];
    }
  }

  lemma ExtendAll(low: string, c: char)
    ensures forall l | l in [CONNECTION, PROXY_CONNECTION, CONTENT_LENGTH, TRANSFER_ENCODING, UPGRADE] ::
              low + [c] <= l <==> low <= l && |low| < |l| && l[|low|] == c
  {
    forall l | l in [CONNECTION, PROXY_CONNECTION, CONTENT_LENGTH, TRANSFER_ENCODING, UPGRADE]
      ensures low + [c] <= l <==> low <= l && |low| < |l| && l[|low|] == c
    {
      Extend(low, c, l);
    }
  }

  /** A prefix that is long enough belongs to one of the names only. */
  lemma Apart(low: string)
    requires |low| > 0
    ensures |low| > 3 && low <= CONNECTION ==> !(low <= CONTENT_LENGTH)
    ensures low <= CONNECTION || low <= CONTENT_LENGTH ==> low[0] == 'c'
    ensures low <= PROXY_CONNECTION ==> low[0] == 'p'
    ensures low <= TRANSFER_ENCODING ==> low[0] == 't'
    ensures low <= UPGRADE ==> low[0] == 'u'
  {
    if |low| > 3 && low <= CONNECTION { assert low[3] == CONNECTION[3] != CONTENT_LENGTH[3]; }
  }

  /** One step inside a literal: the match goes on, is complete, or no name is left. */
  lemma MatchStep(n: Name, low: string, c: char, literal: string, going: Hs, found: Hs)
    requires Partial(low, literal, n.index) && |low| > 0 && |literal| < 32
    ensures var (h, i) := Matching(literal, n.index, c, going, found, General);
            if low + [c] == literal then h == found
            else if low + [c] <= literal then h == going && Partial(low + [c], literal, i)
            else h == General
  {
    Extend(low, c, literal);
    if low + [c] <= literal && |low| + 1 == |literal| { assert low + [c] == literal; }
  }

  lemma StartStep(c: char)
    ensures Resolves(StartName(c), 0, [c])
  {
    ExtendAll([], c);
    assert [] + [c] == [c];
    Apart([c]);
  }

  /** A byte that leaves the only name in reach leaves no name. */
  lemma Lost(low: string, c: char, literal: string)
    requires literal in [CONNECTION, PROXY_CONNECTION, CONTENT_LENGTH, TRANSFER_ENCODING, UPGRADE]
    requires low != [] && low <= literal && !(low + [c] <= literal)
    requires literal == CONNECTION || literal == CONTENT_LENGTH ==> |low| > 3
    ensures Unknown(low + [c])
  {
    Apart(low);
    ExtendAll(low, c);
  }

  lemma ShortSteps(c: char)
    ensures Resolves(if c == 'o' then CO else General, 1, "c" + [c])
    ensures Resolves(if c == 'n' then CON else General, 2, "co" + [c])
    ensures Resolves(if c == 'n' then MatchConnection else if c == 't' then MatchContentLength else General, 3, "con" + [c])
  {
    ShortStep("c", c); ShortStep("co", c); ShortStep("con", c);
    assert 'o' == c ==> "c" + [c] == "co";
    assert 'n' == c ==> "co" + [c] == "con";
    assert "con" <= CONNECTION && "con" <= CONTENT_LENGTH;
  }

  lemma ShortStep(low: string, c: char)
    requires low == "c" || low == "co" || low == "con"
    ensures if c == CONNECTION[|low|] then low + [c] <= CONNECTION
            else if c == CONTENT_LENGTH[|low|] then low + [c] <= CONTENT_LENGTH
            else Unknown(low + [c])
  {
    assert low <= CONNECTION && low <= CONTENT_LENGTH;
    ExtendAll(low, c);
    Apart(low);
  }

  lemma LiteralStep(n: Name, low: string, c: char, literal: string, found: Hs)
    requires Partial(low, literal, n.index) && low != []
    requires literal in [CONNECTION, PROXY_CONNECTION, CONTENT_LENGTH, TRANSFER_ENCODING, UPGRADE]
    requires literal == CONNECTION || literal == CONTENT_LENGTH ==> |low| > 3
    ensures var (h, i) := Matching(literal, n.index, c, n.hs, found, General);
            if low + [c] == literal then h == found
            else if low + [c] <= literal then h == n.hs && Partial(low + [c], literal, i)
            else h == General && Unknown(low + [c])
  {
    hide Matching, Unknown;
    MatchStep(n, low, c, literal, n.hs, found);
    if !(low + [c] <= literal) { Lost(low, c, literal); }
  }

  lemma MatchingStep(n: Name, low: string, c: char)
    requires Resolves(n.hs, n.index, low)
    requires n.hs.MatchConnection? || n.hs.MatchProxyConnection? || n.hs.MatchContentLength? || n.hs.MatchTransferEncoding? || n.hs.MatchUpgrade?
    ensures Resolves(NameByte(n, c).hs, NameByte(n, c).index, low + [c])
    ensures NameByte(n, c).usesTe <==> n.usesTe || (n.hs.MatchTransferEncoding? && low + [c] == TRANSFER_ENCODING)
  {
    hide Matching, Unknown;
    match n.hs
    case MatchConnection => LiteralStep(n, low, c, CONNECTION, Connection);
    case MatchProxyConnection => LiteralStep(n, low, c, PROXY_CONNECTION, Connection);
    case MatchContentLength => LiteralStep(n, low, c, CONTENT_LENGTH, ContentLength);
    case MatchTransferEncoding => LiteralStep(n, low, c, TRANSFER_ENCODING, TransferEncoding);
    case MatchUpgrade => LiteralStep(n, low, c, UPGRADE, Upgrade);
  }

  /** Only the matcher of that name can complete it. */
  lemma OnlyTransferEncoding(n: Name, low: string, c: char)
    requires Resolves(n.hs, n.index, low) && low != [] && low + [c] == TRANSFER_ENCODING
    ensures n.hs.MatchTransferEncoding?
  {
    assert low == TRANSFER_ENCODING[..16];
    Apart(low);
  }

  lemma ResolvedStep(n: Name, low: string, c: char)
    requires Resolves(n.hs, n.index, low) && low != []
    requires n.hs.General? || n.hs.Connection? || n.hs.ContentLength? || n.hs.TransferEncoding? || n.hs.Upgrade?
    ensures Unknown(low + [c])
  {
    ExtendAll(low, c);
    if n.hs != General { Apart(low); }
  }

  lemma NameStep(n: Name, low: string, c: char)
    requires Resolves(n.hs, n.index, low) && low != []
    ensures Resolves(NameByte(n, c).hs, NameByte(n, c).index, low + [c])
    ensures NameByte(n, c).usesTe <==> n.usesTe || low + [c] == TRANSFER_ENCODING
  {
    hide Matching, Unknown;
    if low + [c] == TRANSFER_ENCODING { OnlyTransferEncoding(n, low, c); }
    match n.hs
    case C => ShortSteps(c);
    case CO => ShortSteps(c);
    case CON => ShortSteps(c);
    case General => ResolvedStep(n, low, c);
    case Connection => ResolvedStep(n, low, c);
    case ContentLength => ResolvedStep(n, low, c);
    case TransferEncoding => ResolvedStep(n, low, c);
    case Upgrade => ResolvedStep(n, low, c);
    case _ => MatchingStep(n, low, c);
  }

  ghost predicate NameRead(p: Parser, q: Parser, low: string) {
    && q == p.(st := Header(Field), nread := p.nread + |low|, hs := q.hs, index := q.index, usesTe := q.usesTe)
    && Resolves(q.hs, q.index, low)
    && (q.usesTe <==> p.usesTe || TRANSFER_ENCODING <= low)
  }

  lemma FirstNameByte(p: Parser, log: Log, ch: char)
    requires p.st == Header(FieldStart) && IsToken(ch) && p.nread < MAX_HEADER_SIZE
    ensures var r := ByteStep(p, log, ch);
            r.Done? && r.log == Emit(log, FieldPiece, [ch]) && NameRead(p, r.p, [TokenOf(ch)])
  {
    var c := Counted(p);
    assert Exec(c, ch) == FieldStartPass(c, ch);
    StartStep(TokenOf(ch));
  }

  lemma NextNameByte(p: Parser, q: Parser, log: Log, low: string, ch: char)
    requires NameRead(p, q, low) && low != [] && IsToken(ch) && q.nread < MAX_HEADER_SIZE
    ensures var r := ByteStep(q, log, ch);
            r.Done? && r.log == Emit(log, FieldPiece, [ch]) && NameRead(p, r.p, low + [TokenOf(ch)])
  {
    hide Resolves, NameByte;
    var c := Counted(q);
    assert Exec(c, ch) == FieldPass(c, ch);
    NameStep(Name(q.hs, q.index, q.usesTe), low, TokenOf(ch));
    Extend(low, TokenOf(ch), TRANSFER_ENCODING);
  }

  /** The whole name is one piece of the callback stream, and the matcher's final state says which of the
      names it is, if any, whatever the case of its letters. The chunked-encoding mark is set already by a
      name that only starts with "transfer-encoding". */
  lemma {:induction false} NameRecognised(p: Parser, log: Log, name: string) returns (q: Parser)
    requires p.st == Header(FieldStart) && name != [] && Tokens(name) && p.nread + |name| <= MAX_HEADER_SIZE
    ensures RunBytes(p, log, name) == All(q, Emit(log, FieldPiece, name)) && NameRead(p, q, Folded(name))
    decreases |name|
  {
    hide ByteStep, RunBytes, Emit, Resolves;
    var n := |name| - 1;
    var init, ch := name[..n], name[n];
    assert name == init + [ch];
    assert Folded(name) == Folded(init) + [TokenOf(ch)];
    RunConcat(p, log, init, [ch]);
    if init == [] {
      RunNothing(p, log);
      FirstNameByte(p, log, ch);
      assert Folded(name) == [TokenOf(ch)];
      RunOne(p, log, ch);
      q := ByteStep(p, log, ch).p;
    } else {
      var r := NameRecognised(p, log, init);
      NextNameByte(p, r, Emit(log, FieldPiece, init), Folded(init), ch);
      RunOne(r, Emit(log, FieldPiece, init), ch);
      EmitEmit(log, FieldPiece, init, [ch]);
      q := ByteStep(r, Emit(log, FieldPiece, init), ch).p;
    }
  }

  /** What the states mean once the name is complete. */
  lemma ResolvedNames(hs: Hs, index: nat, low: string)
    requires Resolves(hs, index, low) && low != []
    ensures hs == ContentLength <==> low == CONTENT_LENGTH
    ensures hs == TransferEncoding <==> low == TRANSFER_ENCODING
    ensures hs == Upgrade <==> low == UPGRADE
    ensures hs == Connection <==> low == CONNECTION || low == PROXY_CONNECTION
  {
    Apart(low);
  }
}
