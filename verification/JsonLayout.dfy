/** Texts that the writer never prints: blanks and comments between tokens, any spelling of a string, numbers with
    fraction and exponent, members in any order and names that are repeated. A layout says how a text is put
    together and what it means; the reader finds that meaning. */
module JsonLayout {
  import opened Arithmetic
  import opened Sequences
  import opened Wrappers
  import opened JsonText
  import opened JsonParse
  import opened JsonRoundTrip

  // ---------- Members as a map ----------

  function Lookup(ms: seq<Member>, name: string): Option<Value> {
    if ms == [] then None else if ms[0].name == name then Some(ms[0].value) else Lookup(ms[1..], name)
  }

  lemma {:induction false} LessTotal(a: string, b: string)
    ensures a == b || Less(a, b) || Less(b, a)
    decreases |a|
  {
    if a != [] && b != [] && a[0] == b[0] {
      LessTotal(a[1..], b[1..]);
      assert a == [a[0]] + a[1..] && b == [b[0]] + b[1..];
    }
  }

  lemma {:induction false} LessTrans(a: string, b: string, c: string)
    requires Less(a, b) && Less(b, c)
    ensures Less(a, c)
    decreases |a|
  {
    if a != [] && a[0] == b[0] && b[0] == c[0] { LessTrans(a[1..], b[1..], c[1..]); }
  }

  lemma {:induction false} PutNames(ms: seq<Member>, name: string, v: Value, i: nat)
    requires i < |Put(ms, name, v)|
    ensures var n := Put(ms, name, v)[i].name; n == name || exists j :: 0 <= j < |ms| && ms[j].name == n
    decreases |ms|
  {
    if ms != [] {
      var p := Put(ms, name, v);
      if ms[0].name != name && !Less(name, ms[0].name) {
        if i > 0 {
          PutNames(ms[1..], name, v, i - 1);
          assert forall j | 0 <= j < |ms[1..]| :: ms[1..][j] == ms[j + 1];
        } else {
          assert p[0] == ms[0];
        }
      } else if i > 0 {
        assert p[i] == if ms[0].name == name then ms[i] else ms[i - 1];
      }
    }
  }

  /** Storing a member in the sorted members of an object: they stay sorted, the name has the new value, and every
      other name has what it had. */
  lemma {:induction false} PutExact(ms: seq<Member>, name: string, v: Value)
    requires Sorted(ms)
    ensures Sorted(Put(ms, name, v))
    ensures forall x :: Lookup(Put(ms, name, v), x) == if x == name then Some(v) else Lookup(ms, x)
    decreases |ms|
  {
    if ms != [] {
      var p, m := Put(ms, name, v), Member(name, v);
      if ms[0].name == name {
        assert p[1..] == ms[1..];
      } else if Less(name, ms[0].name) {
        assert p[1..] == ms;
        forall j | 0 < j < |p| ensures Less(name, p[j].name) {
          assert p[j] == ms[j - 1];
          if j > 1 { LessTrans(name, ms[0].name, ms[j - 1].name); }
        }
      } else {
        assert forall i | 0 <= i < |ms[1..]| :: ms[1..][i] == ms[i + 1];
        PutExact(ms[1..], name, v);
        var q := Put(ms[1..], name, v);
        assert p == [ms[0]] + q && p[1..] == q;
        LessTotal(ms[0].name, name);
        forall j | 0 < j < |p| ensures Less(ms[0].name, p[j].name) {
          assert p[j] == q[j - 1];
          PutNames(ms[1..], name, v, j - 1);
        }
        assert forall i | 0 < i < |p| :: p[i] == q[i - 1];
      }
    }
  }

  /** Sorted members are determined by what is looked up in them. */
  lemma {:induction false} SameLookups(a: seq<Member>, b: seq<Member>)
    requires Sorted(a) && Sorted(b) && forall x :: Lookup(a, x) == Lookup(b, x)
    ensures a == b
    decreases |a|
  {
    if a == [] || b == [] {
      var x := if a != [] then a[0].name else if b != [] then b[0].name else [];
      assert Lookup(a, x) == Lookup(b, x);
    } else {
      SmallestFirst(a, b[0].name);
      SmallestFirst(b, a[0].name);
      assert Lookup(a, a[0].name) == Lookup(b, a[0].name) && Lookup(a, b[0].name) == Lookup(b, b[0].name);
      if a[0].name != b[0].name { LessIsStrict(a[0].name, b[0].name); }
      forall x ensures Lookup(a[1..], x) == Lookup(b[1..], x) {
        assert Lookup(a, x) == Lookup(b, x);
        NotBehind(a);
        NotBehind(b);
      }
      assert forall i | 0 <= i < |a[1..]| :: a[1..][i] == a[i + 1];
      assert forall i | 0 <= i < |b[1..]| :: b[1..][i] == b[i + 1];
      SameLookups(a[1..], b[1..]);
      assert a == [a[0]] + a[1..] && b == [b[0]] + b[1..];
    }
  }

  lemma {:induction false} FoundAt(ms: seq<Member>, x: string) returns (i: nat)
    requires Lookup(ms, x).Some?
    ensures i < |ms| && ms[i].name == x
    decreases |ms|
  {
    if ms[0].name == x {
      i := 0;
    } else {
      i := FoundAt(ms[1..], x);
      i := i + 1;
    }
  }

  lemma SmallestFirst(ms: seq<Member>, x: string)
    requires ms != [] && Sorted(ms)
    ensures Lookup(ms, x).Some? ==> x == ms[0].name || Less(ms[0].name, x)
  {
    if Lookup(ms, x).Some? { var i := FoundAt(ms, x); }
  }

  lemma NotBehind(ms: seq<Member>)
    requires ms != [] && Sorted(ms)
    ensures Lookup(ms[1..], ms[0].name).None?
  {
    if Lookup(ms[1..], ms[0].name).Some? {
      var i := FoundAt(ms[1..], ms[0].name);
      LessIsStrict(ms[0].name, ms[i + 1].name);
    }
  }

  // ---------- Strings ----------

  /** A hexadecimal digit in either case. */
  datatype Nibble = Nibble(v: nat, upper: bool)
  datatype Quad = Quad(a: Nibble, b: Nibble, c: Nibble, d: Nibble)

  predicate QuadOk(q: Quad) { q.a.v < 16 && q.b.v < 16 && q.c.v < 16 && q.d.v < 16 }

  function NibbleChar(n: Nibble): char
    requires n.v < 16
  {
    if n.upper then "0123456789ABCDEF"[n.v] else "0123456789abcdef"[n.v]
  }

  function QuadText(q: Quad): string
    requires QuadOk(q)
  {
    [NibbleChar(q.a), NibbleChar(q.b), NibbleChar(q.c), NibbleChar(q.d)]
  }

  function QuadValue(q: Quad): nat
    requires QuadOk(q)
  {
    q.a.v * 4096 + q.b.v * 256 + q.c.v * 16 + q.d.v
  }

  lemma NibbleRead(n: Nibble)
    requires n.v < 16
    ensures Unhex(NibbleChar(n)) == n.v && Plain(NibbleChar(n))
  {
  }

  lemma QuadRead(q: Quad, rest: string)
    requires QuadOk(q)
    ensures FourHex(QuadText(q) + rest) == Some(QuadValue(q)) && QuadValue(q) < 0x1_0000
    ensures forall i | 0 <= i < 4 :: Plain(QuadText(q)[i])
  {
    NibbleRead(q.a); NibbleRead(q.b); NibbleRead(q.c); NibbleRead(q.d);
    hide NibbleChar, Unhex, Plain;
    var s := QuadText(q) + rest;
    assert s[0] == NibbleChar(q.a) && s[1] == NibbleChar(q.b) && s[2] == NibbleChar(q.c) && s[3] == NibbleChar(q.d);
  }

  /** How one byte or character of a string is spelled: as itself, as an escape of one letter, as four hexadecimal
      digits, or as a surrogate pair, of which only the first half is checked. */
  datatype Spelling = Raw(c: char) | Short(letter: char) | Unicode(q: Quad) | Pair(hi: Quad, lo: Quad)

  /** The escapes of one letter. */
  function LetterByte(letter: char): Option<char> {
    if letter == '\"' || letter == '\\' || letter == '/' then Some(letter)
    else if letter == 'b' then Some(8 as char)
    else if letter == 't' then Some(9 as char)
    else if letter == 'n' then Some(10 as char)
    else if letter == 'f' then Some(12 as char)
    else if letter == 'r' then Some(13 as char)
    else None
  }

  predicate SpellingOk(u: Spelling) {
    match u
    case Raw(c) => Plain(c)
    case Short(letter) => LetterByte(letter).Some?
    case Unicode(q) => QuadOk(q) && !(0xD800 <= QuadValue(q) <= 0xDBFF)
    case Pair(hi, lo) => QuadOk(hi) && QuadOk(lo) && 0xD800 <= QuadValue(hi) <= 0xDBFF
  }

  function SpellingText(u: Spelling): string
    requires SpellingOk(u)
  {
    match u
    case Raw(c) => [c]
    case Short(letter) => ['\\', letter]
    case Unicode(q) => "\\u" + QuadText(q)
    case Pair(hi, lo) => "\\u" + QuadText(hi) + "\\u" + QuadText(lo)
  }

  function SpellingBytes(u: Spelling): string
    requires SpellingOk(u)
  {
    match u
    case Raw(c) => [c]
    case Short(letter) => [LetterByte(letter).value]
    case Unicode(q) => assert QuadValue(q) < 0x1_0000; EncodeUtf8(QuadValue(q))
    case Pair(hi, lo) => EncodeUtf8(0x10000 + (QuadValue(hi) - 0xD800) * 1024 + QuadValue(lo) % 1024)
  }

  predicate SpelledOk(us: seq<Spelling>) { forall i | 0 <= i < |us| :: SpellingOk(us[i]) }

  function SpelledText(us: seq<Spelling>): string
    requires SpelledOk(us)
  {
    if us == [] then [] else SpellingText(us[0]) + SpelledText(us[1..])
  }

  function SpelledBytes(us: seq<Spelling>): string
    requires SpelledOk(us)
  {
    if us == [] then [] else SpellingBytes(us[0]) + SpelledBytes(us[1..])
  }

  function Literal(us: seq<Spelling>): string
    requires SpelledOk(us)
  {
    "\"" + SpelledText(us) + "\""
  }

  lemma QuadSpan(q: Quad, rest: string)
    requires QuadOk(q)
    ensures StringSpan("\\u" + QuadText(q) + rest) == Shift(StringSpan(rest), 6)
  {
    hide StringSpan, QuadText, Plain;
    QuadRead(q, rest);
    FourLong(q);
    assert "\\u" + QuadText(q) + rest == ['\\', 'u'] + (QuadText(q) + rest);
    PairSpan('u', QuadText(q) + rest);
    PlainSpan(QuadText(q), rest);
  }

  lemma FourLong(q: Quad)
    requires QuadOk(q)
    ensures |QuadText(q)| == 4
  {
  }

  lemma PairBytes(hi: Quad, lo: Quad)
    requires SpellingOk(Pair(hi, lo))
    ensures 0x10000 + QuadValue(hi) % 1024 * 1024 + QuadValue(lo) % 1024 ==
            0x10000 + (QuadValue(hi) - 0xD800) * 1024 + QuadValue(lo) % 1024
  {
    var a := QuadValue(hi) - 0xD800;
    assert QuadValue(hi) == 54 * 1024 + a;
    ModUnique(QuadValue(hi), 54, a, 1024);
  }

  /** A pair whose second half is a low surrogate means what section 7 of RFC 8259 says. */
  lemma SurrogatePair(hi: Quad, lo: Quad)
    requires SpellingOk(Pair(hi, lo)) && 0xDC00 <= QuadValue(lo) <= 0xDFFF
    ensures SpellingBytes(Pair(hi, lo)) == EncodeUtf8(0x10000 + (QuadValue(hi) - 0xD800) * 1024 + (QuadValue(lo) - 0xDC00))
  {
    var b := QuadValue(lo) - 0xDC00;
    assert QuadValue(lo) == 55 * 1024 + b;
    ModUnique(QuadValue(lo), 55, b, 1024);
    hide EncodeUtf8;
  }

  /** An escape of four digits, or two of them, is read back. */
  lemma UnicodeRead(u: Spelling, rest: string)
    requires SpellingOk(u) && (u.Unicode? || u.Pair?)
    ensures Unescape(SpellingText(u) + rest) == Prefixed(SpellingBytes(u), Unescape(rest))
    ensures StringSpan(SpellingText(u) + rest) == Shift(StringSpan(rest), |SpellingText(u)|)
  {
    hide FourHex, QuadText, UnicodeAt, EncodeUtf8, StringSpan, QuadValue;
    match u
    case Unicode(q) =>
      QuadRead(q, rest);
      FourLong(q);
      SingleRead(QuadText(q) + rest, QuadValue(q));
      QuadSpan(q, rest);
      EscapeStep(SpellingText(u) + rest, QuadText(q) + rest, Scalar(QuadValue(q), 4), rest);
    case Pair(hi, lo) =>
      var tail := "\\u" + QuadText(lo) + rest;
      FourLong(hi); FourLong(lo);
      QuadRead(hi, tail);
      QuadRead(lo, rest);
      var s := QuadText(hi) + tail;
      assert s[6..] == QuadText(lo) + rest;
      JsonRoundTrip.PairRead(s, QuadValue(hi), QuadValue(lo));
      PairBytes(hi, lo);
      assert SpellingText(u) + rest == "\\u" + QuadText(hi) + tail;
      QuadSpan(lo, rest);
      QuadSpan(hi, tail);
      EscapeStep(SpellingText(u) + rest, s, Scalar(0x10000 + QuadValue(hi) % 1024 * 1024 + QuadValue(lo) % 1024, 10), rest);
  }

  lemma EscapeStep(s: string, at: string, c: Scalar, rest: string)
    requires s == "\\u" + at && UnicodeAt(at) == Some(c) && c.used <= |at| && at[c.used..] == rest && c.cp <= 0x10FFFF
    ensures Unescape(s) == Prefixed(EncodeUtf8(c.cp), Unescape(rest))
  {
    hide UnicodeAt, EncodeUtf8;
    assert s[2..] == at && s[2 + c.used..] == rest;
  }

  lemma SpellingRead(u: Spelling, rest: string)
    requires SpellingOk(u)
    ensures Unescape(SpellingText(u) + rest) == Prefixed(SpellingBytes(u), Unescape(rest))
    ensures StringSpan(SpellingText(u) + rest) == Shift(StringSpan(rest), |SpellingText(u)|)
  {
    hide StringSpan, Unescape, EncodeUtf8, QuadText, QuadValue, LetterByte;
    match u
    case Raw(c) =>
      PlainSpan([c], rest);
      PlainRead(c, rest);
    case Short(letter) =>
      PairSpan(letter, rest);
      LetterRead(letter, rest);
    case _ => UnicodeRead(u, rest);
  }

  lemma LetterRead(letter: char, rest: string)
    requires LetterByte(letter).Some?
    ensures Unescape(['\\', letter] + rest) == Prefixed([LetterByte(letter).value], Unescape(rest))
  {
    assert (['\\', letter] + rest)[2..] == rest;
    assert Escaped(letter) == LetterByte(letter);
  }

  lemma {:induction false} SpelledRead(us: seq<Spelling>, rest: string)
    requires SpelledOk(us)
    ensures Unescape(SpelledText(us) + rest) == Prefixed(SpelledBytes(us), Unescape(rest))
    ensures StringSpan(SpelledText(us) + rest) == Shift(StringSpan(rest), |SpelledText(us)|)
    decreases |us|
  {
    hide StringSpan, Unescape, SpellingOk, SpellingText, SpellingBytes;
    if us == [] {
      assert SpelledText(us) + rest == rest;
      if Unescape(rest).Some? { assert [] + Unescape(rest).value == Unescape(rest).value; }
    } else {
      var more := SpelledText(us[1..]);
      SpellingRead(us[0], more + rest);
      SpelledRead(us[1..], rest);
      Regroup(SpellingText(us[0]), more, rest);
      var r := Unescape(rest);
      if r.Some? { Regroup(SpellingBytes(us[0]), SpelledBytes(us[1..]), r.value); }
    }
  }

  /** A string, however it is spelled: the token ends at its closing quote and its value is what is spelled. */
  lemma LiteralRead(us: seq<Spelling>, rest: string)
    requires SpelledOk(us)
    ensures ReadToken(Literal(us) + rest) == Token(String, Literal(us), rest) == NextToken(Literal(us) + rest)
    ensures StringValue(Literal(us)) == Some(SpelledBytes(us))
  {
    hide StringSpan, Unescape, SpelledText, SpelledBytes, Lex;
    var b, q := SpelledText(us), Literal(us);
    LiteralLexed(us, rest);
    TokenIs(String, q, rest);
    assert q[1..|q| - 1] == b == b + [];
    SpelledRead(us, []);
    NothingLeft();
    assert SpelledBytes(us) + [] == SpelledBytes(us);
  }

  lemma LiteralLexed(us: seq<Spelling>, rest: string)
    requires SpelledOk(us)
    ensures Lex(Literal(us) + rest) == Lexeme(String, |Literal(us)|)
  {
    hide StringSpan, Unescape, SpelledText;
    SpelledRead(us, "\"" + rest);
    ClosingQuote(rest);
    assert (Literal(us) + rest)[1..] == SpelledText(us) + ("\"" + rest);
  }

  // ---------- Blanks and comments ----------

  predicate Blanks(s: string) { forall i | 0 <= i < |s| :: Blank(s[i]) }

  /** Blanks, a comment between its marks, or a comment up to the end of the line. A single quote opens a comment as a
      slash does. */
  datatype Space = White(s: string) | Block(open: char, body: string) | Line(open: char, body: string, end: string)

  predicate Opens(c: char) { c == '/' || c == '\'' }

  predicate LineFeed(e: string) { e == "\n" || e == "\r\n" || e == "\r" }

  predicate SpaceOk(p: Space) {
    match p
    case White(s) => Blanks(s)
    case Block(open, body) => Opens(open) && forall i | 0 <= i < |body| - 1 :: !(body[i] == '*' && body[i + 1] == '/')
    case Line(open, body, end) => Opens(open) && LineFeed(end) && forall i | 0 <= i < |body| :: body[i] != '\n' && body[i] != '\r'
  }

  function SpaceText(p: Space): string {
    match p
    case White(s) => s
    case Block(open, body) => [open] + ("*" + (body + "*/"))
    case Line(open, body, end) => [open] + ("/" + (body + end))
  }

  type Gap = seq<Space>

  predicate GapOk(g: Gap) { forall i | 0 <= i < |g| :: SpaceOk(g[i]) }

  function GapText(g: Gap): string { if g == [] then [] else SpaceText(g[0]) + GapText(g[1..]) }

  lemma {:induction false} BlanksSkipped(ws: string, s: string)
    requires Blanks(ws)
    ensures SkipBlanks(ws + s) == SkipBlanks(s) && ReadToken(ws + s) == ReadToken(s) && NextToken(ws + s) == NextToken(s)
    decreases |ws|
  {
    hide Lex;
    if ws == [] {
      assert ws + s == s;
    } else {
      assert (ws + s)[1..] == ws[1..] + s;
      BlanksSkipped(ws[1..], s);
      assert SkipBlanks(ws + s) == SkipBlanks(ws[1..] + s);
      hide SkipBlanks;
      assert ReadToken(ws + s) == ReadToken(ws[1..] + s);
    }
  }

  lemma BlanksBefore(ws: string, s: string)
    requires Blanks(ws)
    ensures ReadToken(ws + s) == ReadToken(s) && NextToken(ws + s) == NextToken(s)
  {
    hide ReadToken, NextToken, SkipBlanks;
    BlanksSkipped(ws, s);
  }

  lemma {:induction false} BlockEnds(body: string, s: string)
    requires forall i | 0 <= i < |body| - 1 :: !(body[i] == '*' && body[i + 1] == '/')
    ensures BlockSpan(body + ("*/" + s)) == Scan(true, |body| + 2)
    decreases |body|
  {
    var t := body + ("*/" + s);
    if body == [] {
      assert t == "*/" + s;
    } else {
      assert t[1..] == body[1..] + ("*/" + s);
      assert t[1] == if |body| > 1 then body[1] else '*';
      BlockEnds(body[1..], s);
    }
  }

  /** A carriage return takes the line feed behind it. */
  function Further(end: string, s: string): nat { if end == "\r" && s != [] && s[0] == '\n' then 1 else 0 }

  lemma {:induction false} LineEnds(body: string, end: string, s: string)
    requires LineFeed(end) && forall i | 0 <= i < |body| :: body[i] != '\n' && body[i] != '\r'
    ensures LineSpan(body + (end + s)) == |body| + |end| + Further(end, s)
    decreases |body|
  {
    var t := body + (end + s);
    if body == [] {
      assert t == end + s;
      assert end == "\r" && s != [] ==> t[1] == s[0];
    } else {
      assert t[1..] == body[1..] + (end + s);
      LineEnds(body[1..], end, s);
    }
  }

  lemma CommentLexed(p: Space, s: string)
    requires SpaceOk(p) && !p.White?
    ensures var c := SpaceText(p);
            && Lex(c + s) == Lexeme(Comment, |c| + if p.Line? then Further(p.end, s) else 0) && c != [] && Opens(c[0])
  {
    hide BlockSpan, LineSpan, SpaceOk;
    SpaceParts(p);
    var c := SpaceText(p);
    if p.Block? {
      BlockEnds(p.body, s);
      CommentStart(p.open, '*', p.body + ("*/" + s));
      Nested3([p.open], "*", p.body, "*/", s);
    } else {
      LineEnds(p.body, p.end, s);
      CommentStart(p.open, '/', p.body + (p.end + s));
      Nested3([p.open], "/", p.body, p.end, s);
    }
  }

  lemma CommentStart(open: char, second: char, t: string)
    requires Opens(open) && (second == '*' || second == '/')
    ensures var l := Lex([open] + ([second] + t));
            if second == '*' then l == Lexeme(if BlockSpan(t).ok then Comment else Error, 2 + BlockSpan(t).used)
            else l == Lexeme(Comment, 2 + LineSpan(t))
  {
    hide BlockSpan, LineSpan;
    var s := [open] + ([second] + t);
    assert s[1..] == [second] + t && ([second] + t)[1..] == t;
  }

  lemma Nested3(a: string, b: string, c: string, d: string, rest: string)
    ensures (a + (b + (c + d))) + rest == a + (b + (c + (d + rest)))
  {
    Regroup(a, b + (c + d), rest);
    Regroup(b, c + d, rest);
    Regroup(c, d, rest);
  }

  lemma SpaceParts(p: Space)
    requires SpaceOk(p) && !p.White?
    ensures Opens(p.open) && (p.Line? ==> LineFeed(p.end) && forall i | 0 <= i < |p.body| :: p.body[i] != '\n' && p.body[i] != '\r')
    ensures p.Block? ==> forall i | 0 <= i < |p.body| - 1 :: !(p.body[i] == '*' && p.body[i + 1] == '/')
  {
  }

  lemma CommentPassed(p: Space, s: string)
    requires SpaceOk(p) && !p.White?
    ensures NextToken(SpaceText(p) + s) == NextToken(s)
  {
    hide Lex, SpaceText, NextToken, ReadToken, SkipBlanks;
    var n := if p.Line? then Further(p.end, s) else 0;
    CommentLexed(p, s);
    CommentTaken(SpaceText(p), n, s);
    if n > 0 {
      assert s == ['\n'] + s[1..];
      BlanksBefore(['\n'], s[1..]);
    }
  }

  lemma CommentTaken(c: string, n: nat, s: string)
    requires c != [] && Opens(c[0]) && n <= |s| && Lex(c + s) == Lexeme(Comment, |c| + n)
    ensures NextToken(c + s) == NextToken(s[n..])
  {
    hide Lex;
    NothingSkipped(c + s);
    assert (c + s)[|c| + n..] == s[n..];
    hide SkipBlanks;
    assert ReadToken(c + s) == Token(Comment, (c + s)[..|c| + n], s[n..]);
    hide ReadToken;
  }

  /** Blanks and comments before a token do not matter. */
  lemma {:induction false} GapPassed(g: Gap, s: string)
    requires GapOk(g)
    ensures NextToken(GapText(g) + s) == NextToken(s)
    decreases |g|
  {
    hide NextToken;
    if g == [] {
      assert GapText(g) + s == s;
    } else {
      var tail := GapText(g[1..]) + s;
      Regroup(SpaceText(g[0]), GapText(g[1..]), s);
      assert SpaceOk(g[0]);
      if g[0].White? { BlanksBefore(g[0].s, tail); } else { CommentPassed(g[0], tail); }
      GapPassed(g[1..], s);
    }
  }

  // ---------- Numbers ----------

  datatype Exponent = Exponent(letter: char, sign: string, ds: string)

  /** Digits, a fraction and an exponent; an integer has neither of the last two. Behind a minus sign there may be no
      digits at all. */
  datatype Number = Num(negative: bool, ds: string, fraction: Option<string>, exponent: Option<Exponent>)

  predicate NumberOk(n: Number) {
    && (n.ds == [] ==> n.negative) && Digits(n.ds)
    && (n.fraction.Some? ==> Digits(n.fraction.value))
    && (n.exponent.Some? ==>
          && (n.exponent.value.letter == 'e' || n.exponent.value.letter == 'E')
          && (n.exponent.value.sign == "" || n.exponent.value.sign == "+" || n.exponent.value.sign == "-")
          && Digits(n.exponent.value.ds))
  }

  function FractionText(n: Number): string { if n.fraction.Some? then "." + n.fraction.value else "" }

  function ExponentText(n: Number): string {
    if n.exponent.Some? then [n.exponent.value.letter] + n.exponent.value.sign + n.exponent.value.ds else ""
  }

  function NumberText(n: Number): string {
    (if n.negative then "-" else "") + (n.ds + FractionText(n) + ExponentText(n))
  }

  /** An integer that fits 64 bits is one; every other number is kept as its text. */
  function NumberMeaning(n: Number): Value
    requires NumberOk(n)
  {
    var i := Numeral(n.ds);
    if n.fraction.Some? || n.exponent.Some? then Real(NumberText(n))
    else if n.negative then if i <= TWO_63 then Int(-(i as int)) else Real(NumberText(n))
    else if i <= MAX_INT then Int(i)
    else if i <= MAX_UINT64 then UInt(i)
    else Real(NumberText(n))
  }

  lemma {:induction false} SpanStops(ds: string, s: string)
    requires Digits(ds) && (s == [] || !IsDigit(s[0]))
    ensures Span(ds + s) == |ds|
    decreases |ds|
  {
    if ds == [] {
      assert ds + s == s;
    } else {
      assert (ds + s)[1..] == ds[1..] + s;
      SpanStops(ds[1..], s);
    }
  }

  lemma ExponentStops(n: Number, rest: string)
    requires NumberOk(n) && Ends(rest)
    ensures ExponentSpan(ExponentText(n) + rest) == |ExponentText(n)|
    ensures var t := ExponentText(n) + rest; t == [] || (!IsDigit(t[0]) && t[0] != '.')
  {
    hide Span, ExponentSpan;
    if n.exponent.Some? {
      var e := n.exponent.value;
      ExponentRead(e.letter, e.sign, e.ds, rest);
      assert ExponentText(n) + rest == [e.letter] + (e.sign + (e.ds + rest));
    } else {
      assert ExponentText(n) + rest == rest;
      NoExponent(rest);
    }
  }

  lemma NoExponent(rest: string)
    requires Ends(rest)
    ensures ExponentSpan(rest) == 0 && (rest == [] || (!IsDigit(rest[0]) && rest[0] != '.'))
  {
  }

  lemma ExponentRead(letter: char, sign: string, ds: string, rest: string)
    requires (letter == 'e' || letter == 'E') && (sign == "" || sign == "+" || sign == "-") && Digits(ds) && Ends(rest)
    ensures ExponentSpan([letter] + (sign + (ds + rest))) == 1 + |sign| + |ds|
  {
    var x := ds + rest;
    var t := [letter] + (sign + x);
    DigitsStop(ds, rest);
    assert t[1..] == sign + x;
    hide Span, Ends, Digits;
    if sign == "" {
      assert t[1..] == x;
    } else {
      assert t[2..] == x && t[1] == sign[0];
    }
  }

  lemma DigitsStop(ds: string, rest: string)
    requires Digits(ds) && Ends(rest)
    ensures Span(ds + rest) == |ds| && !Signed(ds + rest)
  {
    SpanStops(ds, rest);
    var x := ds + rest;
    assert x == [] || x[0] == if ds == [] then rest[0] else ds[0];
  }

  lemma FractionStops(n: Number, rest: string)
    requires NumberOk(n) && Ends(rest)
    ensures var t := FractionText(n) + (ExponentText(n) + rest);
            && FractionSpan(t) == |FractionText(n)| && t[|FractionText(n)|..] == ExponentText(n) + rest
            && (t == [] || !IsDigit(t[0]))
  {
    hide Span, ExponentText, ExponentSpan;
    ExponentStops(n, rest);
    var x := ExponentText(n) + rest;
    var t := FractionText(n) + x;
    if n.fraction.Some? {
      SpanStops(n.fraction.value, x);
      assert t[1..] == n.fraction.value + x;
    } else {
      assert t == x;
    }
  }

  lemma NumberStops(ds: string, n: Number, rest: string)
    requires NumberOk(n) && Digits(ds) && Ends(rest)
    ensures NumberSpan(ds + FractionText(n) + ExponentText(n) + rest) == |ds + FractionText(n) + ExponentText(n)|
  {
    hide Span, FractionSpan, ExponentSpan, FractionText, ExponentText;
    FractionStops(n, rest);
    ExponentStops(n, rest);
    var f, e := FractionText(n), ExponentText(n);
    var t := f + (e + rest);
    assert ds + f + e + rest == ds + t;
    SpanStops(ds, t);
    assert (ds + t)[|ds|..] == t && (ds + t)[|ds| + |f|..] == t[|f|..];
  }

  lemma NumberRead(n: Number, rest: string)
    requires NumberOk(n) && Ends(rest)
    ensures NumberText(n) != [] && NextToken(NumberText(n) + rest) == Token(Number, NumberText(n), rest)
    ensures NumberValue(NumberText(n)) == NumberMeaning(n)
  {
    hide NumberSpan, FractionText, ExponentText, Numeral, NextToken;
    var text, f, e := NumberText(n), FractionText(n), ExponentText(n);
    var ds := if n.negative then n.ds else n.ds[1..];
    NumberStops(ds, n, rest);
    assert text[1..] == ds + f + e;
    NumberParts(n);
    NumberLexed(text, rest);
    hide Lex, NumberText;
    TokenIs(Number, text, rest);
  }

  lemma NumberLexed(text: string, rest: string)
    requires text != [] && (text[0] == '-' || IsDigit(text[0])) && (|text| > 1 ==> text[1] != 'I')
    requires Ends(rest) && NumberSpan(text[1..] + rest) == |text| - 1
    ensures Lex(text + rest) == Lexeme(Number, |text|)
  {
    hide NumberSpan;
    var t := text[1..] + rest;
    var s := text + rest;
    assert s[1..] == t && s[0] == text[0];
    assert t == [] || t[0] == if |text| > 1 then text[1] else rest[0];
    assert t == [] || t[0] != 'I';
    if s[0] == '-' {
      assert Lex(s) == Lexeme(Number, 1 + NumberSpan(t));
    } else {
      assert Lex(s) == Lexeme(Number, 1 + NumberSpan(t));
    }
  }

  lemma NumberParts(n: Number)
    requires NumberOk(n)
    ensures var text := NumberText(n);
            && text != [] && (text[0] == '-' <==> n.negative) && (text[0] == '-' || IsDigit(text[0])) && !Blank(text[0])
            && (|text| > 1 ==> text[1] != 'I')
            && NumberValue(text) == NumberMeaning(n)
  {
    hide Numeral, FractionText, ExponentText, NumberValue, NumberMeaning;
    var more := FractionText(n) + ExponentText(n);
    FractionFirst(n);
    IntegerDigits(n.ds, more);
    var text := NumberText(n);
    assert text == (if n.negative then "-" else "") + (n.ds + more);
    NumberIs(n, more);
  }

  lemma NumberIs(n: Number, more: string)
    requires NumberOk(n) && NumberText(n) == (if n.negative then "-" else "") + (n.ds + more) && NumberText(n) != []
    requires more == [] <==> n.fraction.None? && n.exponent.None?
    requires (Digits(n.ds + more) <==> more == []) && (NumberText(n)[0] == '-' <==> n.negative)
    ensures NumberValue(NumberText(n)) == NumberMeaning(n)
  {
    hide Numeral, FractionText, ExponentText;
    var text := NumberText(n);
    assert (if n.negative then text[1..] else text) == n.ds + more;
    assert more == [] ==> n.ds + more == n.ds;
    hide NumberText;
  }

  lemma FractionFirst(n: Number)
    requires NumberOk(n)
    ensures var t := FractionText(n) + ExponentText(n);
            && (t == [] <==> n.fraction.None? && n.exponent.None?) && (t != [] ==> t[0] == '.' || t[0] == 'e' || t[0] == 'E')
            && forall x: string :: x + FractionText(n) + ExponentText(n) == x + t
  {
    var f, e := FractionText(n), ExponentText(n);
    forall x: string ensures x + f + e == x + (f + e) { Regroup(x, f, e); }
  }

  lemma IntegerDigits(ds: string, more: string)
    requires Digits(ds) && (more != [] ==> more[0] == '.' || more[0] == 'e' || more[0] == 'E')
    ensures Digits(ds + more) <==> more == []
    ensures (ds != [] ==> IsDigit((ds + more)[0])) && (more == [] ==> ds + more == ds) && (ds != [] && |ds + more| > 1 ==> (ds + more)[1] != 'I')
    ensures ds + more != [] ==> (ds + more)[0] != 'I'
  {
    if more != [] { assert (ds + more)[|ds|] == more[0]; }
  }

  // ---------- Values ----------

  /** A text, as a tree of its parts with the spaces between them. */
  datatype Tree =
    | TNull | TBool(b: bool) | TNum(n: Number) | TStr(us: seq<Spelling>)
    | TNone(white: string) | TArr(cells: seq<Cell>)
    | TEmpty(gap: Gap) | TObj(entries: seq<Entry>, close: Option<Gap>)
  datatype Cell = Cell(before: Gap, v: Tree, behind: Gap)
  /** A member: only blanks can stand before the colon. Behind its value a comment may stand for the comma; then the
      token behind the comment is passed over, whatever it is. An object may close behind a comma if the name before
      is empty. */
  datatype Entry = Entry(before: Gap, name: seq<Spelling>, mid: string, gap: Gap, v: Tree, behind: Gap, mark: string)

  predicate Commented(g: Gap) { g != [] && (!g[0].White? || Commented(g[1..])) }

  ghost predicate TreeOk(t: Tree) {
    match t
    case TNum(n) => NumberOk(n)
    case TStr(us) => SpelledOk(us)
    case TNone(white) => Blanks(white)
    case TArr(cells) => cells != [] && CellsOk(cells)
    case TEmpty(gap) => GapOk(gap)
    case TObj(entries, close) => entries != [] && EntriesOk(entries) && CloseOk(entries, close)
    case _ => true
  }

  ghost predicate CellsOk(cells: seq<Cell>) {
    cells == [] || (GapOk(cells[0].before) && TreeOk(cells[0].v) && GapOk(cells[0].behind) && CellsOk(cells[1..]))
  }

  ghost predicate EntryOk(e: Entry) {
    && GapOk(e.before) && SpelledOk(e.name) && |SpelledBytes(e.name)| < NAME_LIMIT && Blanks(e.mid) && GapOk(e.gap)
    && GapOk(e.behind) && (e.mark == "," || (Commented(e.behind) && e.mark != []))
  }

  predicate CloseOk(entries: seq<Entry>, close: Option<Gap>)
    requires entries != []
  {
    close.Some? ==> GapOk(close.value) && entries[|entries| - 1].name == []
  }

  ghost predicate EntriesOk(entries: seq<Entry>) {
    entries == [] || (EntryOk(entries[0]) && TreeOk(entries[0].v) && EntriesOk(entries[1..]))
  }

  ghost function TreeText(t: Tree): string
    requires TreeOk(t)
  {
    match t
    case TNull => "null"
    case TBool(b) => if b then "true" else "false"
    case TNum(n) => NumberText(n)
    case TStr(us) => Literal(us)
    case TNone(white) => "[" + white + "]"
    case TArr(cells) => "[" + CellsText(cells)
    case TEmpty(gap) => "{" + GapText(gap) + "}"
    case TObj(entries, close) => "{" + EntriesText(entries, close)
  }

  /** The items with the closing bracket. */
  ghost function CellsText(cells: seq<Cell>): string
    requires cells != [] && CellsOk(cells)
  {
    GapText(cells[0].before) + (TreeText(cells[0].v) + (GapText(cells[0].behind) +
      if |cells| == 1 then "]" else "," + CellsText(cells[1..])))
  }

  /** The members with the closing brace. */
  ghost function EntriesText(entries: seq<Entry>, close: Option<Gap>): string
    requires entries != [] && EntriesOk(entries)
  {
    var e := entries[0];
    GapText(e.before) + (Literal(e.name) + (e.mid + (":" + (GapText(e.gap) + (TreeText(e.v) + (GapText(e.behind) +
      if |entries| > 1 then e.mark + EntriesText(entries[1..], close)
      else if close.Some? then e.mark + (GapText(close.value) + "}")
      else "}"))))))
  }

  /** Every member but the last is followed by a comma. */
  ghost predicate Strict(t: Tree) {
    match t
    case TArr(cells) => CellsStrict(cells)
    case TObj(entries, _) => EntriesStrict(entries)
    case _ => true
  }

  ghost predicate CellsStrict(cells: seq<Cell>) { cells == [] || (Strict(cells[0].v) && CellsStrict(cells[1..])) }

  ghost predicate EntriesStrict(entries: seq<Entry>) {
    entries == [] || (entries[0].mark == "," && Strict(entries[0].v) && EntriesStrict(entries[1..]))
  }

  // ---------- What a text means ----------

  ghost function TreeValue(t: Tree): Value
    requires TreeOk(t)
  {
    match t
    case TNull => Null
    case TBool(b) => Bool(b)
    case TNum(n) => NumberMeaning(n)
    case TStr(us) => Str(SpelledBytes(us))
    case TNone(_) => Arr([])
    case TArr(cells) => Arr(CellsValues(cells))
    case TEmpty(_) => Obj([])
    case TObj(entries, _) => Obj(EntriesValue([], entries))
  }

  ghost function CellsValues(cells: seq<Cell>): seq<Value>
    requires CellsOk(cells)
  {
    if cells == [] then [] else [TreeValue(cells[0].v)] + CellsValues(cells[1..])
  }

  /** The members are stored one after the other. */
  ghost function EntriesValue(ms: seq<Member>, entries: seq<Entry>): seq<Member>
    requires EntriesOk(entries)
    decreases entries
  {
    if entries == [] then ms
    else EntriesValue(Put(ms, SpelledBytes(entries[0].name), TreeValue(entries[0].v)), entries[1..])
  }

  /** The value of the last member with a name. */
  ghost function LastNamed(entries: seq<Entry>, x: string): Option<Value>
    requires EntriesOk(entries)
  {
    if entries == [] then None
    else
      var behind := LastNamed(entries[1..], x);
      if behind.Some? then behind
      else if SpelledBytes(entries[0].name) == x then Some(TreeValue(entries[0].v))
      else None
  }

  /** An object means the map in which the last value of each name wins. */
  lemma {:induction false} LastWins(ms: seq<Member>, entries: seq<Entry>)
    requires Sorted(ms) && EntriesOk(entries)
    ensures var r := EntriesValue(ms, entries);
            && Sorted(r)
            && forall x :: Lookup(r, x) == if LastNamed(entries, x).Some? then LastNamed(entries, x) else Lookup(ms, x)
    decreases |entries|
  {
    hide TreeValue, SpelledBytes, Sorted, Put, Lookup;
    if entries != [] {
      var name, v := SpelledBytes(entries[0].name), TreeValue(entries[0].v);
      PutExact(ms, name, v);
      LastWins(Put(ms, name, v), entries[1..]);
    }
  }

  ghost function TreeDepth(t: Tree): nat {
    match t
    case TArr(cells) => 1 + CellsDepth(cells)
    case TObj(entries, _) => 1 + EntriesDepth(entries)
    case _ => 1
  }

  ghost function CellsDepth(cells: seq<Cell>): nat {
    if cells == [] then 0 else Max(TreeDepth(cells[0].v), CellsDepth(cells[1..]))
  }

  ghost function EntriesDepth(entries: seq<Entry>): nat {
    if entries == [] then 0 else Max(TreeDepth(entries[0].v), EntriesDepth(entries[1..]))
  }

  // ---------- Reading ----------

  lemma GapBeforeValue(g: Gap, s: string, size: nat)
    requires GapOk(g)
    ensures ParseValue(GapText(g) + s, size) == ParseValue(s, size)
  {
    hide NextToken, ParseArray, ParseMembers, StringValue, NumberValue, ParseValue;
    GapPassed(g, s);
    ValueByToken(GapText(g) + s, size);
    ValueByToken(s, size);
  }

  /** What may stand behind a value: spaces and then a mark. */
  lemma GapEnds(g: Gap, c: char, s: string)
    requires GapOk(g) && (c == ',' || c == ']' || c == '}')
    ensures Ends(GapText(g) + ([c] + s))
    decreases |g|
  {
    if g != [] {
      assert SpaceOk(g[0]);
      var p := SpaceText(g[0]);
      if p == [] {
        assert GapText(g) == GapText(g[1..]);
        GapEnds(g[1..], c, s);
      } else {
        assert (GapText(g) + ([c] + s))[0] == p[0];
      }
    }
  }

  /** Every text is read as what it means, and exactly its bytes are taken, if and only if it does not nest too
      deep. */
  lemma {:induction false} TreeRead(t: Tree, size: nat, rest: string)
    requires TreeOk(t) && Strict(t) && Ends(rest) && size > 0
    ensures ParseValue(TreeText(t) + rest, size) == Expected(size + TreeDepth(t) - 1 > STACK_LIMIT, TreeValue(t), rest)
    decreases t, 1
  {
    hide *;
    StrictParts(t);
    match t
    case TNone(white) => NoCells(white, size, rest);
    case TArr(cells) => ArrayRead(cells, size, rest);
    case TEmpty(gap) => NoEntries(gap, size, rest);
    case TObj(entries, close) => ObjectRead(entries, close, size, rest);
    case _ => LeafRead(t, size, rest);
  }

  lemma StrictParts(t: Tree)
    requires Strict(t)
    ensures (t.TArr? ==> CellsStrict(t.cells)) && (t.TObj? ==> EntriesStrict(t.entries))
  {
  }

  lemma LeafRead(t: Tree, size: nat, rest: string)
    requires TreeOk(t) && Ends(rest) && (t.TNull? || t.TBool? || t.TNum? || t.TStr?)
    ensures ParseValue(TreeText(t) + rest, size) == Expected(size + TreeDepth(t) - 1 > STACK_LIMIT, TreeValue(t), rest)
  {
    hide NextToken, ParseArray, ParseMembers, StringValue, NumberValue, Literal, NumberText, NumberMeaning, ParseValue, SpelledBytes, SpelledOk;
    hide CellsText, EntriesText, CellsOk, EntriesOk, GapText, GapOk, NumberOk, Ends;
    ValueByToken(TreeText(t) + rest, size);
    match t
    case TNull => WordRead("null", rest);
    case TBool(b) => WordRead(if b then "true" else "false", rest);
    case TNum(n) => NumberRead(n, rest);
    case TStr(us) => LiteralRead(us, rest);
  }

  lemma ObjectRead(entries: seq<Entry>, close: Option<Gap>, size: nat, rest: string)
    requires TreeOk(TObj(entries, close)) && EntriesStrict(entries) && size > 0
    ensures var t := TObj(entries, close);
            ParseValue(TreeText(t) + rest, size) == Expected(size + TreeDepth(t) - 1 > STACK_LIMIT, TreeValue(t), rest)
    decreases entries, 2
  {
    hide ParseMembers, ParseValue, EntriesText, EntriesOk, EntriesValue, EntriesDepth, EntriesStrict, CloseOk;
    ObjectStart(EntriesText(entries, close) + rest, size);
    assert TreeText(TObj(entries, close)) + rest == ['{'] + (EntriesText(entries, close) + rest);
    EntriesRead(entries, close, size, [], [], rest);
  }

  lemma NoCells(white: string, size: nat, rest: string)
    requires TreeOk(TNone(white))
    ensures var t := TNone(white);
            ParseValue(TreeText(t) + rest, size) == Expected(size + TreeDepth(t) - 1 > STACK_LIMIT, TreeValue(t), rest)
  {
    var inner := white + ([']'] + rest);
    assert TreeText(TNone(white)) + rest == ['['] + inner;
    hide ParseValue, ParseItems;
    ArrayStart(inner, size);
    BlanksSkipped(white, [']'] + rest);
    EmptyArray(rest);
  }

  lemma NoEntries(gap: Gap, size: nat, rest: string)
    requires TreeOk(TEmpty(gap))
    ensures var t := TEmpty(gap);
            ParseValue(TreeText(t) + rest, size) == Expected(size + TreeDepth(t) - 1 > STACK_LIMIT, TreeValue(t), rest)
  {
    hide ParseValue, ParseMembers, GapText, GapOk;
    var inner := GapText(gap) + (['}'] + rest);
    assert TreeText(TEmpty(gap)) + rest == ['{'] + inner;
    ObjectStart(inner, size);
    ClosedBehind(gap, size, [], rest);
  }

  /** No text of a value begins with a blank or a closing bracket; nor does one with spaces before it, once the
      blanks are skipped. */
  lemma FirstOfTree(t: Tree)
    requires TreeOk(t)
    ensures TreeText(t) != [] && !Blank(TreeText(t)[0]) && TreeText(t)[0] != ']'
  {
    hide CellsText, EntriesText, GapText, SpelledText;
    if t.TNum? { NumberParts(t.n); hide NumberText; }
  }

  lemma {:induction false} NotClosed(g: Gap, s: string)
    requires GapOk(g) && s != [] && !Blank(s[0]) && s[0] != ']'
    ensures var b := SkipBlanks(GapText(g) + s); b != [] && b[0] != ']'
    decreases |g|
  {
    hide SkipBlanks, SpaceText, SpaceOk;
    if g == [] {
      assert GapText(g) + s == s;
      NothingSkipped(s);
    } else {
      var tail := GapText(g[1..]) + s;
      Regroup(SpaceText(g[0]), GapText(g[1..]), s);
      if g[0].White? {
        SpaceIs(g[0]);
        BlanksSkipped(g[0].s, tail);
        NotClosed(g[1..], s);
      } else {
        CommentLexed(g[0], tail);
        assert (SpaceText(g[0]) + tail)[0] == SpaceText(g[0])[0];
        NothingSkipped(SpaceText(g[0]) + tail);
      }
    }
  }

  lemma SpaceIs(p: Space)
    requires SpaceOk(p) && p.White?
    ensures SpaceText(p) == p.s && Blanks(p.s)
  {
  }

  lemma NothingSkipped(s: string)
    requires s != [] && !Blank(s[0])
    ensures SkipBlanks(s) == s
  {
  }

  lemma ArrayRead(cells: seq<Cell>, size: nat, rest: string)
    requires TreeOk(TArr(cells)) && CellsStrict(cells) && size > 0
    ensures ParseValue(TreeText(TArr(cells)) + rest, size) ==
            Expected(size + TreeDepth(TArr(cells)) - 1 > STACK_LIMIT, TreeValue(TArr(cells)), rest)
    decreases cells, 2
  {
    hide ParseValue, ParseItems, CellsDepth, CellsValues, CellsText, CellsOk, CellsStrict, SkipBlanks;
    var inner := CellsText(cells) + rest;
    assert TreeText(TArr(cells)) + rest == ['['] + inner;
    ArrayStart(inner, size);
    CellsRead(cells, size, [], rest);
    assert [] + CellsValues(cells) == CellsValues(cells);
    NotClosedAtOnce(cells, rest);
  }

  lemma NotClosedAtOnce(cells: seq<Cell>, rest: string)
    requires cells != [] && CellsOk(cells)
    ensures var b := SkipBlanks(CellsText(cells) + rest); b != [] && b[0] != ']'
  {
    hide TreeText, TreeOk, GapText, GapOk, SkipBlanks;
    FirstOfTree(cells[0].v);
    var tail := TreeText(cells[0].v) + (GapText(cells[0].behind) + if |cells| == 1 then "]" else "," + CellsText(cells[1..]));
    Regroup(GapText(cells[0].before), tail, rest);
    NotClosed(cells[0].before, tail + rest);
  }

  /** One item with its spaces and the mark behind it. */
  lemma CellRead(c: Cell, size: nat, acc: seq<Value>, mark: char, rest: string)
    requires GapOk(c.before) && TreeOk(c.v) && GapOk(c.behind) && (mark == ',' || mark == ']')
    requires var behind := GapText(c.behind) + ([mark] + rest);
             ParseValue(TreeText(c.v) + behind, size + 1) == Expected(size + TreeDepth(c.v) > STACK_LIMIT, TreeValue(c.v), behind)
    ensures ParseItems(GapText(c.before) + (TreeText(c.v) + (GapText(c.behind) + ([mark] + rest))), size, acc) ==
            if size + TreeDepth(c.v) > STACK_LIMIT then Thrown
            else if mark == ']' then Ok(Arr(acc + [TreeValue(c.v)]), rest)
            else ParseItems(rest, size, acc + [TreeValue(c.v)])
  {
    hide NextToken, ParseValue, ParseItems, TreeText, TreeValue, TreeDepth, GapText, GapOk, TreeOk;
    var behind := GapText(c.behind) + ([mark] + rest);
    var s := GapText(c.before) + (TreeText(c.v) + behind);
    GapBeforeValue(c.before, TreeText(c.v) + behind, size + 1);
    GapPassed(c.behind, [mark] + rest);
    Mark(mark, rest);
    ItemsByStep(s, size, acc);
  }

  lemma {:induction false} CellsRead(cells: seq<Cell>, size: nat, acc: seq<Value>, rest: string)
    requires cells != [] && CellsOk(cells) && CellsStrict(cells)
    ensures ParseItems(CellsText(cells) + rest, size, acc) ==
            Expected(size + CellsDepth(cells) > STACK_LIMIT, Arr(acc + CellsValues(cells)), rest)
    decreases cells, 0
  {
    hide ParseValue, ParseItems, TreeText, TreeOk, TreeValue, TreeDepth, GapText, GapOk, Strict;
    var c, tail := cells[0], cells[1..];
    CellsSplit(cells, acc, rest);
    hide CellsText, CellsDepth, CellsValues;
    if tail == [] {
      GapEnds(c.behind, ']', rest);
      TreeRead(c.v, size + 1, GapText(c.behind) + ([']'] + rest));
      CellRead(c, size, acc, ']', rest);
    } else {
      var more := CellsText(tail) + rest;
      GapEnds(c.behind, ',', more);
      TreeRead(c.v, size + 1, GapText(c.behind) + ([','] + more));
      CellRead(c, size, acc, ',', more);
      CellsRead(tail, size, acc + [TreeValue(c.v)], rest);
    }
  }

  lemma CellsSplit(cells: seq<Cell>, acc: seq<Value>, rest: string)
    requires cells != [] && CellsOk(cells)
    ensures var c, tail := cells[0], cells[1..];
            && CellsText(cells) + rest ==
               GapText(c.before) + (TreeText(c.v) + (GapText(c.behind) +
                 if tail == [] then [']'] + rest else [','] + (CellsText(tail) + rest)))
            && CellsDepth(cells) == Max(TreeDepth(c.v), CellsDepth(tail)) && CellsDepth([]) == 0
            && acc + CellsValues(cells) == acc + [TreeValue(c.v)] + CellsValues(tail)
            && acc + [TreeValue(c.v)] + CellsValues([]) == acc + [TreeValue(c.v)]
  {
    hide TreeText, TreeOk, TreeValue, TreeDepth, GapText, GapOk;
    var c, tail := cells[0], cells[1..];
    Regroup(acc, [TreeValue(c.v)], CellsValues(tail));
    Nested3(GapText(c.before), TreeText(c.v), GapText(c.behind), if tail == [] then "]" else "," + CellsText(tail), rest);
    if tail != [] { Regroup([','], CellsText(tail), rest); }
  }

  lemma MemberByToken(s: string, size: nat, acc: seq<Member>, previous: string, text: string, key: string, colon: string, value: string)
    requires NextToken(s) == Token(String, text, colon) && |text| >= 2 && StringValue(text) == Some(key) && |key| < NAME_LIMIT
    requires ReadToken(colon) == Token(MemberSeparator, ":", value)
    ensures var p := ParseValue(value, size + 1);
            && (!p.Ok? ==> ParseMembers(s, size, acc, previous) == p)
            && (p.Ok? ==>
                  var comma := ReadToken(p.rest);
                  var end := PastComments(comma);
                  ParseMembers(s, size, acc, previous) ==
                  if comma.kind != ObjectEnd && comma.kind != Separator && comma.kind != Comment then Bad
                  else if end.kind == ObjectEnd then Ok(Obj(Put(acc, key, p.value)), end.rest)
                  else ParseMembers(end.rest, size, Put(acc, key, p.value), key))
  {
    hide NextToken, ParseValue, StringValue, ReadToken, PastComments, Put;
  }

  lemma LiteralLong(us: seq<Spelling>)
    requires SpelledOk(us)
    ensures |Literal(us)| >= 2
  {
    hide SpelledText;
  }

  lemma NoComment(t: Token)
    requires t.kind != Comment
    ensures PastComments(t) == t
  {
  }

  lemma NameRead(e: Entry, value: string)
    requires EntryOk(e)
    ensures var colon := e.mid + (":" + value);
            && NextToken(GapText(e.before) + (Literal(e.name) + colon)) == Token(String, Literal(e.name), colon)
            && ReadToken(colon) == Token(MemberSeparator, ":", value)
            && |Literal(e.name)| >= 2 && StringValue(Literal(e.name)) == Some(SpelledBytes(e.name))
  {
    hide NextToken, StringValue, Literal, ReadToken, GapText, GapOk, SpelledBytes, SpelledOk, Blanks;
    var colon := e.mid + (":" + value);
    assert ":" == [':'];
    GapPassed(e.before, Literal(e.name) + colon);
    LiteralRead(e.name, colon);
    LiteralLong(e.name);
    BlanksBefore(e.mid, [':'] + value);
    Mark(':', value);
  }

  /** The first token behind some spaces is a comment or what follows them. */
  lemma {:induction false} FirstKind(g: Gap, s: string)
    requires GapOk(g)
    ensures ReadToken(GapText(g) + s).kind == if Commented(g) then Comment else ReadToken(s).kind
    decreases |g|
  {
    hide ReadToken, SpaceText, SpaceOk;
    if g == [] {
      assert GapText(g) + s == s;
    } else {
      var tail := GapText(g[1..]) + s;
      Regroup(SpaceText(g[0]), GapText(g[1..]), s);
      if g[0].White? {
        SpaceIs(g[0]);
        BlanksBefore(g[0].s, tail);
        FirstKind(g[1..], s);
      } else {
        CommentFirst(g[0], tail);
      }
    }
  }

  lemma CommentFirst(p: Space, s: string)
    requires SpaceOk(p) && !p.White?
    ensures ReadToken(SpaceText(p) + s).kind == Comment
  {
    hide Lex, SpaceText;
    CommentLexed(p, s);
    NothingSkipped(SpaceText(p) + s);
  }

  lemma MarkBehind(e: Entry, mark: char, rest: string)
    requires EntryOk(e) && (mark == ',' || mark == '}')
    ensures var s := GapText(e.behind) + ([mark] + rest);
            && (ReadToken(s).kind == Comment || ReadToken(s).kind == MarkKind(mark))
            && PastComments(ReadToken(s)) == Token(MarkKind(mark), [mark], rest)
  {
    hide ReadToken, GapOk, SpelledBytes, SpelledOk, Blanks, Commented;
    GapPassed(e.behind, [mark] + rest);
    FirstKind(e.behind, [mark] + rest);
    Mark(mark, rest);
    hide PastComments;
  }

  /** One member with its spaces and the mark behind it. */
  lemma EntryRead(e: Entry, size: nat, acc: seq<Member>, previous: string, mark: char, rest: string)
    requires EntryOk(e) && TreeOk(e.v) && (mark == ',' || mark == '}')
    requires var behind := GapText(e.behind) + ([mark] + rest);
             ParseValue(TreeText(e.v) + behind, size + 1) == Expected(size + TreeDepth(e.v) > STACK_LIMIT, TreeValue(e.v), behind)
    ensures var name := SpelledBytes(e.name);
            var acc' := Put(acc, name, TreeValue(e.v));
            ParseMembers(GapText(e.before) + (Literal(e.name) + (e.mid + (":" + (GapText(e.gap) + (TreeText(e.v) + (GapText(e.behind) + ([mark] + rest))))))),
                         size, acc, previous) ==
            if size + TreeDepth(e.v) > STACK_LIMIT then Thrown
            else if mark == '}' then Ok(Obj(acc'), rest)
            else ParseMembers(rest, size, acc', name)
  {
    hide NextToken, ParseValue, ParseMembers, TreeText, TreeValue, TreeDepth, StringValue, Literal, Put, ReadToken, GapText, GapOk;
    hide TreeOk, SpelledBytes, SpelledOk, Blanks, PastComments, Commented;
    var behind := GapText(e.behind) + ([mark] + rest);
    var value := GapText(e.gap) + (TreeText(e.v) + behind);
    var colon := e.mid + (":" + value);
    NameRead(e, value);
    GapBeforeValue(e.gap, TreeText(e.v) + behind, size + 1);
    MarkBehind(e, mark, rest);
    MemberByToken(GapText(e.before) + (Literal(e.name) + colon), size, acc, previous, Literal(e.name), SpelledBytes(e.name), colon, value);
  }

  lemma ClosedBehind(g: Gap, size: nat, acc: seq<Member>, rest: string)
    requires GapOk(g)
    ensures ParseMembers(GapText(g) + (['}'] + rest), size, acc, []) == Ok(Obj(acc), rest)
  {
    hide NextToken, GapText, ParseValue, StringValue, ReadToken, PastComments;
    GapPassed(g, ['}'] + rest);
    Mark('}', rest);
  }

  lemma {:induction false} EntriesRead(entries: seq<Entry>, close: Option<Gap>, size: nat, acc: seq<Member>, previous: string, rest: string)
    requires entries != [] && EntriesOk(entries) && CloseOk(entries, close) && EntriesStrict(entries)
    ensures ParseMembers(EntriesText(entries, close) + rest, size, acc, previous) ==
            Expected(size + EntriesDepth(entries) > STACK_LIMIT, Obj(EntriesValue(acc, entries)), rest)
    decreases entries, 0
  {
    hide ParseValue, ParseMembers, TreeText, TreeOk, TreeValue, TreeDepth, GapText, GapOk, Literal, Put, SpelledBytes, SpelledOk, Blanks, Strict, Commented;
    var e, tail := entries[0], entries[1..];
    var name := SpelledBytes(e.name);
    EntriesSplit(entries, close, rest);
    hide EntriesText;
    if tail == [] && close.None? {
      BehindEnds(e, '}', rest);
      TreeRead(e.v, size + 1, GapText(e.behind) + (['}'] + rest));
      EntryRead(e, size, acc, previous, '}', rest);
    } else {
      var more := if tail == [] then GapText(close.value) + (['}'] + rest) else EntriesText(tail, close) + rest;
      BehindEnds(e, ',', more);
      TreeRead(e.v, size + 1, GapText(e.behind) + ([','] + more));
      EntryRead(e, size, acc, previous, ',', more);
      var acc' := Put(acc, name, TreeValue(e.v));
      if tail == [] {
        NoName(e.name);
        ClosedBehind(close.value, size, acc', rest);
      } else {
        EntriesRead(tail, close, size, acc', name, rest);
      }
    }
  }

  lemma NoName(us: seq<Spelling>)
    requires us == []
    ensures SpelledOk(us) && SpelledBytes(us) == []
  {
  }

  lemma BehindEnds(e: Entry, mark: char, rest: string)
    requires EntryOk(e) && (mark == ',' || mark == '}')
    ensures Ends(GapText(e.behind) + ([mark] + rest))
  {
    GapEnds(e.behind, mark, rest);
  }

  lemma EntriesSplit(entries: seq<Entry>, close: Option<Gap>, rest: string)
    requires entries != [] && EntriesOk(entries)
    ensures var e, tail := entries[0], entries[1..];
            EntriesText(entries, close) + rest ==
            GapText(e.before) + (Literal(e.name) + (e.mid + (":" + (GapText(e.gap) + (TreeText(e.v) + (GapText(e.behind) +
              if tail != [] then e.mark + (EntriesText(tail, close) + rest)
              else if close.Some? then e.mark + (GapText(close.value) + (['}'] + rest))
              else ['}'] + rest))))))
  {
    hide TreeText, TreeOk, GapText, GapOk, Literal, SpelledBytes, SpelledOk, Blanks, Commented;
    var e, tail := entries[0], entries[1..];
    var end := if tail != [] then e.mark + EntriesText(tail, close) else if close.Some? then e.mark + (GapText(close.value) + "}") else "}";
    Nested3(":", GapText(e.gap), TreeText(e.v), GapText(e.behind) + end, rest);
    Regroup(GapText(e.behind), end, rest);
    Nested3(GapText(e.before), Literal(e.name), e.mid, ":" + (GapText(e.gap) + (TreeText(e.v) + (GapText(e.behind) + end))), rest);
    if tail != [] {
      Regroup(e.mark, EntriesText(tail, close), rest);
    } else if close.Some? {
      Regroup(e.mark, GapText(close.value) + "}", rest);
      Regroup(GapText(close.value), "}", rest);
    }
  }

  /** A document with any spaces before it. */
  lemma DocumentRead(g: Gap, t: Tree, rest: string)
    requires GapOk(g) && TreeOk(t) && Strict(t) && Ends(rest)
    ensures JsonParse.Parse(GapText(g) + (TreeText(t) + rest)) == if TreeDepth(t) <= STACK_LIMIT then Ok(TreeValue(t), rest) else Thrown
  {
    hide ParseValue, TreeText, TreeValue, TreeDepth, GapText;
    GapBeforeValue(g, TreeText(t) + rest, 1);
    TreeRead(t, 1, rest);
  }

  /** What the members of an object mean: sorted by name, every name has its last value. */
  lemma ObjectMeans(entries: seq<Entry>, close: Option<Gap>)
    requires TreeOk(TObj(entries, close))
    ensures var v := TreeValue(TObj(entries, close));
            v.Obj? && Sorted(v.members) && forall x :: Lookup(v.members, x) == LastNamed(entries, x)
  {
    LastWins([], entries);
  }
}
