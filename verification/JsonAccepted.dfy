/** What the reader accepts: every text it makes a value of is one of the layouts, and the value is what that layout
    means. Together with the opposite direction this says which texts are refused. */
module JsonAccepted {
  import opened Arithmetic
  import opened Sequences
  import opened Wrappers
  import opened JsonText
  import opened JsonParse
  import opened JsonRoundTrip
  import opened JsonLayout

  // ---------- Strings ----------

  lemma NibbleFound(c: char) returns (n: Nibble)
    requires Unhex(c) >= 0
    ensures n.v == Unhex(c) && n.v < 16 && NibbleChar(n) == c
  {
    n := Nibble(Unhex(c), 'A' <= c <= 'F');
  }

  lemma QuadFound(s: string) returns (q: Quad)
    requires FourHex(s).Some?
    ensures QuadOk(q) && QuadText(q) == s[..4] && QuadValue(q) == FourHex(s).value
  {
    var a := NibbleFound(s[0]); var b := NibbleFound(s[1]); var c := NibbleFound(s[2]); var d := NibbleFound(s[3]);
    q := Quad(a, b, c, d);
    hide NibbleChar;
    assert s[..4] == [s[0], s[1], s[2], s[3]];
  }

  /** The escape of four digits, or the two of them, at the start of a text. */
  lemma UnicodeFound(s: string) returns (u: Spelling)
    requires UnicodeAt(s).Some?
    ensures SpellingOk(u) && SpellingText(u) == "\\u" + s[..UnicodeAt(s).value.used] && SpellingBytes(u) == EncodeUtf8(UnicodeAt(s).value.cp)
  {
    hide FourHex, QuadText, QuadValue, EncodeUtf8, QuadOk;
    var hi := QuadFound(s);
    if 0xD800 <= QuadValue(hi) <= 0xDBFF {
      var lo := QuadFound(s[6..]);
      u := Pair(hi, lo);
      PairBytes(hi, lo);
      TenBytes(s);
      assert s[6..][..4] == s[6..10];
      assert "\\u" + QuadText(hi) + "\\u" + QuadText(lo) == "\\u" + (s[..4] + "\\u" + s[6..10]);
    } else {
      u := Unicode(hi);
    }
  }

  lemma TenBytes(s: string)
    requires |s| >= 10 && s[4] == '\\' && s[5] == 'u'
    ensures s[..4] + "\\u" + s[6..10] == s[..10]
  {
  }

  lemma ShiftBack(a: Scan, n: nat, b: Scan)
    requires Shift(a, n) == b
    ensures a.ok == b.ok && a.used + n == b.used
  {
  }

  /** The first character of a string body, however it is spelled. */
  lemma SpellingFound(s: string) returns (u: Spelling, rest: string)
    requires s != [] && Unescape(s).Some? && s[0] != '\"'
    ensures SpellingOk(u) && s == SpellingText(u) + rest && SpellingText(u) != [] && SpellingBytes(u) != []
    ensures Unescape(s) == Prefixed(SpellingBytes(u), Unescape(rest)) && Unescape(rest).Some?
  {
    hide UnicodeAt, EncodeUtf8, LetterByte, Escaped, QuadText;
    if s[0] != '\\' {
      u, rest := Raw(s[0]), s[1..];
    } else if s[1] == 'u' {
      u := UnicodeFound(s[2..]);
      var n := UnicodeAt(s[2..]).value.used;
      rest := s[2 + n..];
      assert s == "\\u" + s[2..][..n] + rest;
      SomeBytes(UnicodeAt(s[2..]).value.cp);
    } else {
      u, rest := Short(s[1]), s[2..];
      LetterIs(s[1]);
      assert s == ['\\', s[1]] + rest;
    }
  }

  lemma LetterIs(letter: char)
    ensures Escaped(letter) == LetterByte(letter)
  {
  }

  lemma SomeBytes(cp: nat)
    requires cp <= 0x10FFFF
    ensures EncodeUtf8(cp) != []
  {
  }

  /** A body that decodes is spelled, and it means what it decodes to. */
  lemma {:induction false} BodyFound(s: string, more: string) returns (us: seq<Spelling>)
    requires Unescape(s).Some? && StringSpan(s + ("\"" + more)) == Scan(true, |s| + 1)
    ensures SpelledOk(us) && SpelledText(us) == s && SpelledBytes(us) == Unescape(s).value
    decreases |s|
  {
    hide StringSpan, SpellingOk, SpellingText, SpellingBytes;
    if s == [] {
      us := [];
    } else {
      NoQuote(s, "\"" + more);
      var u, rest := SpellingFound(s);
      SpellingRead(u, rest + ("\"" + more));
      Regroup(SpellingText(u), rest, "\"" + more);
      ShiftBack(StringSpan(rest + ("\"" + more)), |SpellingText(u)|, StringSpan(s + ("\"" + more)));
      hide Unescape;
      var tail := BodyFound(rest, more);
      us := [u] + tail;
      assert us[1..] == tail;
    }
  }

  lemma NoQuote(s: string, more: string)
    requires s != [] && StringSpan(s + more).used > 1
    ensures s[0] != '\"'
  {
  }

  // ---------- Blanks and comments ----------

  lemma {:induction false} BlockFound(s: string) returns (body: string)
    requires BlockSpan(s).ok && BlockSpan(s).used < |s|
    ensures s[..BlockSpan(s).used] == body + "*/" && forall i | 0 <= i < |body| - 1 :: !(body[i] == '*' && body[i + 1] == '/')
    decreases |s|
  {
    if s[0] == '*' && s[1] == '/' {
      body := [];
    } else {
      var tail := BlockFound(s[1..]);
      body := [s[0]] + tail;
      var n := BlockSpan(s[1..]).used;
      assert s[..n + 1] == [s[0]] + s[1..][..n];
      assert tail != [] ==> tail[0] == (tail + "*/")[0] == s[1];
    }
  }

  lemma {:induction false} LineFound(s: string) returns (body: string, end: string)
    requires LineSpan(s) < |s|
    ensures LineFeed(end) && s[..LineSpan(s)] == body + end && forall i | 0 <= i < |body| :: body[i] != '\n' && body[i] != '\r'
    decreases |s|
  {
    if s[0] == '\n' || s[0] == '\r' {
      body, end := [], s[..LineSpan(s)];
    } else {
      var tail: string;
      tail, end := LineFound(s[1..]);
      body := [s[0]] + tail;
      var n := LineSpan(s[1..]);
      assert s[..n + 1] == [s[0]] + s[1..][..n];
    }
  }

  lemma CommentFound(b: string) returns (p: Space)
    requires Lex(b).kind == Comment && Lex(b).used < |b|
    ensures SpaceOk(p) && !p.White? && SpaceText(p) == b[..Lex(b).used]
  {
    hide BlockSpan, LineSpan;
    CommentKind(b);
    var t := b[2..];
    assert b == [b[0]] + ([b[1]] + t);
    CommentStart(b[0], b[1], t);
    if b[1] == '*' {
      var body := BlockFound(t);
      p := Block(b[0], body);
      Cut2(b, BlockSpan(t).used);
    } else {
      var body, end := LineFound(t);
      p := Line(b[0], body, end);
      Cut2(b, LineSpan(t));
    }
  }

  lemma Cut2(b: string, n: nat)
    requires 2 + n <= |b|
    ensures b[..2 + n] == [b[0]] + ([b[1]] + b[2..][..n])
  {
  }

  lemma CommentKind(b: string)
    requires Lex(b).kind == Comment
    ensures |b| > 1 && Opens(b[0]) && (b[1] == '*' || b[1] == '/')
  {
    hide BlockSpan, LineSpan, StringSpan, NumberSpan;
  }

  ghost predicate Lexed(t: Token) { t.text != [] && !Blank(t.text[0]) && Lex(t.text + t.rest) == Lexeme(t.kind, |t.text|) }

  /** The blanks before a token. */
  lemma BlanksFound(s: string) returns (ws: string)
    ensures var t := ReadToken(s); Blanks(ws) && s == ws + (t.text + t.rest) && (t.text != [] ==> Lexed(t)) && |ws| <= |s|
    ensures var t := ReadToken(s); t.text + t.rest == SkipBlanks(s) && (SkipBlanks(s) == [] ==> t.text == [])
  {
    hide *;
    var b := SkipBlanks(s);
    var n := |s| - |b|;
    ws := s[..n];
    SkippedBlank(s);
    TokenOf(s);
    Halves(s, n);
  }

  lemma Halves(s: string, n: nat)
    requires n <= |s|
    ensures s == s[..n] + s[n..] && |s[..n]| <= |s|
  {
  }

  lemma TokenOf(s: string)
    ensures var t, b := ReadToken(s), SkipBlanks(s);
            t.text + t.rest == b && (b == [] ==> t.text == []) && (t.text != [] ==> Lexed(t))
  {
    hide Lex, SkipBlanks;
    var b := SkipBlanks(s);
    var l := Lex(b);
    assert b == b[..l.used] + b[l.used..];
  }

  lemma {:induction false} SkippedBlank(s: string)
    ensures Blanks(s[..|s| - |SkipBlanks(s)|])
    decreases |s|
  {
    if s != [] && Blank(s[0]) {
      SkippedBlank(s[1..]);
      var n := |s| - |SkipBlanks(s)|;
      assert forall i | 0 < i < n :: s[..n][i] == s[1..][..n - 1][i - 1];
    }
  }

  /** The spaces before a token. */
  lemma {:induction false} GapFound(s: string) returns (g: Gap)
    requires NextToken(s).text != []
    ensures var t := NextToken(s); GapOk(g) && s == GapText(g) + (t.text + t.rest) && Lexed(t)
    decreases |s|
  {
    hide ReadToken, Lex, SkipBlanks, SpaceText, SpaceOk, Lexed;
    var ws := BlanksFound(s);
    var t := ReadToken(s);
    WhiteIs(ws);
    if t.kind != Comment {
      g := [White(ws)];
      assert NextToken(s) == t;
      assert GapText(g) == ws + GapText(g[1..]) && g[1..] == [] && ws + [] == ws;
    } else {
      CommentLonger(t);
      assert NextToken(s) == NextToken(t.rest);
      hide NextToken;
      NothingNext();
      SomeToken(s);
      LexedIs(t);
      var p := CommentFound(t.text + t.rest);
      assert (t.text + t.rest)[..|t.text|] == t.text;
      var more := GapFound(t.rest);
      g := [White(ws), p] + more;
      assert g[1..] == [p] + more && g[1..][1..] == more;
      var u := NextToken(s);
      Nested3(ws, t.text, GapText(more), u.text, u.rest);
      Regroup(t.text, GapText(more), u.text + u.rest);
      Regroup(ws, t.text + GapText(more), u.text + u.rest);
    }
  }

  lemma WhiteIs(ws: string)
    requires Blanks(ws)
    ensures SpaceOk(White(ws)) && SpaceText(White(ws)) == ws
  {
  }

  lemma LexedIs(t: Token)
    requires Lexed(t)
    ensures t.text != [] && Lex(t.text + t.rest) == Lexeme(t.kind, |t.text|)
  {
    hide Lex;
  }

  lemma CommentLonger(t: Token)
    requires t.kind == Comment
    ensures PastComments(t) == NextToken(t.rest)
  {
    hide ReadToken;
  }

  lemma NothingNext()
    ensures NextToken([]).text == [] && NextToken([]).kind == EndOfStream
  {
    NothingLexed();
    NothingRead();
    hide ReadToken;
  }

  lemma NothingLexed()
    ensures Lex([]) == Lexeme(EndOfStream, 0) && SkipBlanks([]) == []
  {
    hide StringSpan, NumberSpan, CommentSpan, Word;
  }

  lemma NothingRead()
    ensures ReadToken([]) == Token(EndOfStream, [], [])
  {
    NothingLexed();
    hide Lex, SkipBlanks;
    var empty: string := [];
    assert empty[..0] == [] && empty[0..] == [];
  }

  lemma SomeToken(s: string)
    requires ReadToken(s).kind != EndOfStream
    ensures ReadToken(s).text != []
  {
    hide Lex, SkipBlanks;
  }

  // ---------- Tokens ----------

  /** The text of a token that is a mark or a word. */
  function Fixed(k: Kind): string {
    match k
    case ObjectBegin => "{" case ObjectEnd => "}" case ArrayBegin => "[" case ArrayEnd => "]"
    case Separator => "," case MemberSeparator => ":"
    case TrueWord => "true" case FalseWord => "false" case NullWord => "null"
    case _ => ""
  }

  lemma FixedFound(t: Token)
    requires Lexed(t) && Fixed(t.kind) != []
    ensures t.text == Fixed(t.kind)
  {
    var s := t.text + t.rest;
    FixedLexed(s);
    hide *;
    assert t.text == s[..|t.text|];
  }

  lemma FixedLexed(s: string)
    requires Fixed(Lex(s).kind) != []
    ensures var l := Lex(s); l.used == |Fixed(l.kind)| && Fixed(l.kind) == s[..l.used]
  {
    hide StringSpan, NumberSpan, CommentSpan;
    var k := Lex(s).kind;
    if k == TrueWord || k == FalseWord || k == NullWord {
      var w := Fixed(k);
      assert w[1..] <= s[1..] && s[0] == w[0] && |w| <= |s|;
      assert forall i | 0 < i < |w| :: s[i] == s[1..][i - 1] == w[1..][i - 1] == w[i];
    }
  }

  lemma StringFound(t: Token, v: string) returns (us: seq<Spelling>)
    requires Lexed(t) && t.kind == String && |t.text| >= 2 && StringValue(t.text) == Some(v)
    ensures SpelledOk(us) && t.text == Literal(us) && SpelledBytes(us) == v
  {
    hide Unescape, StringSpan;
    var body := t.text[1..|t.text| - 1];
    QuoteClosed(t);
    us := BodyFound(body, t.rest);
  }

  lemma QuoteClosed(t: Token)
    requires Lexed(t) && t.kind == String && |t.text| >= 2
    ensures var body := t.text[1..|t.text| - 1];
            t.text == "\"" + body + "\"" && StringSpan(body + ("\"" + t.rest)) == Scan(true, |body| + 1)
  {
    var s, n := t.text + t.rest, |t.text|;
    var u := s[1..];
    StringLexeme(s, n);
    EndsInQuote(u);
    hide *;
    assert t.text[0] == s[0] && u[n - 2] == s[n - 1] == t.text[n - 1];
    Between(t.text, t.rest);
  }

  lemma StringLexeme(s: string, n: nat)
    requires Lex(s) == Lexeme(String, n) && n >= 2
    ensures s[0] == '\"' && StringSpan(s[1..]) == Scan(true, n - 1)
  {
    hide StringSpan, NumberSpan, CommentSpan;
  }

  lemma Between(text: string, rest: string)
    requires |text| >= 2 && text[0] == '\"' && text[|text| - 1] == '\"'
    ensures var body := text[1..|text| - 1]; text == "\"" + body + "\"" && (text + rest)[1..] == body + ("\"" + rest)
  {
  }

  lemma {:induction false} EndsInQuote(s: string)
    requires StringSpan(s).ok
    ensures StringSpan(s).used > 0 && s[StringSpan(s).used - 1] == '\"'
    decreases |s|
  {
    if s[0] == '\\' {
      EndsInQuote(s[2..]);
    } else if s[0] != '\"' {
      EndsInQuote(s[1..]);
    }
  }

  // ---------- Numbers ----------

  lemma {:induction false} SpanDigits(s: string)
    ensures Digits(s[..Span(s)])
  {
  }

  lemma FractionFound(s: string) returns (f: Option<string>)
    ensures var n := FractionSpan(s); s[..n] == (if f.Some? then "." + f.value else "") && (f.Some? ==> Digits(f.value))
  {
    if s != [] && s[0] == '.' {
      var n := Span(s[1..]);
      f := Some(s[1..][..n]);
      assert s[..1 + n] == "." + s[1..][..n];
    } else {
      f := None;
    }
  }

  lemma ExponentFound(s: string) returns (e: Option<Exponent>)
    ensures s[..ExponentSpan(s)] == if e.Some? then [e.value.letter] + e.value.sign + e.value.ds else ""
    ensures e.Some? ==> (e.value.letter == 'e' || e.value.letter == 'E') && (e.value.sign == "" || e.value.sign == "+" || e.value.sign == "-")
    ensures e.Some? ==> Digits(e.value.ds)
  {
    if s == [] || (s[0] != 'e' && s[0] != 'E') {
      e := None;
    } else if Signed(s[1..]) {
      var n := Span(s[2..]);
      e := Some(Exponent(s[0], [s[1]], s[2..][..n]));
      assert s[..2 + n] == [s[0]] + [s[1]] + s[2..][..n];
    } else {
      var n := Span(s[1..]);
      e := Some(Exponent(s[0], "", s[1..][..n]));
      assert s[..1 + n] == [s[0]] + "" + s[1..][..n];
    }
  }

  lemma PartsFound(t: string) returns (ds: string, f: Option<string>, e: Option<Exponent>)
    ensures Digits(ds) && (f.Some? ==> Digits(f.value))
    ensures e.Some? ==> (e.value.letter == 'e' || e.value.letter == 'E') && (e.value.sign == "" || e.value.sign == "+" || e.value.sign == "-")
    ensures e.Some? ==> Digits(e.value.ds)
    ensures t[..NumberSpan(t)] == ds + (if f.Some? then "." + f.value else "") + (if e.Some? then [e.value.letter] + e.value.sign + e.value.ds else "")
  {
    var a := Span(t);
    var b := a + FractionSpan(t[a..]);
    var c := b + ExponentSpan(t[b..]);
    assert c == NumberSpan(t);
    hide FractionSpan, ExponentSpan, NumberSpan, Span;
    SpanDigits(t);
    ds := t[..a];
    f := FractionFound(t[a..]);
    e := ExponentFound(t[b..]);
    ThreeParts(t, a, b, c);
  }

  lemma ThreeParts(t: string, a: nat, b: nat, c: nat)
    requires a <= b <= c <= |t|
    ensures t[..c] == t[..a] + t[a..][..b - a] + t[b..][..c - b]
  {
  }

  lemma NumberFound(t: Token) returns (n: Number)
    requires Lexed(t) && t.kind == JsonParse.Number
    ensures NumberOk(n) && t.text == NumberText(n)
  {
    hide NumberSpan, StringSpan, CommentSpan;
    var s := t.text + t.rest;
    var u := s[1..];
    assert |t.text| == 1 + NumberSpan(u) && (s[0] == '-' || IsDigit(s[0]));
    var ds, f, e := PartsFound(u);
    assert t.text == [s[0]] + u[..NumberSpan(u)];
    var g, x := if f.Some? then "." + f.value else "", if e.Some? then [e.value.letter] + e.value.sign + e.value.ds else "";
    if s[0] == '-' {
      n := Num(true, ds, f, e);
      assert "-" + (ds + g + x) == ['-'] + (ds + g + x);
    } else {
      n := Num(false, [s[0]] + ds, f, e);
      assert "" + ([s[0]] + ds + g + x) == [s[0]] + (ds + g + x);
    }
  }

  // ---------- Values ----------

  /** A value that has been found: `s` is spaces, the text of the tree, and what is left. */
  ghost predicate Found(s: string, size: nat, g: Gap, t: Tree, r: Parsed) {
    && r.Ok? && GapOk(g) && TreeOk(t) && s == GapText(g) + (TreeText(t) + r.rest) && r.value == TreeValue(t)
    && size + TreeDepth(t) - 1 <= STACK_LIMIT
  }

  lemma LeafFound(s: string, size: nat, g: Gap) returns (t: Tree)
    requires ParseValue(s, size).Ok? && GapOk(g) && s == GapText(g) + (NextToken(s).text + NextToken(s).rest) && Lexed(NextToken(s))
    requires NextToken(s).kind != ObjectBegin && NextToken(s).kind != ArrayBegin
    ensures Found(s, size, g, t, ParseValue(s, size))
  {
    hide NextToken, ParseArray, ParseMembers, StringValue, NumberValue, ParseValue, Lexed, GapText, GapOk, Literal, NumberText, SpelledOk, SpelledBytes, NumberOk;
    ValueByToken(s, size);
    var k := NextToken(s);
    match k.kind
    case Number =>
      var n := NumberFound(k);
      NumberParts(n);
      t := TNum(n);
    case String =>
      var us := StringFound(k, StringValue(k.text).value);
      t := TStr(us);
    case TrueWord => FixedFound(k); t := TBool(true);
    case FalseWord => FixedFound(k); t := TBool(false);
    case NullWord => FixedFound(k); t := TNull;
  }

  lemma TokenThere(s: string)
    requires NextToken(s).kind != EndOfStream
    ensures NextToken(s).text != []
    decreases |s|
  {
    hide ReadToken;
    SomeTokenRead(s);
    if ReadToken(s).kind == Comment {
      CommentLonger(ReadToken(s));
      TokenThere(ReadToken(s).rest);
    }
  }

  lemma SomeTokenRead(s: string)
    ensures ReadToken(s).kind != EndOfStream ==> ReadToken(s).text != []
  {
    if ReadToken(s).kind != EndOfStream { SomeToken(s); }
  }

  lemma ValueThere(s: string, size: nat)
    requires ParseValue(s, size).Ok?
    ensures NextToken(s).text != []
  {
    hide NextToken, ParseArray, ParseMembers, StringValue, NumberValue, ParseValue;
    ValueByToken(s, size);
    TokenThere(s);
  }

  /** Every text the reader makes a value of is a layout, and the value is what the layout means. */
  lemma {:induction false} ValueFound(s: string, size: nat) returns (g: Gap, t: Tree)
    requires ParseValue(s, size).Ok?
    ensures Found(s, size, g, t, ParseValue(s, size))
    decreases |s|, 1
  {
    hide *;
    ValueThere(s, size);
    g := GapFound(s);
    var k := NextToken(s);
    ValueByToken(s, size);
    SizeFits(s, size);
    if k.kind == ArrayBegin {
      KindFixed(k);
      t := ArrayFound(k.rest, size);
      Opened(s, size, g, t, k, ParseArray(k.rest, size));
    } else if k.kind == ObjectBegin {
      KindFixed(k);
      t := ObjectFound(k.rest, size);
      Opened(s, size, g, t, k, ParseMembers(k.rest, size, [], []));
    } else {
      t := LeafFound(s, size, g);
    }
  }

  lemma SizeFits(s: string, size: nat)
    requires ParseValue(s, size).Ok?
    ensures size <= STACK_LIMIT && |NextToken(s).rest| < |s|
  {
    hide NextToken, ParseArray, ParseMembers, StringValue, NumberValue, ParseValue;
    ValueByToken(s, size);
  }

  lemma KindFixed(k: Token)
    requires Lexed(k) && (k.kind == ArrayBegin || k.kind == ObjectBegin || k.kind == ArrayEnd || k.kind == ObjectEnd || k.kind == Separator || k.kind == MemberSeparator)
    ensures k.text == Fixed(k.kind) && (k.kind == ArrayBegin ==> k.text == "[") && (k.kind == ObjectBegin ==> k.text == "{")
  {
    FixedFound(k);
  }

  /** A list or an object whose inside has been found behind its opening bracket. */
  ghost predicate Inside(s: string, size: nat, t: Tree, r: Parsed) {
    && r.Ok? && TreeOk(t) && (t.TNone? || t.TArr? || t.TEmpty? || t.TObj?)
    && (if t.TNone? || t.TArr? then "[" else "{") + s == TreeText(t) + r.rest && r.value == TreeValue(t)
    && size + TreeDepth(t) - 1 <= STACK_LIMIT
  }

  lemma Opened(s: string, size: nat, g: Gap, t: Tree, k: Token, r: Parsed)
    requires GapOk(g) && s == GapText(g) + (k.text + k.rest) && Inside(k.rest, size, t, r)
    requires k.text == if t.TNone? || t.TArr? then "[" else "{"
    ensures Found(s, size, g, t, r)
  {
    hide GapOk, TreeOk, GapText, TreeText, TreeValue, TreeDepth;
  }

  lemma ArrayFound(s: string, size: nat) returns (t: Tree)
    requires ParseArray(s, size).Ok? && size <= STACK_LIMIT
    ensures (t.TNone? || t.TArr?) && Inside(s, size, t, ParseArray(s, size))
    decreases |s|, 3
  {
    hide ParseValue, ParseItems, NextToken, SkipBlanks, ReadToken, Inside, CellsOk, Lexed;
    var b := SkipBlanks(s);
    if b != [] && b[0] == ']' {
      var ws := BlanksFound(s);
      t := TNone(ws);
      NoneInside(s, size, ws, b);
    } else {
      var cells := ItemsFound(s, size, []);
      t := TArr(cells);
      CellsInside(s, size, cells, ParseItems(s, size, []));
    }
  }

  lemma NoneInside(s: string, size: nat, ws: string, b: string)
    requires Blanks(ws) && s == ws + b && b != [] && b[0] == ']' && size <= STACK_LIMIT
    ensures Inside(s, size, TNone(ws), Ok(Arr([]), b[1..]))
  {
    hide Blanks;
    assert b == "]" + b[1..];
    Regroup("[" + ws, "]", b[1..]);
    Regroup("[", ws, b);
  }

  lemma CellsInside(s: string, size: nat, cells: seq<Cell>, r: Parsed)
    requires cells != [] && CellsOk(cells) && r.Ok? && s == CellsText(cells) + r.rest && r.value == Arr([] + CellsValues(cells))
    requires size + CellsDepth(cells) <= STACK_LIMIT
    ensures Inside(s, size, TArr(cells), r)
  {
    hide CellsOk, CellsText, CellsValues, CellsDepth;
    assert [] + CellsValues(cells) == CellsValues(cells);
    Regroup("[", CellsText(cells), r.rest);
  }

  /** The items of an array, with the closing bracket. */
  lemma {:induction false} ItemsFound(s: string, size: nat, items: seq<Value>) returns (cells: seq<Cell>)
    requires ParseItems(s, size, items).Ok? && size <= STACK_LIMIT
    ensures var r := ParseItems(s, size, items);
            && cells != [] && CellsOk(cells) && s == CellsText(cells) + r.rest && r.value == Arr(items + CellsValues(cells))
            && size + CellsDepth(cells) <= STACK_LIMIT
    decreases |s|, 2
  {
    hide ParseValue, ParseItems, NextToken, TreeText, TreeOk, TreeValue, TreeDepth, GapText, GapOk, Lexed;
    ItemsByStep(s, size, items);
    var g, t := ValueFound(s, size + 1);
    var v := ParseValue(s, size + 1);
    FoundIs(s, size + 1, g, t, v);
    TokenThere(v.rest);
    var behind := GapFound(v.rest);
    var k := NextToken(v.rest);
    KindFixed(k);
    if k.kind == ArrayEnd {
      cells := [Cell(g, t, behind)];
    } else {
      var more := ItemsFound(k.rest, size, items + [v.value]);
      cells := [Cell(g, t, behind)] + more;
      assert cells[1..] == more;
    }
    CellsSplit(cells, items, ParseItems(s, size, items).rest);
    assert cells[1..] == [] ==> CellsValues(cells[1..]) == [];
  }

  lemma FoundIs(s: string, size: nat, g: Gap, t: Tree, r: Parsed)
    requires Found(s, size, g, t, r)
    ensures r.Ok? && GapOk(g) && TreeOk(t) && s == GapText(g) + (TreeText(t) + r.rest) && r.value == TreeValue(t)
    ensures size + TreeDepth(t) - 1 <= STACK_LIMIT
  {
    hide GapOk, TreeOk, GapText, TreeText, TreeValue, TreeDepth;
  }

  // ---------- Objects ----------

  /** What has been found of the members: the closing brace at once, or members. */
  datatype Rest = Closed(g: Gap) | Members(entries: seq<Entry>, close: Option<Gap>)

  ghost predicate RestOk(m: Rest) {
    match m
    case Closed(g) => GapOk(g)
    case Members(entries, close) => entries != [] && EntriesOk(entries) && CloseOk(entries, close)
  }

  ghost function RestText(m: Rest): string
    requires RestOk(m)
  {
    match m
    case Closed(g) => GapText(g) + "}"
    case Members(entries, close) => EntriesText(entries, close)
  }

  ghost function RestValue(acc: seq<Member>, m: Rest): seq<Member>
    requires RestOk(m)
  {
    match m
    case Closed(_) => acc
    case Members(entries, _) => EntriesValue(acc, entries)
  }

  ghost function RestDepth(m: Rest): nat { match m case Closed(_) => 0 case Members(entries, _) => EntriesDepth(entries) }

  ghost predicate Gathered(s: string, size: nat, acc: seq<Member>, previous: string, m: Rest, r: Parsed) {
    && r.Ok? && RestOk(m) && s == RestText(m) + r.rest && r.value == Obj(RestValue(acc, m)) && size + RestDepth(m) <= STACK_LIMIT
    && (m.Closed? ==> previous == [])
  }

  lemma ObjectFound(s: string, size: nat) returns (t: Tree)
    requires ParseMembers(s, size, [], []).Ok? && size <= STACK_LIMIT
    ensures (t.TEmpty? || t.TObj?) && Inside(s, size, t, ParseMembers(s, size, [], []))
    decreases |s|, 3
  {
    hide ParseMembers, EntriesText, EntriesOk, EntriesValue, EntriesDepth, GapText, GapOk, CloseOk;
    var m := MembersFound(s, size, [], []);
    var rest := ParseMembers(s, size, [], []).rest;
    if m.Closed? {
      t := TEmpty(m.g);
      Regroup("{", GapText(m.g) + "}", rest);
      Regroup("{", GapText(m.g), "}");
    } else {
      t := TObj(m.entries, m.close);
      Regroup("{", EntriesText(m.entries, m.close), rest);
    }
  }

  /** `ParseMembers` one member at a time, seen from its result. */
  lemma MembersByStep(s: string, size: nat, acc: seq<Member>, previous: string)
    requires ParseMembers(s, size, acc, previous).Ok?
    ensures var t, r := NextToken(s), ParseMembers(s, size, acc, previous);
            if t.kind == ObjectEnd && previous == [] then r == Ok(Obj(acc), t.rest)
            else
              && t.kind == String && |t.text| >= 2 && StringValue(t.text).Some?
              && var key, colon := StringValue(t.text).value, ReadToken(t.rest);
                 && colon.kind == MemberSeparator && |key| < NAME_LIMIT && ParseValue(colon.rest, size + 1).Ok?
                 && var v := ParseValue(colon.rest, size + 1);
                    var comma, end := ReadToken(v.rest), NextToken(v.rest);
                    && (comma.kind == ObjectEnd || comma.kind == Separator || comma.kind == Comment)
                    && r == if end.kind == ObjectEnd then Ok(Obj(Put(acc, key, v.value)), end.rest)
                            else ParseMembers(end.rest, size, Put(acc, key, v.value), key)
  {
    hide ParseValue, StringValue, ReadToken, PastComments, Put;
  }

  /** The name of a member, the colon and the value. */
  lemma MemberFound(s: string, size: nat, acc: seq<Member>, previous: string) returns (before: Gap, name: seq<Spelling>, mid: string, gap: Gap, v: Tree)
    requires ParseMembers(s, size, acc, previous).Ok? && NextToken(s).kind == String && size <= STACK_LIMIT
    ensures var t := NextToken(s); |t.text| >= 2 && StringValue(t.text).Some?
    ensures var t := NextToken(s); var colon := ReadToken(t.rest); var r := ParseValue(colon.rest, size + 1);
            && r.Ok? && |r.rest| < |s| && GapOk(before) && SpelledOk(name) && SpelledBytes(name) == StringValue(t.text).value && Blanks(mid)
            && Found(colon.rest, size + 1, gap, v, r)
            && s == GapText(before) + (Literal(name) + (mid + (":" + colon.rest)))
    decreases |s|, 1
  {
    hide ParseMembers, ParseValue, StringValue, NextToken, ReadToken, Lexed, Found, GapText, GapOk, Literal, SpelledOk, SpelledBytes, Blanks, SkipBlanks;
    MembersByStep(s, size, acc, previous);
    var t := NextToken(s);
    TokenThere(s);
    before := GapFound(s);
    name := StringFound(t, StringValue(t.text).value);
    var colon := ReadToken(t.rest);
    mid := BlanksFound(t.rest);
    SomeTokenRead(t.rest);
    KindFixed(colon);
    gap, v := ValueFound(colon.rest, size + 1);
  }

  lemma ClosedFound(s: string, size: nat, acc: seq<Member>, g: Gap, r: Parsed, rest: string)
    requires GapOk(g) && s == GapText(g) + ("}" + rest) && r == Ok(Obj(acc), rest) && size <= STACK_LIMIT
    ensures Gathered(s, size, acc, [], Closed(g), r)
  {
    hide GapText, GapOk;
    Regroup(GapText(g), "}", rest);
  }

  lemma TextOrEnd(s: string)
    ensures NextToken(s).text == [] ==> NextToken(s).rest == []
    decreases |s|
  {
    hide ReadToken;
    TextOrEndRead(s);
    if ReadToken(s).kind == Comment {
      SomeTokenRead(s);
      CommentLonger(ReadToken(s));
      TextOrEnd(ReadToken(s).rest);
    }
  }

  lemma TextOrEndRead(s: string)
    ensures ReadToken(s).text == [] ==> ReadToken(s).rest == []
  {
    hide Lex, SkipBlanks;
  }

  lemma NoMembers(size: nat, acc: seq<Member>, previous: string)
    ensures !ParseMembers([], size, acc, previous).Ok?
  {
    hide ParseValue, StringValue, NextToken, ReadToken, PastComments, Put;
    NothingNext();
  }

  lemma EndThere(s: string, size: nat, acc: seq<Member>, key: string)
    requires NextToken(s).kind == ObjectEnd || ParseMembers(NextToken(s).rest, size, acc, key).Ok?
    ensures NextToken(s).text != []
  {
    hide NextToken, ParseMembers;
    if NextToken(s).kind == ObjectEnd {
      TokenThere(s);
    } else {
      TextOrEnd(s);
      NoMembers(size, acc, key);
    }
  }

  lemma MarkFound(behind: Gap, end: Token, s: string)
    requires GapOk(behind) && Lexed(end) && end == NextToken(s) && s == GapText(behind) + (end.text + end.rest)
    requires ReadToken(s).kind == ObjectEnd || ReadToken(s).kind == Separator || ReadToken(s).kind == Comment
    ensures end.text != [] && (end.kind == ObjectEnd || end.text == "," || Commented(behind))
  {
    hide ReadToken, Lex, GapText, GapOk, Commented;
    FirstKind(behind, end.text + end.rest);
    TokenIs(end.kind, end.text, end.rest);
    if end.kind == Separator { KindFixed(end); }
    hide NextToken;
  }

  /** The text and the value of a member, and what follows it. */
  ghost predicate Begins(s: string, e: Entry, tail: string) {
    && EntryOk(e) && TreeOk(e.v)
    && s == GapText(e.before) + (Literal(e.name) + (e.mid + (":" + (GapText(e.gap) + (TreeText(e.v) + (GapText(e.behind) + tail))))))
  }

  lemma OneMember(s: string, size: nat, acc: seq<Member>, previous: string, e: Entry, r: Parsed)
    requires r.Ok? && Begins(s, e, "}" + r.rest) && size + TreeDepth(e.v) <= STACK_LIMIT
    requires r.value == Obj(Put(acc, SpelledBytes(e.name), TreeValue(e.v)))
    ensures Gathered(s, size, acc, previous, Members([e], None), r)
  {
    hide GapText, GapOk, TreeOk, TreeText, TreeValue, TreeDepth, Literal, SpelledBytes, SpelledOk, Blanks, Commented, Put, EntriesText;
    assert [e][1..] == [];
    EntriesSplit([e], None, r.rest);
    OnlyEntry(acc, e);
  }

  lemma OnlyEntry(acc: seq<Member>, e: Entry)
    requires EntryOk(e) && TreeOk(e.v)
    ensures EntriesOk([e]) && EntriesValue(acc, [e]) == Put(acc, SpelledBytes(e.name), TreeValue(e.v)) && EntriesDepth([e]) == TreeDepth(e.v)
  {
    hide GapText, GapOk, TreeOk, TreeText, TreeValue, TreeDepth, SpelledBytes, SpelledOk, Blanks, Commented, Put;
    assert [e][1..] == [];
  }

  lemma MoreMembers(s: string, size: nat, acc: seq<Member>, previous: string, e: Entry, tail: string, m: Rest, n: Rest, r: Parsed)
    requires Begins(s, e, e.mark + tail) && size + TreeDepth(e.v) <= STACK_LIMIT
    requires Gathered(tail, size, Put(acc, SpelledBytes(e.name), TreeValue(e.v)), SpelledBytes(e.name), m, r)
    requires n == if m.Closed? then Members([e], Some(m.g)) else Members([e] + m.entries, m.close)
    ensures Gathered(s, size, acc, previous, n, r)
  {
    hide GapText, GapOk, TreeOk, TreeText, TreeValue, TreeDepth, Literal, SpelledBytes, SpelledOk, Blanks, Commented, Put, EntriesText, EntriesDepth, EntriesValue;
    if m.Closed? {
      assert [e][1..] == [];
      if e.name != [] { NameSome(e.name); }
      OnlyEntry(acc, e);
      EntriesSplit([e], Some(m.g), r.rest);
      Regroup(GapText(m.g), "}", r.rest);
    } else {
      var es := [e] + m.entries;
      assert es[0] == e && es[1..] == m.entries;
      MoreEntries(acc, e, m.entries);
      EntriesSplit(es, m.close, r.rest);
    }
  }

  lemma MoreEntries(acc: seq<Member>, e: Entry, more: seq<Entry>)
    requires EntryOk(e) && TreeOk(e.v) && EntriesOk(more)
    ensures var es := [e] + more;
            && EntriesOk(es) && EntriesValue(acc, es) == EntriesValue(Put(acc, SpelledBytes(e.name), TreeValue(e.v)), more)
            && EntriesDepth(es) == Max(TreeDepth(e.v), EntriesDepth(more))
  {
    hide GapText, GapOk, TreeText, TreeValue, TreeDepth, SpelledBytes, SpelledOk, Blanks, Commented, Put;
    var es := [e] + more;
    assert es[0] == e && es[1..] == more;
  }

  lemma SpellingSome(u: Spelling)
    requires SpellingOk(u)
    ensures SpellingBytes(u) != []
  {
    match u
    case Unicode(q) => SomeBytes(QuadValue(q));
    case Pair(hi, lo) => SomeBytes(0x10000 + (QuadValue(hi) - 0xD800) * 1024 + QuadValue(lo) % 1024);
    case _ =>
  }

  /** Every spelling has a byte. */
  lemma NameSome(us: seq<Spelling>)
    requires SpelledOk(us) && us != []
    ensures SpelledBytes(us) != []
  {
    SpellingSome(us[0]);
    hide SpellingBytes;
  }

  lemma {:induction false} MembersFound(s: string, size: nat, acc: seq<Member>, previous: string) returns (m: Rest)
    requires ParseMembers(s, size, acc, previous).Ok? && size <= STACK_LIMIT
    ensures Gathered(s, size, acc, previous, m, ParseMembers(s, size, acc, previous))
    decreases |s|, 2
  {
    hide ParseMembers, ParseValue, StringValue, NextToken, ReadToken, Lexed, GapText, GapOk, Literal, SpelledOk, SpelledBytes, Blanks, Put, Gathered, Found;
    MembersByStep(s, size, acc, previous);
    var t, r := NextToken(s), ParseMembers(s, size, acc, previous);
    if t.kind == ObjectEnd && previous == [] {
      TokenThere(s);
      var g := GapFound(s);
      KindFixed(t);
      m := Closed(g);
      ClosedFound(s, size, acc, g, r, t.rest);
    } else {
      var before, name, mid, gap, v := MemberFound(s, size, acc, previous);
      var key, value := StringValue(t.text).value, ParseValue(ReadToken(t.rest).rest, size + 1);
      FoundIs(ReadToken(t.rest).rest, size + 1, gap, v, value);
      var end := NextToken(value.rest);
      EndThere(value.rest, size, Put(acc, key, value.value), key);
      var behind := GapFound(value.rest);
      MarkFound(behind, end, value.rest);
      var e := Entry(before, name, mid, gap, v, behind, if end.kind == ObjectEnd then "," else end.text);
      if end.kind == ObjectEnd {
        KindFixed(end);
        m := Members([e], None);
        OneMember(s, size, acc, previous, e, r);
      } else {
        var m' := MembersFound(end.rest, size, Put(acc, key, value.value), key);
        m := if m'.Closed? then Members([e], Some(m'.g)) else Members([e] + m'.entries, m'.close);
        MoreMembers(s, size, acc, previous, e, end.rest, m', m, r);
      }
    }
  }

  // ---------- Documents ----------

  /** A document that is read is spaces and the layout of its value, nested no deeper than the limit. */
  lemma DocumentFound(doc: string) returns (g: Gap, t: Tree)
    requires JsonParse.Parse(doc).Ok?
    ensures var r := JsonParse.Parse(doc);
            && GapOk(g) && TreeOk(t) && doc == GapText(g) + (TreeText(t) + r.rest) && r.value == TreeValue(t) && TreeDepth(t) <= STACK_LIMIT
  {
    hide *;
    g, t := ParsedFound(doc);
    FoundIs(doc, 1, g, t, JsonParse.Parse(doc));
  }

  lemma ParsedFound(doc: string) returns (g: Gap, t: Tree)
    requires JsonParse.Parse(doc).Ok?
    ensures Found(doc, 1, g, t, JsonParse.Parse(doc))
  {
    hide ParseValue, Found;
    g, t := ValueFound(doc, 1);
  }

  // ---------- Texts that are no JSON ----------

  /** A minus sign alone is the number 0. */
  lemma MinusAlone()
    ensures JsonParse.Parse("-") == Ok(Int(0), "")
  {
    hide ParseValue;
    var n := Num(true, [], None, None);
    assert NumberText(n) == "-" && Numeral([]) == 0;
    DocumentRead([], TNum(n), "");
    assert GapText([]) + (TreeText(TNum(n)) + "") == "-";
  }

  /** Behind a member with an empty name an object may close behind a comma. */
  lemma ClosedBehindComma()
    ensures JsonParse.Parse("{\"\":1,}") == Ok(Obj([Member("", Int(1))]), "")
  {
    hide ParseValue, NumberMeaning, NumberText, Literal, EntriesText;
    var n := Num(false, "1", None, None);
    var e := Entry([], [], "", [], TNum(n), [], ",");
    var t := TObj([e], Some([]));
    TheNumberOne(n);
    OnlyEntry([], e);
    OneEmptyName(e, n);
    assert [e][1..] == [] && TreeDepth(t) == 2;
    DocumentRead([], t, "");
    assert GapText([]) + (TreeText(t) + "") == "{\"\":1,}";
    assert Put([], "", Int(1)) == [Member("", Int(1))];
  }

  lemma TheNumberOne(n: JsonLayout.Number)
    requires n == Num(false, "1", None, None)
    ensures NumberOk(n) && NumberText(n) == "1" && NumberMeaning(n) == Int(1)
  {
    assert "1"[..0] == [] && Numeral([]) == 0;
  }

  lemma OneEmptyName(e: Entry, n: JsonLayout.Number)
    requires NumberOk(n) && NumberText(n) == "1" && e == Entry([], [], "", [], TNum(n), [], ",")
    ensures EntriesOk([e]) && EntriesText([e], Some([])) == "\"\":1,}" && GapText([]) == "" && SpelledBytes([]) == [] && EntriesStrict([e])
  {
    hide NumberText, NumberMeaning;
    assert Literal([]) == "\"\"" && [e][1..] == [];
  }

  /** A comment stands for the comma behind a member, and the token behind it is passed over, whatever it is. */
  lemma CommentForComma(e: Entry, size: nat, acc: seq<Member>, previous: string, x: Token)
    requires EntryOk(e) && TreeOk(e.v) && Commented(e.behind) && Lexed(x) && x.kind != Comment && x.kind != ObjectEnd
    requires var behind := GapText(e.behind) + (x.text + x.rest);
             ParseValue(TreeText(e.v) + behind, size + 1) == Ok(TreeValue(e.v), behind)
    ensures var name := SpelledBytes(e.name);
            ParseMembers(GapText(e.before) + (Literal(e.name) + (e.mid + (":" + (GapText(e.gap) + (TreeText(e.v) + (GapText(e.behind) + (x.text + x.rest))))))),
                         size, acc, previous) ==
            ParseMembers(x.rest, size, Put(acc, name, TreeValue(e.v)), name)
  {
    hide NextToken, ParseValue, ParseMembers, TreeText, TreeValue, TreeDepth, StringValue, Literal, Put, ReadToken, GapText, GapOk;
    hide TreeOk, SpelledBytes, SpelledOk, Blanks, PastComments, Commented;
    var behind := GapText(e.behind) + (x.text + x.rest);
    var value := GapText(e.gap) + (TreeText(e.v) + behind);
    var colon := e.mid + (":" + value);
    NameRead(e, value);
    GapBeforeValue(e.gap, TreeText(e.v) + behind, size + 1);
    GapPassed(e.behind, x.text + x.rest);
    FirstKind(e.behind, x.text + x.rest);
    LexedToken(x);
    NextIsPast(behind);
    MemberByToken(GapText(e.before) + (Literal(e.name) + colon), size, acc, previous, Literal(e.name), SpelledBytes(e.name), colon, value);
  }

  lemma LexedToken(x: Token)
    requires Lexed(x) && x.kind != Comment
    ensures NextToken(x.text + x.rest) == x
  {
    hide Lex, ReadToken, NextToken;
    TokenIs(x.kind, x.text, x.rest);
  }

  lemma NextIsPast(s: string)
    ensures NextToken(s) == PastComments(ReadToken(s))
  {
    hide PastComments, ReadToken;
  }
}
