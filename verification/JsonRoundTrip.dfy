/** Reading what the writer printed gives the value back, whatever follows it, as long as it does not
    nest deeper than the reader allows; deeper values are refused. */
module JsonRoundTrip {
  import opened Arithmetic
  import opened Wrappers
  import opened JsonText
  import opened JsonParse
  import opened JsonReader
  import opened JsonWriter

  // ---------- What is read back ----------

  /** The value as the reader stores it: a number that is not negative is signed up to 2^31 - 1 and unsigned
      from there on. */
  function Canonical(v: Value): Value {
    match v
    case Int(i) => if i > MAX_INT then UInt(i) else v
    case UInt(u) => if u <= MAX_INT then Int(u) else v
    case Arr(items) => Arr(CanonicalItems(items))
    case Obj(members) => Obj(CanonicalMembers(members))
    case _ => v
  }

  function CanonicalItems(items: seq<Value>): (r: seq<Value>)
    ensures |r| == |items|
  {
    if items == [] then [] else [Canonical(items[0])] + CanonicalItems(items[1..])
  }

  function CanonicalMembers(members: seq<Member>): (r: seq<Member>)
    ensures |r| == |members| && forall i | 0 <= i < |r| :: r[i].name == members[i].name
  {
    if members == [] then []
    else [Member(members[0].name, Canonical(members[0].value))] + CanonicalMembers(members[1..])
  }

  /** Two values are the same up to how their numbers are stored. */
  predicate Same(v: Value, w: Value) {
    match v
    case Int(i) => (w.Int? && w.i == i) || (w.UInt? && w.u == i)
    case UInt(u) => (w.Int? && w.i == u) || (w.UInt? && w.u == u)
    case Arr(items) => w.Arr? && SameItems(items, w.items)
    case Obj(members) => w.Obj? && SameMembers(members, w.members)
    case _ => v == w
  }

  predicate SameItems(a: seq<Value>, b: seq<Value>) {
    |a| == |b| && (a == [] || (Same(a[0], b[0]) && SameItems(a[1..], b[1..])))
  }

  predicate SameMembers(a: seq<Member>, b: seq<Member>) {
    |a| == |b| && (a == [] || (a[0].name == b[0].name && Same(a[0].value, b[0].value) && SameMembers(a[1..], b[1..])))
  }

  lemma {:induction false} CanonicalIsSame(v: Value)
    ensures Same(v, Canonical(v))
  {
    match v
    case Arr(items) => CanonicalItemsAreSame(items);
    case Obj(members) => CanonicalMembersAreSame(members);
    case _ =>
  }

  lemma {:induction false} CanonicalItemsAreSame(items: seq<Value>)
    ensures SameItems(items, CanonicalItems(items))
  {
    if items != [] {
      CanonicalIsSame(items[0]);
      CanonicalItemsAreSame(items[1..]);
      assert CanonicalItems(items)[1..] == CanonicalItems(items[1..]);
    }
  }

  lemma {:induction false} CanonicalMembersAreSame(members: seq<Member>)
    ensures SameMembers(members, CanonicalMembers(members))
  {
    if members != [] {
      CanonicalIsSame(members[0].value);
      CanonicalMembersAreSame(members[1..]);
      assert CanonicalMembers(members)[1..] == CanonicalMembers(members[1..]);
    }
  }

  // ---------- Characters ----------

  lemma Hex16Read(x: nat, rest: string)
    requires x < 0x1_0000
    ensures FourHex(Hex16(x) + rest) == Some(x)
  {
    var s := Hex16(x) + rest;
    UnhexDigit(x / 4096 % 16); UnhexDigit(x / 256 % 16); UnhexDigit(x / 16 % 16); UnhexDigit(x % 16);
    assert s[0] == Hex16(x)[0] && s[1] == Hex16(x)[1] && s[2] == Hex16(x)[2] && s[3] == Hex16(x)[3];
    HexSum(x);
  }

  lemma HexSum(x: nat)
    requires x < 0x1_0000
    ensures ((x / 4096 % 16 * 16 + x / 256 % 16) * 16 + x / 16 % 16) * 16 + x % 16 == x
  {
    assert x / 256 == x / 16 / 16 && x / 4096 == x / 256 / 16;
  }

  predicate IsScalar(cp: nat) { cp <= 0x10FFFF && !(0xD800 <= cp <= 0xDFFF) }

  lemma EscapeRead(cp: nat, rest: string)
    requires IsScalar(cp)
    ensures UnicodeEscape(cp)[..2] == "\\u"
    ensures UnicodeAt((UnicodeEscape(cp) + rest)[2..]) == Some(Scalar(cp, |UnicodeEscape(cp)| - 2))
  {
    hide FourHex, Hex16, UnicodeAt;
    var s := (UnicodeEscape(cp) + rest)[2..];
    if cp < 0x10000 {
      assert s == Hex16(cp) + rest;
      Hex16Read(cp, rest);
      SingleRead(s, cp);
    } else {
      var hi, lo := (cp - 0x10000) / 1024 + 0xD800, (cp - 0x10000) % 1024 + 0xDC00;
      var tail := "\\u" + Hex16(lo) + rest;
      assert s == Hex16(hi) + tail;
      PairSum(cp - 0x10000);
      Hex16Read(hi, tail);
      Hex16Read(lo, rest);
      assert s[6..] == Hex16(lo) + rest;
      PairRead(s, hi, lo);
    }
  }

  lemma SingleRead(s: string, u: nat)
    requires FourHex(s) == Some(u) && u <= 0xFFFF && !(0xD800 <= u <= 0xDBFF)
    ensures UnicodeAt(s) == Some(Scalar(u, 4))
  {
    hide FourHex;
  }

  lemma PairRead(s: string, hi: nat, lo: nat)
    requires |s| >= 10 && s[4] == '\\' && s[5] == 'u' && FourHex(s) == Some(hi) && FourHex(s[6..]) == Some(lo)
    requires 0xD800 <= hi <= 0xDBFF
    ensures UnicodeAt(s) == Some(Scalar(0x10000 + hi % 1024 * 1024 + lo % 1024, 10))
  {
    hide FourHex;
  }

  lemma PairSum(x: nat)
    requires x < 0x10_0000
    ensures (x / 1024 + 0xD800) % 1024 * 1024 + (x % 1024 + 0xDC00) % 1024 == x
    ensures 0xD800 <= x / 1024 + 0xD800 <= 0xDBFF && x % 1024 + 0xDC00 <= 0xDFFF
  {
    assert (x / 1024 + 0xD800) % 1024 == x / 1024;
    assert (x % 1024 + 0xDC00) % 1024 == x % 1024;
  }

  /** A well-formed character is decoded to a scalar value, whose encoding is the character. */
  lemma CharacterCodes(s: string)
    requires CharLength(s) > 0
    ensures var c := CodePoint(s); c.used == CharLength(s) && IsScalar(c.cp) && EncodeUtf8(c.cp) == s[..c.used]
    ensures s[0] as int < 0x80 ==> CodePoint(s) == Scalar(s[0] as int, 1)
    ensures s[0] as int >= 0x80 ==> CodePoint(s).cp >= 0x80
  {
    var n := CharLength(s);
    if n == 2 {
      var a, b := s[0] as int - 0xC0, s[1] as int - 0x80;
      assert CodePoint(s) == Scalar(a * 64 + b, 2);
      assert s[..2] == [s[0], s[1]];
    } else if n == 3 {
      ThreeCodes(s);
    } else if n == 4 {
      FourCodes(s);
    }
  }

  lemma Encode3(a: nat, b: nat, c: nat)
    requires a < 16 && b < 64 && c < 64 && 0x800 <= a * 4096 + b * 64 + c
    ensures EncodeUtf8(a * 4096 + b * 64 + c) == [(0xE0 + a) as char, (0x80 + b) as char, (0x80 + c) as char]
  {
    var x := a * 4096 + b * 64 + c;
    assert x / 64 == a * 64 + b;
    assert x / 4096 == a;
  }

  lemma Encode4(a: nat, b: nat, c: nat, d: nat)
    requires a < 5 && b < 64 && c < 64 && d < 64 && 0x10000 <= a * 0x40000 + b * 4096 + c * 64 + d <= 0x10FFFF
    ensures EncodeUtf8(a * 0x40000 + b * 4096 + c * 64 + d) ==
            [(0xF0 + a) as char, (0x80 + b) as char, (0x80 + c) as char, (0x80 + d) as char]
  {
    var x := a * 0x40000 + b * 4096 + c * 64 + d;
    Sextets(a, b, c, d);
    assert EncodeUtf8(x) == [(0xF0 + x / 0x40000 % 8) as char, (0x80 + x / 4096 % 64) as char, (0x80 + x / 64 % 64) as char,
                             (0x80 + x % 64) as char];
  }

  lemma Sextets(a: nat, b: nat, c: nat, d: nat)
    requires a < 8 && b < 64 && c < 64 && d < 64
    ensures var x := a * 0x40000 + b * 4096 + c * 64 + d;
            x / 0x40000 % 8 == a && x / 4096 % 64 == b && x / 64 % 64 == c && x % 64 == d
  {
    var x := a * 0x40000 + b * 4096 + c * 64 + d;
    assert x / 64 == a * 4096 + b * 64 + c;
    assert x / 4096 == a * 64 + b;
    assert x / 0x40000 == a;
  }

  lemma ThreeCodes(s: string)
    requires ThreeBytes(s)
    ensures var c := CodePoint(s); c.used == 3 && IsScalar(c.cp) && c.cp >= 0x800 && EncodeUtf8(c.cp) == s[..3]
  {
    hide EncodeUtf8;
    var a, b, c := s[0] as int - 0xE0, s[1] as int - 0x80, s[2] as int - 0x80;
    assert CodePoint(s) == Scalar(a * 4096 + b * 64 + c, 3);
    Encode3(a, b, c);
    assert s[..3] == [s[0], s[1], s[2]];
  }

  lemma FourCodes(s: string)
    requires FourBytes(s)
    ensures var c := CodePoint(s); c.used == 4 && 0x10000 <= c.cp <= 0x10FFFF && EncodeUtf8(c.cp) == s[..4]
  {
    hide EncodeUtf8;
    var a, b, c, d := s[0] as int - 0xF0, s[1] as int - 0x80, s[2] as int - 0x80, s[3] as int - 0x80;
    assert CodePoint(s) == Scalar(a * 0x40000 + b * 4096 + c * 64 + d, 4);
    Encode4(a, b, c, d);
    assert s[..4] == [s[0], s[1], s[2], s[3]];
  }

  // ---------- Strings ----------

  function Shift(r: Scan, n: nat): Scan { Scan(r.ok, r.used + n) }

  predicate Plain(c: char) { c != '\"' && c != '\\' }

  lemma {:induction false} PlainSpan(cs: string, rest: string)
    requires forall i | 0 <= i < |cs| :: Plain(cs[i])
    ensures StringSpan(cs + rest) == Shift(StringSpan(rest), |cs|)
    decreases |cs|
  {
    if cs == [] {
      assert cs + rest == rest;
    } else {
      assert (cs + rest)[1..] == cs[1..] + rest;
      PlainSpan(cs[1..], rest);
    }
  }

  lemma PairSpan(c: char, rest: string)
    ensures StringSpan(['\\', c] + rest) == Shift(StringSpan(rest), 2)
  {
    assert (['\\', c] + rest)[2..] == rest;
  }

  lemma EscapeSpan(cp: nat, rest: string)
    ensures StringSpan(UnicodeEscape(cp) + rest) == Shift(StringSpan(rest), |UnicodeEscape(cp)|)
  {
    hide StringSpan;
    if cp < 0x10000 {
      HexSpan(cp, rest);
    } else {
      var hi, lo := (cp - 0x10000) / 1024 + 0xD800, (cp - 0x10000) % 1024 + 0xDC00;
      HexSpan(lo, rest);
      HexSpan(hi, "\\u" + Hex16(lo) + rest);
      assert UnicodeEscape(cp) + rest == "\\u" + Hex16(hi) + ("\\u" + Hex16(lo) + rest);
    }
  }

  lemma HexSpan(x: nat, rest: string)
    ensures StringSpan("\\u" + Hex16(x) + rest) == Shift(StringSpan(rest), 6)
  {
    hide StringSpan;
    assert "\\u" + Hex16(x) + rest == ['\\', 'u'] + (Hex16(x) + rest);
    PairSpan('u', Hex16(x) + rest);
    PlainSpan(Hex16(x), rest);
  }

  lemma EscapeUnescaped(cp: nat, rest: string)
    requires IsScalar(cp)
    ensures Unescape(UnicodeEscape(cp) + rest) == Prefixed(EncodeUtf8(cp), Unescape(rest))
  {
    hide UnicodeAt, UnicodeEscape, EncodeUtf8;
    var e := UnicodeEscape(cp);
    EscapeRead(cp, rest);
    assert (e + rest)[0] == e[..2][0] && (e + rest)[1] == e[..2][1] by { assert |e| >= 2 by { EscapeLong(cp); } }
    assert (e + rest)[2..][|e| - 2..] == rest && (e + rest)[|e|..] == rest;
  }

  lemma EscapeLong(cp: nat)
    ensures |UnicodeEscape(cp)| >= 6
  {
  }

  /** One character: what is printed for it is scanned over and read back as its bytes. */
  lemma UnitRead(s: string, rest: string)
    requires CharLength(s) > 0
    ensures var u := QuoteUnit(s);
            && u.used == CharLength(s)
            && StringSpan(u.text + rest) == Shift(StringSpan(rest), |u.text|)
            && Unescape(u.text + rest) == Prefixed(s[..u.used], Unescape(rest))
  {
    hide CodePoint, UnicodeEscape, EncodeUtf8, StringSpan, Unescape;
    CharacterCodes(s);
    var short := ShortEscape(s[0]);
    if short != ' ' {
      assert CharLength(s) == 1;
      PairSpan(short, rest);
      ShortRead(s[0], rest);
      assert s[..1] == [s[0]];
    } else {
      var cp := CodePoint(s).cp;
      if 0x20 <= cp < 0x80 {
        assert s[..1] == [s[0]] == [cp as char];
        PlainSpan([s[0]], rest);
        PlainRead(s[0], rest);
      } else {
        EscapeSpan(cp, rest);
        EscapeUnescaped(cp, rest);
      }
    }
  }

  lemma ShortRead(c: char, rest: string)
    requires ShortEscape(c) != ' '
    ensures Unescape(['\\', ShortEscape(c)] + rest) == Prefixed([c], Unescape(rest))
  {
    var s := ['\\', ShortEscape(c)] + rest;
    assert s[2..] == rest;
    assert Escaped(ShortEscape(c)) == Some(c);
  }

  lemma PlainRead(c: char, rest: string)
    requires Plain(c)
    ensures Unescape([c] + rest) == Prefixed([c], Unescape(rest))
  {
    assert ([c] + rest)[1..] == rest;
  }

  lemma {:induction false} BodyRead(s: string, rest: string)
    requires Utf8(s)
    ensures StringSpan(QuotedBody(s) + rest) == Shift(StringSpan(rest), |QuotedBody(s)|)
    ensures Unescape(QuotedBody(s) + rest) == Prefixed(s, Unescape(rest))
    decreases |s|
  {
    hide StringSpan, Unescape, QuoteUnit;
    if s == [] {
      assert QuotedBody(s) + rest == rest;
      if Unescape(rest).Some? { assert [] + Unescape(rest).value == Unescape(rest).value; }
    } else {
      var u := QuoteUnit(s);
      var tail := s[u.used..];
      UnitRead(s, QuotedBody(tail) + rest);
      BodyRead(tail, rest);
      assert QuotedBody(s) + rest == u.text + (QuotedBody(tail) + rest);
      var r := Unescape(rest);
      if r.Some? { assert s[..u.used] + (tail + r.value) == s + r.value; }
    }
  }

  lemma TokenIs(kind: Kind, text: string, rest: string)
    requires text != [] && !Blank(text[0]) && kind != Comment && Lex(text + rest) == Lexeme(kind, |text|)
    ensures ReadToken(text + rest) == Token(kind, text, rest) == NextToken(text + rest)
  {
    hide Lex;
    var s := text + rest;
    assert SkipBlanks(s) == s && s[..|text|] == text && s[|text|..] == rest;
  }

  lemma StringLexed(s: string, rest: string)
    requires Utf8(s)
    ensures Lex(Quoted(s) + rest) == Lexeme(String, |Quoted(s)|)
  {
    hide StringSpan, Unescape, QuotedBody;
    BodyRead(s, "\"" + rest);
    ClosingQuote(rest);
    assert (Quoted(s) + rest)[1..] == QuotedBody(s) + ("\"" + rest);
  }

  /** The string token ends at the printed closing quote, and its value is the string. */
  lemma StringRead(s: string, rest: string)
    requires Utf8(s)
    ensures ReadToken(Quoted(s) + rest) == Token(String, Quoted(s), rest) == NextToken(Quoted(s) + rest)
    ensures StringValue(Quoted(s)) == Some(s)
  {
    hide StringSpan, Unescape, QuotedBody, Lex;
    var b, q := QuotedBody(s), Quoted(s);
    StringLexed(s, rest);
    TokenIs(String, q, rest);
    assert q[1..|q| - 1] == b == b + [];
    BodyRead(s, []);
    NothingLeft();
    assert s + [] == s;
  }

  lemma ClosingQuote(rest: string)
    ensures StringSpan("\"" + rest) == Scan(true, 1)
  {
  }

  lemma NothingLeft()
    ensures Unescape([]) == Some([])
  {
  }

  // ---------- Numbers ----------

  /** What may follow a value: the end of the text, a mark, a comment or a blank. */
  predicate Ends(rest: string) {
    rest == [] || rest[0] == ',' || rest[0] == ']' || rest[0] == '}' || rest[0] == '/' || rest[0] == '\'' || Blank(rest[0])
  }

  lemma {:induction false} DecimalRead(n: nat)
    ensures Decimal(n) != [] && Digits(Decimal(n)) && Numeral(Decimal(n)) == n
  {
    var d := Decimal(n);
    if n < 10 {
      assert d[..0] == [] && Numeral(d[..0]) == 0;
    } else {
      DecimalRead(n / 10);
      assert d[..|d| - 1] == Decimal(n / 10);
    }
  }

  lemma {:induction false} SpanDigits(ds: string, rest: string)
    requires Digits(ds) && Ends(rest)
    ensures Span(ds + rest) == |ds|
    decreases |ds|
  {
    if ds == [] {
      assert ds + rest == rest;
    } else {
      assert (ds + rest)[1..] == ds[1..] + rest;
      SpanDigits(ds[1..], rest);
    }
  }

  lemma NumberSpanDigits(ds: string, rest: string)
    requires Digits(ds) && Ends(rest)
    ensures NumberSpan(ds + rest) == |ds|
  {
    hide Span;
    SpanDigits(ds, rest);
    assert (ds + rest)[|ds|..] == rest;
    assert rest[0..] == rest;
  }

  lemma IntegerToken(i: int, rest: string)
    requires Ends(rest)
    ensures Integer(i) != [] && NextToken(Integer(i) + rest) == Token(Number, Integer(i), rest)
  {
    hide NumberSpan, Decimal;
    var ds := Decimal(if i < 0 then -i else i);
    DecimalRead(if i < 0 then -i else i);
    var s := Integer(i) + rest;
    var t := Integer(i)[1..];
    assert s[1..] == t + rest;
    assert i < 0 ==> t == ds;
    NumberSpanDigits(t, rest);
    assert Integer(i)[0] == s[0];
    assert Lex(s) == Lexeme(Number, |Integer(i)|);
    TokenIs(Number, Integer(i), rest);
  }

  lemma IntegerRead(i: int)
    requires -MAX_INT64 <= i <= MAX_UINT64
    ensures Integer(i) != [] && NumberValue(Integer(i)) == if i > MAX_INT then UInt(i) else Int(i)
  {
    hide Decimal;
    DecimalRead(if i < 0 then -i else i);
    if i < 0 { assert Integer(i)[1..] == Decimal(-i); }
  }

  // ---------- Tokens ----------

  function MarkKind(c: char): Kind {
    match c
    case '{' => ObjectBegin case '}' => ObjectEnd case '[' => ArrayBegin case ']' => ArrayEnd
    case ',' => Separator case ':' => MemberSeparator
    case _ => Error
  }

  lemma Mark(c: char, rest: string)
    requires MarkKind(c) != Error
    ensures ReadToken([c] + rest) == Token(MarkKind(c), [c], rest) == NextToken([c] + rest)
  {
    assert Lex([c] + rest) == Lexeme(MarkKind(c), 1);
    hide Lex;
    TokenIs(MarkKind(c), [c], rest);
  }

  function WordKind(w: string): Kind { if w == "null" then NullWord else if w == "true" then TrueWord else FalseWord }

  lemma WordRead(w: string, rest: string)
    requires w == "null" || w == "true" || w == "false"
    ensures NextToken(w + rest) == Token(WordKind(w), w, rest)
  {
    WordLexed(w, rest);
    hide Lex;
    TokenIs(WordKind(w), w, rest);
  }

  lemma WordLexed(w: string, rest: string)
    requires w == "null" || w == "true" || w == "false"
    ensures Lex(w + rest) == Lexeme(WordKind(w), |w|)
  {
    assert (w + rest)[1..] == w[1..] + rest;
    assert w[1..] <= (w + rest)[1..];
    if w == "null" { assert w[1..] == "ull"; } else if w == "true" { assert w[1..] == "rue"; } else { assert w[1..] == "alse"; }
  }

  // ---------- Values ----------

  lemma {:induction false} LessIsStrict(a: string, b: string)
    requires Less(a, b)
    ensures a != b && !Less(b, a)
    decreases |a|
  {
    if a != [] && a[0] == b[0] { LessIsStrict(a[1..], b[1..]); }
  }

  /** A name after all others is stored at the end. */
  lemma {:induction false} PutLast(ms: seq<Member>, name: string, v: Value)
    requires forall i | 0 <= i < |ms| :: Less(ms[i].name, name)
    ensures Put(ms, name, v) == ms + [Member(name, v)]
    decreases |ms|
  {
    if ms != [] {
      LessIsStrict(ms[0].name, name);
      PutLast(ms[1..], name, v);
      assert [ms[0]] + (ms[1..] + [Member(name, v)]) == ms + [Member(name, v)];
    }
  }

  /** `Refused`, or the value and what is left. */
  ghost function Expected(deep: bool, v: Value, rest: string): Parsed {
    if deep then Thrown else Ok(v, rest)
  }

  /** Reading what the writer printed: the value comes back, and exactly the printed text is taken, if and
      only if the nesting is within the limit. */
  lemma {:induction false} RoundTrip(v: Value, size: nat, rest: string)
    requires Writable(v) && Ends(rest) && size > 0
    ensures ParseValue(Text(v) + rest, size) == Expected(size + Depth(v) - 1 > STACK_LIMIT, Canonical(v), rest)
    decreases v, 1
  {
    hide NextToken, ParseArray, ParseMembers, StringValue, NumberValue, Quoted, Integer, Decimal, ParseValue;
    ValueByToken(Text(v) + rest, size);
    match v
    case Null => WordRead("null", rest);
    case Bool(b) => WordRead(if b then "true" else "false", rest);
    case Int(i) => IntegerToken(i, rest); IntegerRead(i);
    case UInt(u) => IntegerToken(u, rest); IntegerRead(u); Unsigned(u);
    case Str(s) => StringRead(s, rest);
    case Arr(items) => ArrayTrip(items, size, rest);
    case Obj(members) => ObjectTrip(members, size, rest);
    case Real(_) =>
  }

  lemma ValueByToken(s: string, size: nat)
    ensures ParseValue(s, size) ==
            var t := NextToken(s);
            if size > STACK_LIMIT then Thrown
            else
              match t.kind
              case ObjectBegin => ParseMembers(t.rest, size, [], [])
              case ArrayBegin => ParseArray(t.rest, size)
              case Number => Ok(NumberValue(t.text), t.rest)
              case String => (match StringValue(t.text) case None => Bad case Some(x) => Ok(Str(x), t.rest))
              case TrueWord => Ok(Bool(true), t.rest)
              case FalseWord => Ok(Bool(false), t.rest)
              case NullWord => Ok(Null, t.rest)
              case _ => Bad
  {
    hide NextToken, ParseArray, ParseMembers, StringValue, NumberValue;
  }

  lemma Unsigned(u: nat)
    ensures Integer(u) == Decimal(u)
  {
  }

  lemma ArrayStart(inner: string, size: nat)
    ensures ParseValue(['['] + inner, size) == if size > STACK_LIMIT then Thrown else ParseArray(inner, size)
  {
    hide NextToken, ParseMembers, ParseArray, StringValue, NumberValue;
    Mark('[', inner);
  }

  lemma ArrayTrip(items: seq<Value>, size: nat, rest: string)
    requires Writable(Arr(items)) && size > 0
    ensures ParseValue(Text(Arr(items)) + rest, size) ==
            Expected(size + ItemsDepth(items) > STACK_LIMIT, Arr(CanonicalItems(items)), rest)
    decreases items, 2
  {
    hide ParseValue, ParseItems, ItemsText, ItemsDepth, CanonicalItems;
    var inner := ItemsText(items) + "]" + rest;
    assert Text(Arr(items)) + rest == ['['] + inner;
    ArrayStart(inner, size);
    NoItems([]);
    if items == [] {
      EmptyList();
      EmptyArray(rest);
      assert inner == [']'] + rest;
    } else {
      ItemsTrip(items, size, [], rest);
      assert [] + CanonicalItems(items) == CanonicalItems(items);
      FirstOfItems(items);
      assert inner[0] == ItemsText(items)[0];
      assert SkipBlanks(inner) == inner;
    }
  }

  lemma EmptyArray(rest: string)
    ensures SkipBlanks([']'] + rest) == [']'] + rest && ([']'] + rest)[1..] == rest
  {
  }

  lemma EmptyList()
    ensures ItemsText([]) == "" && MembersText([]) == ""
  {
  }

  /** No value begins with a blank or a closing bracket. */
  lemma FirstOf(v: Value)
    requires Writable(v)
    ensures Text(v) != [] && !Blank(Text(v)[0]) && Text(v)[0] != ']'
  {
    hide Decimal;
    match v
    case Int(i) => FirstOfInteger(i);
    case UInt(u) => FirstOfInteger(u);
    case _ =>
  }

  lemma FirstOfInteger(i: int)
    ensures Integer(i) != [] && (Integer(i)[0] == '-' || IsDigit(Integer(i)[0]))
    ensures i >= 0 ==> Integer(i) == Decimal(i)
  {
    DecimalRead(if i < 0 then -i else i);
  }

  lemma FirstOfItems(items: seq<Value>)
    requires items != [] && Writable(items[0])
    ensures var t := ItemsText(items); t != [] && !Blank(t[0]) && t[0] != ']'
  {
    hide Text, Writable;
    FirstOf(items[0]);
  }

  lemma ItemsSplit(items: seq<Value>, acc: seq<Value>, rest: string)
    requires items != []
    ensures var v, tail := items[0], items[1..];
            && ItemsText(items) + "]" + rest ==
               Text(v) + (if tail == [] then [']'] + rest else [','] + (ItemsText(tail) + "]" + rest))
            && ItemsDepth(items) == Max(Depth(v), ItemsDepth(tail))
            && acc + CanonicalItems(items) == acc + [Canonical(v)] + CanonicalItems(tail)
  {
    ItemsTextSplit(items, rest);
    CanonicalItemsSplit(items, acc);
    hide Text, Depth, Canonical, ItemsText, CanonicalItems;
  }

  lemma ItemsTextSplit(items: seq<Value>, rest: string)
    requires items != []
    ensures var v, tail := items[0], items[1..];
            ItemsText(items) + "]" + rest ==
            Text(v) + (if tail == [] then [']'] + rest else [','] + (ItemsText(tail) + "]" + rest))
  {
    hide Text;
    var v, tail := items[0], items[1..];
    assert ItemsText(items) == if tail == [] then Text(v) else Text(v) + "," + ItemsText(tail);
    hide ItemsText;
    Ending(Text(v), ItemsText(tail), "]", rest);
  }

  /** Where the brackets of a concatenation go. */
  lemma Ending(v: string, more: string, close: string, rest: string)
    ensures v + close + rest == v + (close + rest)
    ensures v + "," + more + close + rest == v + ([','] + (more + close + rest))
  {
  }

  lemma CanonicalItemsSplit(items: seq<Value>, acc: seq<Value>)
    requires items != []
    ensures acc + CanonicalItems(items) == acc + [Canonical(items[0])] + CanonicalItems(items[1..])
  {
    hide Canonical;
  }

  /** One item and the token after it. */
  lemma ItemTrip(v: Value, size: nat, acc: seq<Value>, c: char, rest: string)
    requires c == ',' || c == ']'
    requires ParseValue(Text(v) + ([c] + rest), size + 1) ==
             Expected(size + Depth(v) > STACK_LIMIT, Canonical(v), [c] + rest)
    ensures ParseItems(Text(v) + ([c] + rest), size, acc) ==
            if size + Depth(v) > STACK_LIMIT then Thrown
            else if c == ']' then Ok(Arr(acc + [Canonical(v)]), rest)
            else ParseItems(rest, size, acc + [Canonical(v)])
  {
    hide NextToken, ParseValue, ParseItems, Text, Canonical, Depth;
    Mark(c, rest);
    ItemsByStep(Text(v) + ([c] + rest), size, acc);
  }

  lemma {:induction false} ItemsTrip(items: seq<Value>, size: nat, acc: seq<Value>, rest: string)
    requires items != [] && forall i | 0 <= i < |items| :: Writable(items[i])
    ensures ParseItems(ItemsText(items) + "]" + rest, size, acc) ==
            Expected(size + ItemsDepth(items) > STACK_LIMIT, Arr(acc + CanonicalItems(items)), rest)
    decreases items, 0
  {
    hide ParseValue, ParseItems, Text, Writable, Canonical, Depth, ItemsText, ItemsDepth, CanonicalItems;
    var v, tail := items[0], items[1..];
    ItemsSplit(items, acc, rest);
    if tail == [] {
      RoundTrip(v, size + 1, [']'] + rest);
      ItemTrip(v, size, acc, ']', rest);
      NoItems(acc + [Canonical(v)]);
    } else {
      var more := ItemsText(tail) + "]" + rest;
      RoundTrip(v, size + 1, [','] + more);
      ItemTrip(v, size, acc, ',', more);
      ItemsTrip(tail, size, acc + [Canonical(v)], rest);
    }
  }

  lemma NoItems(acc: seq<Value>)
    ensures ItemsDepth([]) == 0 && acc + CanonicalItems([]) == acc
  {
  }

  lemma ObjectTrip(members: seq<Member>, size: nat, rest: string)
    requires Writable(Obj(members)) && size > 0
    ensures ParseValue(Text(Obj(members)) + rest, size) ==
            Expected(size + MembersDepth(members) > STACK_LIMIT, Obj(CanonicalMembers(members)), rest)
    decreases members, 2
  {
    hide ParseValue, ParseMembers, MembersText, CanonicalMembers, MembersDepth;
    var inner := MembersText(members) + "}" + rest;
    assert Text(Obj(members)) + rest == ['{'] + inner;
    ObjectStart(inner, size);
    NoMembers([]);
    if members == [] {
      EmptyList();
      assert inner == ['}'] + rest;
      EmptyObject(rest, size);
    } else {
      MembersTrip(members, size, [], [], rest);
      assert [] + CanonicalMembers(members) == CanonicalMembers(members);
    }
  }

  lemma ObjectStart(inner: string, size: nat)
    ensures ParseValue(['{'] + inner, size) == if size > STACK_LIMIT then Thrown else ParseMembers(inner, size, [], [])
  {
    hide NextToken, ParseMembers, ParseArray, StringValue, NumberValue;
    Mark('{', inner);
  }

  lemma EmptyObject(rest: string, size: nat)
    ensures ParseMembers(['}'] + rest, size, [], []) == Ok(Obj([]), rest)
  {
    hide NextToken, ParseValue, StringValue;
    Mark('}', rest);
  }

  /** One member and the token after it. */
  lemma MemberTrip(m: Member, size: nat, acc: seq<Member>, name: string, c: char, rest: string)
    requires Utf8(m.name) && |m.name| < NAME_LIMIT && (c == ',' || c == '}')
    requires forall i | 0 <= i < |acc| :: Less(acc[i].name, m.name)
    requires ParseValue(Text(m.value) + ([c] + rest), size + 1) ==
             Expected(size + Depth(m.value) > STACK_LIMIT, Canonical(m.value), [c] + rest)
    ensures var acc' := acc + [Member(m.name, Canonical(m.value))];
            ParseMembers(MemberText(m) + ([c] + rest), size, acc, name) ==
            if size + Depth(m.value) > STACK_LIMIT then Thrown
            else if c == '}' then Ok(Obj(acc'), rest)
            else ParseMembers(rest, size, acc', m.name)
  {
    hide NextToken, ParseValue, Text, Canonical, Depth, StringValue, Quoted, Put, ReadToken;
    var value := Text(m.value) + ([c] + rest);
    StringRead(m.name, ":" + value);
    Mark(':', value);
    Mark(c, rest);
    assert MemberText(m) + ([c] + rest) == Quoted(m.name) + (":" + value);
    PutLast(acc, m.name, Canonical(m.value));
  }

  lemma MembersSplit(members: seq<Member>, acc: seq<Member>, rest: string)
    requires members != []
    ensures var m, tail := members[0], members[1..];
            && MembersText(members) + "}" + rest ==
               MemberText(m) + (if tail == [] then ['}'] + rest else [','] + (MembersText(tail) + "}" + rest))
            && MembersDepth(members) == Max(Depth(m.value), MembersDepth(tail))
            && acc + CanonicalMembers(members) == acc + [Member(m.name, Canonical(m.value))] + CanonicalMembers(tail)
  {
    MembersTextSplit(members, rest);
    CanonicalSplit(members, acc);
    hide MemberText, Depth, Canonical, MembersText, CanonicalMembers;
  }

  lemma MembersTextSplit(members: seq<Member>, rest: string)
    requires members != []
    ensures var m, tail := members[0], members[1..];
            MembersText(members) + "}" + rest ==
            MemberText(m) + (if tail == [] then ['}'] + rest else [','] + (MembersText(tail) + "}" + rest))
  {
    hide MemberText;
    var m, tail := members[0], members[1..];
    assert MembersText(members) == if tail == [] then MemberText(m) else MemberText(m) + "," + MembersText(tail);
    hide MembersText;
    Ending(MemberText(m), MembersText(tail), "}", rest);
  }

  lemma CanonicalSplit(members: seq<Member>, acc: seq<Member>)
    requires members != []
    ensures acc + CanonicalMembers(members) ==
            acc + [Member(members[0].name, Canonical(members[0].value))] + CanonicalMembers(members[1..])
  {
    hide Canonical;
  }

  lemma NoMembers(acc: seq<Member>)
    ensures MembersDepth([]) == 0 && acc + CanonicalMembers([]) == acc
  {
  }

  lemma {:induction false} MembersTrip(members: seq<Member>, size: nat, acc: seq<Member>, name: string, rest: string)
    requires members != [] && Sorted(members)
    requires forall i | 0 <= i < |members| ::
               Utf8(members[i].name) && |members[i].name| < NAME_LIMIT && Writable(members[i].value)
    requires forall i, j | 0 <= i < |acc| && 0 <= j < |members| :: Less(acc[i].name, members[j].name)
    ensures ParseMembers(MembersText(members) + "}" + rest, size, acc, name) ==
            Expected(size + MembersDepth(members) > STACK_LIMIT, Obj(acc + CanonicalMembers(members)), rest)
    decreases members, 0
  {
    hide ParseValue, ParseMembers, Text, Writable, Canonical, Depth, MemberText, Less, Utf8;
    hide MembersText, MembersDepth, CanonicalMembers;
    var m, tail := members[0], members[1..];
    MembersSplit(members, acc, rest);
    if tail == [] {
      RoundTrip(m.value, size + 1, ['}'] + rest);
      MemberTrip(m, size, acc, name, '}', rest);
      NoMembers(acc + [Member(m.name, Canonical(m.value))]);
    } else {
      var more := MembersText(tail) + "}" + rest;
      RoundTrip(m.value, size + 1, [','] + more);
      MemberTrip(m, size, acc, name, ',', more);
      MembersTrip(tail, size, acc + [Member(m.name, Canonical(m.value))], m.name, rest);
    }
  }

  /** Parsing the document that `FastWriter.Write` prints. */
  lemma DocumentRoundTrip(v: Value)
    requires Writable(v)
    ensures Parse(Text(v) + "\n") == if Depth(v) <= STACK_LIMIT then Ok(Canonical(v), "\n") else Thrown
    ensures Same(v, Canonical(v))
  {
    RoundTrip(v, 1, "\n");
    CanonicalIsSame(v);
  }

  lemma {:induction false} Utf8IsBytes(s: string)
    requires Utf8(s)
    ensures Bytes(s)
    decreases |s|
  {
    if s != [] {
      var n := CharLength(s);
      Utf8IsBytes(s[n..]);
      assert forall i | n <= i < |s| :: s[i] == s[n..][i - n];
      assert forall i | 0 <= i < n :: s[i] as int < 256;
    }
  }

  lemma {:induction false} WritableIsStored(v: Value)
    requires Writable(v)
    ensures Stored(v)
    decreases v
  {
    match v
    case Str(s) => Utf8IsBytes(s);
    case Arr(items) =>
      forall i | 0 <= i < |items| ensures Stored(items[i]) { WritableIsStored(items[i]); }
    case Obj(members) =>
      forall i | 0 <= i < |members| ensures Bytes(members[i].name) && Stored(members[i].value) {
        Utf8IsBytes(members[i].name);
        WritableIsStored(members[i].value);
      }
    case _ =>
  }

  /** The writer and the reader as objects: a value printed and read again is the same value. */
  method Transmit(writer: FastWriter, reader: Reader, v: Value) returns (st: Status, root: Value)
    requires Writable(v) && reader.Valid()
    modifies writer, reader
    ensures st == if Depth(v) <= STACK_LIMIT then Fine else Threw
    ensures st == Fine ==> Same(v, root)
  {
    WritableIsStored(v);
    var text := writer.Write(v);
    DocumentRoundTrip(v);
    st, root := reader.ReadDocument(text);
  }
}
