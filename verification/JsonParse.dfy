/** What the reader makes of a text, with the settings a request body is read with: comments are
    allowed; single quotes, special floats and numeric names are not; values nest at most
    `STACK_LIMIT` deep. Every function looks at the text that is still to be read. */
module JsonParse {
  import opened Arithmetic
  import opened Wrappers
  import opened JsonText

  const STACK_LIMIT: nat := 1000
  const TWO_63: int := 0x8000_0000_0000_0000

  datatype Kind =
    | ObjectBegin | ObjectEnd | ArrayBegin | ArrayEnd | String | Number | TrueWord | FalseWord | NullWord
    | Separator | MemberSeparator | Comment | EndOfStream | Error

  datatype Token = Token(kind: Kind, text: string, rest: string)


  // ---------- Scanning ----------

  predicate Blank(c: char) { c == ' ' || c == '\t' || c == '\r' || c == '\n' }

  function SkipBlanks(s: string): (r: string)
    ensures |r| <= |s| && r == s[|s| - |r|..]
    ensures r == [] || !Blank(r[0])
  {
    if s != [] && Blank(s[0]) then SkipBlanks(s[1..]) else s
  }

  /** The number of digits at the start. */
  function Span(s: string): (n: nat)
    ensures n <= |s| && (n == |s| || !IsDigit(s[n])) && forall i | 0 <= i < n :: IsDigit(s[i])
  {
    if s != [] && IsDigit(s[0]) then 1 + Span(s[1..]) else 0
  }

  function FractionSpan(s: string): (n: nat)
    ensures n <= |s|
  {
    if s != [] && s[0] == '.' then 1 + Span(s[1..]) else 0
  }

  predicate Signed(s: string) { s != [] && (s[0] == '+' || s[0] == '-') }

  function ExponentSpan(s: string): (n: nat)
    ensures n <= |s|
  {
    if s == [] || (s[0] != 'e' && s[0] != 'E') then 0
    else if Signed(s[1..]) then 2 + Span(s[2..])
    else 1 + Span(s[1..])
  }

  /** How much of `s` continues a number whose first character has been read. */
  function NumberSpan(s: string): (n: nat)
    ensures n <= |s|
  {
    var a := Span(s);
    var b := a + FractionSpan(s[a..]);
    b + ExponentSpan(s[b..])
  }

  datatype Scan = Scan(ok: bool, used: nat)

  /** The end of a string whose opening quote has been read. */
  function StringSpan(s: string): (r: Scan)
    ensures r.used <= |s| && (r.ok ==> r.used > 0)
  {
    if s == [] then Scan(false, 0)
    else if s[0] == '\\' then
      if |s| == 1 then Scan(false, 1)
      else var r := StringSpan(s[2..]); Scan(r.ok, r.used + 2)
    else if s[0] == '\"' then Scan(true, 1)
    else var r := StringSpan(s[1..]); Scan(r.ok, r.used + 1)
  }

  /** The end of a C comment whose opening has been read. */
  function BlockSpan(s: string): (r: Scan)
    ensures r.used <= |s|
  {
    if |s| < 2 then Scan(|s| == 1 && s[0] == '/', |s|)
    else if s[0] == '*' && s[1] == '/' then Scan(true, 2)
    else var r := BlockSpan(s[1..]); Scan(r.ok, r.used + 1)
  }

  /** The length of the line whose opening has been read, with its end. */
  function LineSpan(s: string): (n: nat)
    ensures n <= |s|
  {
    if s == [] then 0
    else if s[0] == '\n' then 1
    else if s[0] == '\r' then if |s| > 1 && s[1] == '\n' then 2 else 1
    else 1 + LineSpan(s[1..])
  }

  /** A comment whose first character has been read. */
  function CommentSpan(s: string): (r: Scan)
    ensures r.used <= |s|
  {
    if s == [] then Scan(false, 0)
    else if s[0] == '*' then var r := BlockSpan(s[1..]); Scan(r.ok, r.used + 1)
    else if s[0] == '/' then Scan(true, 1 + LineSpan(s[1..]))
    else Scan(false, 1)
  }

  datatype Lexeme = Lexeme(kind: Kind, used: nat)

  /** The rest of a word whose first letter has been read; nothing more is taken if it is another word. */
  function Word(s: string, letters: string, kind: Kind): (r: Lexeme)
    ensures 0 < r.used <= |s| + 1
  {
    if letters <= s then Lexeme(kind, 1 + |letters|) else Lexeme(Error, 1)
  }

  /** The token at the start of a text that does not begin with a blank. */
  function Lex(s: string): (r: Lexeme)
    ensures r.used <= |s| && (s != [] ==> r.used > 0)
    ensures (r.kind == String ==> r.used >= 2) && (r.kind == Number ==> r.used >= 1)
    ensures s == [] ==> r.kind == EndOfStream
  {
    if s == [] then Lexeme(EndOfStream, 0)
    else
      var t := s[1..];
      match s[0]
      case '{' => Lexeme(ObjectBegin, 1)
      case '}' => Lexeme(ObjectEnd, 1)
      case '[' => Lexeme(ArrayBegin, 1)
      case ']' => Lexeme(ArrayEnd, 1)
      case '\"' => var r := StringSpan(t); Lexeme(if r.ok then String else Error, 1 + r.used)
      case '\'' => var r := CommentSpan(t); Lexeme(if r.ok then Comment else Error, 1 + r.used)
      case '/' => var r := CommentSpan(t); Lexeme(if r.ok then Comment else Error, 1 + r.used)
      case '-' => if t != [] && t[0] == 'I' then Lexeme(Error, 2) else Lexeme(Number, 1 + NumberSpan(t))
      case 't' => Word(t, "rue", TrueWord)
      case 'f' => Word(t, "alse", FalseWord)
      case 'n' => Word(t, "ull", NullWord)
      case ',' => Lexeme(Separator, 1)
      case ':' => Lexeme(MemberSeparator, 1)
      case c => if IsDigit(c) then Lexeme(Number, 1 + NumberSpan(t)) else Lexeme(if c as int == 0 then EndOfStream else Error, 1)
  }

  /** The next token: blanks are skipped first. */
  function ReadToken(s: string): (t: Token)
    ensures |t.rest| <= |s|
    ensures t.kind != EndOfStream ==> |t.rest| < |s|
    ensures t.kind == String ==> |t.text| >= 2
    ensures t.kind == Number ==> |t.text| >= 1
  {
    hide SkipBlanks, Lex;
    var b := SkipBlanks(s);
    var l := Lex(b);
    Token(l.kind, b[..l.used], b[l.used..])
  }

  /** The given token, or the first one after the comments that start with it. */
  function PastComments(t: Token): (r: Token)
    ensures r.kind != Comment && |r.rest| <= |t.rest|
    ensures r.kind != EndOfStream ==> r == t || |r.rest| < |t.rest|
    ensures r.kind == String ==> |r.text| >= 2 || r == t
    ensures r.kind == Number ==> |r.text| >= 1 || r == t
    decreases |t.rest|, if t.kind == Comment then 1 else 0
  {
    if t.kind != Comment then t
    else
      var u := ReadToken(t.rest);
      PastComments(u)
  }

  /** The next token that is not a comment. */
  function NextToken(s: string): (t: Token)
    ensures |t.rest| <= |s| && t.kind != Comment
    ensures t.kind != EndOfStream ==> |t.rest| < |s|
    ensures t.kind == String ==> |t.text| >= 2
    ensures t.kind == Number ==> |t.text| >= 1
  {
    hide PastComments, ReadToken;
    PastComments(ReadToken(s))
  }

  // ---------- Numbers ----------

  /** A number token is an integer exactly if it has nothing but digits after the sign and its size fits 64
      bits; -2^63 is still the result of negating 2^63 in 64 bits. Every other token is a double. */
  function NumberValue(token: string): Value
    requires token != []
  {
    var negative := token[0] == '-';
    var ds := if negative then token[1..] else token;
    if !Digits(ds) || Numeral(ds) > (if negative then TWO_63 else MAX_UINT64) then Real(token)
    else if negative then Int(-(Numeral(ds) as int))
    else if Numeral(ds) <= MAX_INT then Int(Numeral(ds))
    else UInt(Numeral(ds))
  }

  // ---------- Strings ----------

  /** The value of four hexadecimal digits. */
  function FourHex(s: string): (r: Option<nat>)
    ensures r.Some? ==> |s| >= 4 && r.value < 0x1_0000
  {
    if |s| < 4 then None
    else
      var (a, b, c, d) := (Unhex(s[0]), Unhex(s[1]), Unhex(s[2]), Unhex(s[3]));
      if a < 0 || b < 0 || c < 0 || d < 0 then None else Some(((a * 16 + b) * 16 + c) * 16 + d)
  }

  /** The code point after a `\u`: four digits, or a surrogate pair. */
  function UnicodeAt(s: string): (r: Option<Scalar>)
    ensures r.Some? ==> r.value.used <= |s| && r.value.cp <= 0x10FFFF
  {
    match FourHex(s)
    case None => None
    case Some(u) =>
      if !(0xD800 <= u <= 0xDBFF) then Some(Scalar(u, 4))
      else if |s| - 4 < 6 || s[4] != '\\' || s[5] != 'u' then None
      else
        match FourHex(s[6..])
        case None => None
        case Some(w) => Some(Scalar(0x10000 + u % 1024 * 1024 + w % 1024, 10))
  }

  function EncodeUtf8(cp: nat): string
    requires cp <= 0x10FFFF
  {
    if cp <= 0x7F then [cp as char]
    else if cp <= 0x7FF then [(0xC0 + cp / 64 % 32) as char, (0x80 + cp % 64) as char]
    else if cp <= 0xFFFF then
      [(0xE0 + cp / 4096 % 16) as char, (0x80 + cp / 64 % 64) as char, (0x80 + cp % 64) as char]
    else
      [(0xF0 + cp / 0x40000 % 8) as char, (0x80 + cp / 4096 % 64) as char, (0x80 + cp / 64 % 64) as char,
       (0x80 + cp % 64) as char]
  }

  /** The byte a short escape stands for; `None` if there is no such escape. */
  function Escaped(c: char): Option<char> {
    match c
    case '\"' => Some('\"')
    case '/' => Some('/')
    case '\\' => Some('\\')
    case 'b' => Some(8 as char)
    case 'f' => Some(12 as char)
    case 'n' => Some('\n')
    case 'r' => Some('\r')
    case 't' => Some('\t')
    case _ => None
  }

  function Prefixed(p: string, r: Option<string>): Option<string> {
    if r.Some? then Some(p + r.value) else None
  }

  /** The bytes between the quotes of a string token, with the escapes replaced. */
  function Unescape(s: string): Option<string>
    decreases |s|
  {
    if s == [] || s[0] == '\"' then Some([])
    else if s[0] != '\\' then Prefixed([s[0]], Unescape(s[1..]))
    else if |s| == 1 then None
    else if s[1] == 'u' then
      match UnicodeAt(s[2..])
      case None => None
      case Some(c) => Prefixed(EncodeUtf8(c.cp), Unescape(s[2 + c.used..]))
    else
      match Escaped(s[1])
      case None => None
      case Some(c) => Prefixed([c], Unescape(s[2..]))
  }

  function StringValue(token: string): Option<string>
    requires |token| >= 2
  {
    Unescape(token[1..|token| - 1])
  }

  // ---------- Values ----------

  datatype Parsed = Ok(value: Value, rest: string) | Bad | Thrown

  /** A value; `size` is the number of values being read, this one included. */
  function ParseValue(s: string, size: nat): (r: Parsed)
    ensures r.Ok? ==> |r.rest| < |s|
    decreases |s|, 1
  {
    var t := NextToken(s);
    if size > STACK_LIMIT then Thrown
    else
      match t.kind
      case ObjectBegin => ParseMembers(t.rest, size, [], [])
      case ArrayBegin => ParseArray(t.rest, size)
      case Number => Ok(NumberValue(t.text), t.rest)
      case String => (match StringValue(t.text) case None => Bad case Some(x) => Ok(Str(x), t.rest))
      case TrueWord => Ok(Bool(true), t.rest)
      case FalseWord => Ok(Bool(false), t.rest)
      case NullWord => Ok(Null, t.rest)
      case _ => Bad
  }

  /** An array whose opening bracket has been read. */
  function ParseArray(s: string, size: nat): (r: Parsed)
    ensures r.Ok? ==> |r.rest| < |s|
    decreases |s|, 3
  {
    var b := SkipBlanks(s);
    if b != [] && b[0] == ']' then Ok(Arr([]), b[1..]) else ParseItems(s, size, [])
  }

  /** The items of an array from some item on; `items` have been read. */
  function ParseItems(s: string, size: nat, items: seq<Value>): (r: Parsed)
    ensures r.Ok? ==> |r.rest| < |s|
    decreases |s|, 2
  {
    match ParseValue(s, size + 1)
    case Bad => Bad
    case Thrown => Thrown
    case Ok(v, rest) =>
      var t := NextToken(rest);
      if t.kind == Separator then ParseItems(t.rest, size, items + [v])
      else if t.kind == ArrayEnd then Ok(Arr(items + [v]), t.rest)
      else Bad
  }

  /** `ParseItems` one item at a time. */
  lemma ItemsByStep(s: string, size: nat, items: seq<Value>)
    ensures ParseItems(s, size, items) ==
            match ParseValue(s, size + 1)
            case Bad => Bad
            case Thrown => Thrown
            case Ok(v, rest) =>
              var t := NextToken(rest);
              if t.kind == Separator then ParseItems(t.rest, size, items + [v])
              else if t.kind == ArrayEnd then Ok(Arr(items + [v]), t.rest)
              else Bad
  {
    hide ParseValue, NextToken;
  }

  /** The members of an object from some name on; `name` is the name read before. */
  function ParseMembers(s: string, size: nat, members: seq<Member>, name: string): (r: Parsed)
    ensures r.Ok? ==> |r.rest| <= |s|
    decreases |s|, 2
  {
    var t := NextToken(s);
    if t.kind == ObjectEnd && name == [] then Ok(Obj(members), t.rest)
    else if t.kind != String then Bad
    else
      match StringValue(t.text)
      case None => Bad
      case Some(key) =>
        var colon := ReadToken(t.rest);
        if colon.kind != MemberSeparator then Bad
        else if |key| >= NAME_LIMIT then Thrown
        else
          match ParseValue(colon.rest, size + 1)
          case Bad => Bad
          case Thrown => Thrown
          case Ok(v, rest) =>
            var comma := ReadToken(rest);
            var end := PastComments(comma);
            if comma.kind != ObjectEnd && comma.kind != Separator && comma.kind != Comment then Bad
            else if end.kind == ObjectEnd then Ok(Obj(Put(members, key, v)), end.rest)
            else ParseMembers(end.rest, size, Put(members, key, v), key)
  }

  /** The whole document; what follows the value is not looked at. */
  function Parse(doc: string): Parsed { ParseValue(doc, 1) }
}
