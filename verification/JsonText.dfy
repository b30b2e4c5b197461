/** JSON values, and the text that the fast writer prints for them. Strings hold bytes: characters
    below 256. */
module JsonText {
  import opened Arithmetic

  // ---------- Values ----------

  /** A number keeps the way it is stored: `Int` is a signed and `UInt` an unsigned 64-bit integer. A
      number that is not read as an integer is kept as its token. The members of an object are kept in
      the order of their names, which is the order of the map that stores them. */
  datatype Value =
    | Null | Bool(b: bool) | Int(i: int) | UInt(u: nat) | Real(token: string) | Str(s: string)
    | Arr(items: seq<Value>) | Obj(members: seq<Member>)
  datatype Member = Member(name: string, value: Value)

  const MAX_INT: int := 0x7FFF_FFFF
  const MAX_INT64: int := 0x7FFF_FFFF_FFFF_FFFF
  const MAX_UINT64: int := 0xFFFF_FFFF_FFFF_FFFF
  const NAME_LIMIT: nat := 0x4000_0000

  /** The order of names: byte by byte, a prefix comes first. */
  predicate Less(a: string, b: string) {
    if b == [] then false
    else if a == [] then true
    else if a[0] == b[0] then Less(a[1..], b[1..])
    else a[0] < b[0]
  }

  ghost predicate Sorted(ms: seq<Member>) {
    forall i, j | 0 <= i < j < |ms| :: Less(ms[i].name, ms[j].name)
  }

  /** Stores a value under a name; a value stored there before is replaced. */
  function Put(ms: seq<Member>, name: string, v: Value): seq<Member> {
    if ms == [] then [Member(name, v)]
    else if ms[0].name == name then [Member(name, v)] + ms[1..]
    else if Less(name, ms[0].name) then [Member(name, v)] + ms
    else [ms[0]] + Put(ms[1..], name, v)
  }

  /** How deep the value nests; a value without parts has depth 1. */
  function Depth(v: Value): (d: nat)
    ensures d > 0
  {
    match v
    case Arr(items) => 1 + ItemsDepth(items)
    case Obj(members) => 1 + MembersDepth(members)
    case _ => 1
  }

  function ItemsDepth(items: seq<Value>): nat {
    if items == [] then 0 else Max(Depth(items[0]), ItemsDepth(items[1..]))
  }

  function MembersDepth(members: seq<Member>): nat {
    if members == [] then 0 else Max(Depth(members[0].value), MembersDepth(members[1..]))
  }

  function Max(a: nat, b: nat): nat { if a < b then b else a }

  // ---------- UTF-8 (section 4 of RFC 3629) ----------

  predicate Between(c: char, lo: int, hi: int) { lo <= c as int <= hi }

  predicate Tail(c: char) { Between(c, 0x80, 0xBF) }

  predicate TwoBytes(s: string) { |s| >= 2 && Between(s[0], 0xC2, 0xDF) && Tail(s[1]) }

  predicate ThreeBytes(s: string) {
    |s| >= 3 && Tail(s[2]) &&
    if s[0] as int == 0xE0 then Between(s[1], 0xA0, 0xBF)
    else if s[0] as int == 0xED then Between(s[1], 0x80, 0x9F)
    else Between(s[0], 0xE1, 0xEF) && Tail(s[1])
  }

  predicate FourBytes(s: string) {
    |s| >= 4 && Tail(s[2]) && Tail(s[3]) &&
    if s[0] as int == 0xF0 then Between(s[1], 0x90, 0xBF)
    else if s[0] as int == 0xF4 then Between(s[1], 0x80, 0x8F)
    else Between(s[0], 0xF1, 0xF3) && Tail(s[1])
  }

  /** The length of the encoded character at the start of `s`; 0 if there is none. */
  function CharLength(s: string): (n: nat)
    ensures n <= |s|
  {
    if |s| >= 1 && Between(s[0], 0, 0x7F) then 1
    else if TwoBytes(s) then 2
    else if ThreeBytes(s) then 3
    else if FourBytes(s) then 4
    else 0
  }

  predicate Utf8(s: string) {
    s == [] || (CharLength(s) > 0 && Utf8(s[CharLength(s)..]))
  }

  // ---------- What the writer accepts ----------

  /** The values the round trip is about: integers of 64 bits above -2^63, strings in UTF-8, and names
      shorter than the reader's limit. */
  ghost predicate Writable(v: Value) {
    match v
    case Null => true
    case Bool(_) => true
    case Int(i) => -MAX_INT64 <= i <= MAX_INT64
    case UInt(u) => u <= MAX_UINT64
    case Real(_) => false
    case Str(s) => Utf8(s)
    case Arr(items) => forall i | 0 <= i < |items| :: Writable(items[i])
    case Obj(members) =>
      Sorted(members) &&
      forall i | 0 <= i < |members| ::
        Utf8(members[i].name) && |members[i].name| < NAME_LIMIT && Writable(members[i].value)
  }

  // ---------- The printed text ----------

  function Digit(d: nat): char
    requires d < 10
  {
    ('0' as int + d) as char
  }

  function Decimal(n: nat): string {
    if n < 10 then [Digit(n)] else Decimal(n / 10) + [Digit(n % 10)]
  }

  function Integer(i: int): string { if i < 0 then "-" + Decimal(-i) else Decimal(i) }

  /** The low 16 bits as four digits. */
  function Hex16(x: nat): (r: string)
    ensures |r| == 4
  {
    [HexDigit(x / 4096 % 16), HexDigit(x / 256 % 16), HexDigit(x / 16 % 16), HexDigit(x % 16)]
  }

  const REPLACEMENT: nat := 0xFFFD

  datatype Scalar = Scalar(cp: nat, used: nat)

  function Low6(c: char): nat { c as int % 64 }

  /** The code point at the start of a non-empty string, and how many bytes belong to it; ill-formed
      bytes give the replacement character. */
  function CodePoint(s: string): (r: Scalar)
    requires s != []
    ensures 0 < r.used <= |s|
  {
    var b := s[0] as int;
    if b < 0x80 then Scalar(b, 1)
    else if b < 0xE0 then
      if |s| < 2 then Scalar(REPLACEMENT, 1)
      else
        var cp := b % 32 * 64 + Low6(s[1]);
        Scalar(if cp < 0x80 then REPLACEMENT else cp, 2)
    else if b < 0xF0 then
      if |s| < 3 then Scalar(REPLACEMENT, 1)
      else
        var cp := b % 16 * 4096 + Low6(s[1]) * 64 + Low6(s[2]);
        Scalar(if 0xD800 <= cp <= 0xDFFF || cp < 0x800 then REPLACEMENT else cp, 3)
    else if b < 0xF8 then
      if |s| < 4 then Scalar(REPLACEMENT, 1)
      else
        var cp := b % 8 * 0x40000 + Low6(s[1]) * 4096 + Low6(s[2]) * 64 + Low6(s[3]);
        Scalar(if cp < 0x10000 then REPLACEMENT else cp, 4)
    else Scalar(REPLACEMENT, 1)
  }

  function UnicodeEscape(cp: nat): string {
    if cp < 0x10000 then "\\u" + Hex16(cp)
    else "\\u" + Hex16((cp - 0x10000) / 1024 + 0xD800) + "\\u" + Hex16((cp - 0x10000) % 1024 + 0xDC00)
  }

  /** The letter of a short escape; a blank for every other byte. */
  function ShortEscape(c: char): char {
    match c
    case '\"' => '\"'
    case '\\' => '\\'
    case _ =>
      if c as int == 8 then 'b' else if c as int == 12 then 'f' else if c == '\n' then 'n'
      else if c == '\r' then 'r' else if c == '\t' then 't' else ' '
  }

  datatype Unit = Unit(text: string, used: nat)

  /** What is printed for the first character of a non-empty string. */
  function QuoteUnit(s: string): (r: Unit)
    requires s != []
    ensures 0 < r.used <= |s|
  {
    if ShortEscape(s[0]) != ' ' then Unit(['\\', ShortEscape(s[0])], 1)
    else
      var c := CodePoint(s);
      Unit(if 0x20 <= c.cp < 0x80 then [c.cp as char] else UnicodeEscape(c.cp), c.used)
  }

  function QuotedBody(s: string): string {
    if s == [] then [] else QuoteUnit(s).text + QuotedBody(s[QuoteUnit(s).used..])
  }

  function Quoted(s: string): string { "\"" + QuotedBody(s) + "\"" }

  /** The text printed for a value. */
  function Text(v: Value): string {
    match v
    case Null => "null"
    case Bool(b) => if b then "true" else "false"
    case Int(i) => Integer(i)
    case UInt(u) => Decimal(u)
    case Real(token) => token
    case Str(s) => Quoted(s)
    case Arr(items) => "[" + ItemsText(items) + "]"
    case Obj(members) => "{" + MembersText(members) + "}"
  }

  function ItemsText(items: seq<Value>): string {
    if items == [] then []
    else if |items| == 1 then Text(items[0])
    else Text(items[0]) + "," + ItemsText(items[1..])
  }

  function MemberText(m: Member): string { Quoted(m.name) + ":" + Text(m.value) }

  function MembersText(members: seq<Member>): string {
    if members == [] then []
    else if |members| == 1 then MemberText(members[0])
    else MemberText(members[0]) + "," + MembersText(members[1..])
  }
}
