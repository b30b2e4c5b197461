/** The fast writer as an object that appends to its document, proved against `JsonText`. */
module JsonWriter {
  import opened JsonText

  // ---------- Integers ----------

  const BUFFER_SIZE: nat := 25

  function Pow10(n: nat): nat { if n == 0 then 1 else 10 * Pow10(n - 1) }

  lemma TwentyDigits()
    ensures MAX_UINT64 < Pow10(20)
  {
    assert Pow10(5) == 100000;
    assert Pow10(10) == 100000 * Pow10(5);
    assert Pow10(15) == 100000 * Pow10(10);
    assert Pow10(20) == 100000 * Pow10(15);
  }

  /** Writes the digits backwards from the end of the buffer, after a terminator. Twenty digits, the
      terminator and a sign always fit. */
  method UintToString(value: nat, buffer: array<char>) returns (current: nat)
    requires value <= MAX_UINT64 && buffer.Length == BUFFER_SIZE
    modifies buffer
    ensures 0 < current < BUFFER_SIZE && buffer[current..] == Decimal(value) + [0 as char]
  {
    current := BUFFER_SIZE - 1;
    buffer[current] := 0 as char;
    var v: nat := value;
    ghost var room: nat := 20;
    TwentyDigits();
    ghost var tail := buffer[current..];
    assert tail == [0 as char];
    while true
      invariant 0 < room < current < BUFFER_SIZE && v < Pow10(room)
      invariant buffer[current..] == tail
      invariant Decimal(value) + [0 as char] == Decimal(v) + tail
      decreases room
    {
      current := current - 1;
      buffer[current] := Digit(v % 10);
      assert buffer[current..] == [Digit(v % 10)] + tail;
      if v / 10 == 0 {
        assert v < 10 && v % 10 == v && Decimal(v) == [Digit(v)];
        return;
      }
      assert Decimal(v) + tail == Decimal(v / 10) + ([Digit(v % 10)] + tail);
      tail := [Digit(v % 10)] + tail;
      v := v / 10;
      room := room - 1;
    }
  }

  /** The C string that starts at a position of the buffer. */
  method FromBuffer(buffer: array<char>, current: nat) returns (s: string)
    requires current < buffer.Length
    ensures s == buffer[current..][..|buffer[current..]| - 1]
  {
    s := buffer[current..buffer.Length - 1];
  }

  method IntToString(value: int) returns (s: string)
    requires -MAX_INT64 - 1 <= value <= MAX_INT64
    ensures s == Integer(value)
  {
    var buffer := new char[BUFFER_SIZE];
    var current;
    if value < 0 {
      current := UintToString(-value, buffer);
      ghost var digits := buffer[current..];
      current := current - 1;
      buffer[current] := '-';
      assert buffer[current..] == "-" + digits;
    } else {
      current := UintToString(value, buffer);
    }
    assert buffer[current..] == Integer(value) + [0 as char];
    s := FromBuffer(buffer, current);
  }

  method UnsignedToString(value: nat) returns (s: string)
    requires value <= MAX_UINT64
    ensures s == Decimal(value)
  {
    var buffer := new char[BUFFER_SIZE];
    var current := UintToString(value, buffer);
    s := FromBuffer(buffer, current);
  }

  // ---------- Strings ----------

  /** The writer's test for a byte that must not be printed as it is; plain characters are signed. */
  predicate RequiresQuoting(c: char) {
    var signed := if c as int < 128 then c as int else c as int - 256;
    c == '\\' || c == '\"' || signed < 32 || c as int < 0x80
  }

  /** Bytes from 128 on are negative for that test, so it holds of every byte. */
  method IsAnyCharRequiredQuoting(s: string) returns (r: bool)
    requires forall i | 0 <= i < |s| :: s[i] as int < 256
    ensures r == (s != [])
  {
    hide RequiresQuoting;
    var cur := 0;
    while cur < |s|
      invariant 0 <= cur <= |s| && forall i | 0 <= i < cur :: !RequiresQuoting(s[i])
    {
      if RequiresQuoting(s[cur]) { return true; }
      cur := cur + 1;
    }
    r := false;
    if s != [] { EveryByte(s[0]); }
  }

  lemma EveryByte(c: char)
    requires c as int < 256
    ensures RequiresQuoting(c)
  {
  }

  /** The code point at `pos`; `last` is the position of its last byte. */
  method Utf8ToCodepoint(s: string, pos: nat) returns (cp: nat, last: nat)
    requires pos < |s|
    ensures pos <= last < |s| && Scalar(cp, last - pos + 1) == CodePoint(s[pos..])
  {
    var first := s[pos] as int;
    ghost var t := s[pos..];
    assert t[0] == s[pos];
    last := pos;
    if first < 0x80 { return first, pos; }
    if first < 0xE0 {
      if |s| - pos < 2 { return REPLACEMENT, pos; }
      assert t[1] == s[pos + 1];
      cp := first % 32 * 64 + Low6(s[pos + 1]);
      last := pos + 1;
      if cp < 0x80 { cp := REPLACEMENT; }
      return;
    }
    if first < 0xF0 {
      if |s| - pos < 3 { return REPLACEMENT, pos; }
      assert t[1] == s[pos + 1] && t[2] == s[pos + 2];
      cp := first % 16 * 4096 + Low6(s[pos + 1]) * 64 + Low6(s[pos + 2]);
      last := pos + 2;
      if 0xD800 <= cp <= 0xDFFF { return REPLACEMENT, last; }
      if cp < 0x800 { cp := REPLACEMENT; }
      return;
    }
    if first < 0xF8 {
      if |s| - pos < 4 { return REPLACEMENT, pos; }
      assert t[1] == s[pos + 1] && t[2] == s[pos + 2] && t[3] == s[pos + 3];
      cp := first % 8 * 0x40000 + Low6(s[pos + 1]) * 4096 + Low6(s[pos + 2]) * 64 + Low6(s[pos + 3]);
      last := pos + 3;
      if cp < 0x10000 { cp := REPLACEMENT; }
      return;
    }
    return REPLACEMENT, pos;
  }

  lemma BodyStep(s: string, pos: nat)
    requires pos < |s|
    ensures var u := QuoteUnit(s[pos..]); QuotedBody(s[pos..]) == u.text + QuotedBody(s[pos + u.used..])
  {
    hide QuoteUnit;
    var u := QuoteUnit(s[pos..]);
    assert s[pos..][u.used..] == s[pos + u.used..];
  }

  /** The text for the character at `pos`, and the position of its last byte. */
  method QuoteCharacter(s: string, pos: nat) returns (text: string, last: nat)
    requires pos < |s|
    ensures pos <= last < |s| && Unit(text, last - pos + 1) == QuoteUnit(s[pos..])
  {
    hide CodePoint, Hex16;
    assert s[pos..][0] == s[pos];
    var short := ShortEscape(s[pos]);
    if short != ' ' { return ['\\', short], pos; }
    var cp;
    cp, last := Utf8ToCodepoint(s, pos);
    if cp < 0x80 && cp >= 0x20 {
      text := [cp as char];
    } else if cp < 0x10000 {
      text := "\\u" + Hex16(cp);
    } else {
      cp := cp - 0x10000;
      text := "\\u" + Hex16(cp / 1024 + 0xD800) + "\\u" + Hex16(cp % 1024 + 0xDC00);
    }
  }

  method ValueToQuotedStringN(s: string) returns (r: string)
    requires forall i | 0 <= i < |s| :: s[i] as int < 256
    ensures r == Quoted(s)
  {
    hide QuoteUnit;
    var quoting := IsAnyCharRequiredQuoting(s);
    if !quoting { return "\"" + s + "\""; }
    r := "\"";
    var c := 0;
    assert s[0..] == s;
    while c != |s|
      invariant 0 <= c <= |s|
      invariant r + QuotedBody(s[c..]) == "\"" + QuotedBody(s)
      decreases |s| - c
    {
      hide QuotedBody;
      BodyStep(s, c);
      var text, last := QuoteCharacter(s, c);
      assert r + (text + QuotedBody(s[last + 1..])) == (r + text) + QuotedBody(s[last + 1..]);
      r := r + text;
      c := last + 1;
    }
    assert s[c..] == [];
    r := r + "\"";
  }

  // ---------- The writer ----------

  predicate Bytes(s: string) { forall i | 0 <= i < |s| :: s[i] as int < 256 }

  /** Values the writer can hold: 64-bit integers, strings of bytes. */
  ghost predicate Stored(v: Value) {
    match v
    case Int(i) => -MAX_INT64 - 1 <= i <= MAX_INT64
    case UInt(u) => u <= MAX_UINT64
    case Str(s) => Bytes(s)
    case Arr(items) => forall i | 0 <= i < |items| :: Stored(items[i])
    case Obj(members) => forall i | 0 <= i < |members| :: Bytes(members[i].name) && Stored(members[i].value)
    case _ => true
  }

  class FastWriter {
    var document: string

    constructor ()
      ensures document == ""
    {
      document := "";
    }

    method WriteValue(value: Value)
      requires Stored(value)
      modifies this
      ensures document == old(document) + Text(value)
      decreases value
    {
      match value {
        case Null => document := document + "null";
        case Bool(b) => document := document + (if b then "true" else "false");
        case Int(i) =>
          var s := IntToString(i);
          document := document + s;
        case UInt(u) =>
          var s := UnsignedToString(u);
          document := document + s;
        case Real(token) => document := document + token;
        case Str(s) =>
          var q := ValueToQuotedStringN(s);
          document := document + q;
        case Arr(items) => WriteItems(items);
        case Obj(members) => WriteMembers(members);
      }
    }

    method WriteItems(items: seq<Value>)
      requires forall i | 0 <= i < |items| :: Stored(items[i])
      modifies this
      ensures document == old(document) + ("[" + ItemsText(items) + "]")
      decreases items
    {
      hide Stored, Text, ItemsText;
      document := document + "[";
      AllItems(items);
      for index := 0 to |items|
        invariant document + FromItem(items, index) == old(document) + ("[" + ItemsText(items))
      {
        hide FromItem;
        NextItem(items, index);
        ghost var before, rest := document, FromItem(items, index + 1);
        if index > 0 {
          document := document + ",";
        }
        WriteValue(items[index]);
        Separated(before, if index > 0 then "," else "", Text(items[index]), rest);
      }
      EndList(old(document), document, "[", ItemsText(items), "]");
      document := document + "]";
    }

    /** A name, a colon and a value. */
    method WriteMember(m: Member)
      requires Bytes(m.name) && Stored(m.value)
      modifies this
      ensures document == old(document) + MemberText(m)
      decreases m
    {
      hide Stored, Text, Quoted;
      var name := ValueToQuotedStringN(m.name);
      document := document + name;
      document := document + ":";
      WriteValue(m.value);
      assert old(document) + name + ":" + Text(m.value) == old(document) + (name + ":" + Text(m.value));
    }

    method WriteMembers(members: seq<Member>)
      requires forall i | 0 <= i < |members| :: Bytes(members[i].name) && Stored(members[i].value)
      modifies this
      ensures document == old(document) + ("{" + MembersText(members) + "}")
      decreases members
    {
      hide Stored, MemberText, MembersText;
      document := document + "{";
      AllMembers(members);
      for it := 0 to |members|
        invariant document + FromMember(members, it) == old(document) + ("{" + MembersText(members))
      {
        hide FromMember;
        NextMember(members, it);
        ghost var before, rest := document, FromMember(members, it + 1);
        if it > 0 {
          document := document + ",";
        }
        WriteMember(members[it]);
        Separated(before, if it > 0 then "," else "", MemberText(members[it]), rest);
      }
      EndList(old(document), document, "{", MembersText(members), "}");
      document := document + "}";
    }

    /** Prints a value into an empty document and ends the line. */
    method Write(root: Value) returns (text: string)
      requires Stored(root)
      modifies this
      ensures text == document == Text(root) + "\n"
    {
      document := "";
      WriteValue(root);
      document := document + "\n";
      text := document;
    }
  }

  /** What is still to be printed from an item on, with the comma before it. */
  ghost function FromItem(items: seq<Value>, i: nat): string
    requires i <= |items|
  {
    if i == |items| then [] else (if i > 0 then "," else "") + ItemsText(items[i..])
  }

  ghost function FromMember(members: seq<Member>, i: nat): string
    requires i <= |members|
  {
    if i == |members| then [] else (if i > 0 then "," else "") + MembersText(members[i..])
  }

  lemma Separated(a: string, b: string, c: string, d: string)
    ensures (if b == "" then a + c else a + b + c) + d == a + (b + c + d)
    ensures a + b + c == if b == "" then a + c else a + b + c
  {
    assert a + b + c + d == a + (b + c + d);
    if b == "" { assert a + b == a; }
  }

  lemma EndList(start: string, document: string, open: string, list: string, close: string)
    requires document + [] == start + (open + list)
    ensures document + close == start + (open + list + close)
  {
    assert document + [] == document;
    assert start + (open + list) + close == start + (open + list + close);
  }

  lemma AllItems(items: seq<Value>)
    ensures FromItem(items, 0) == ItemsText(items)
  {
    assert items[0..] == items;
  }

  lemma NextItem(items: seq<Value>, i: nat)
    requires i < |items|
    ensures FromItem(items, i) == (if i > 0 then "," else "") + Text(items[i]) + FromItem(items, i + 1)
  {
    hide Text;
    var s := items[i..];
    assert s[0] == items[i] && s[1..] == items[i + 1..];
    assert ItemsText(s) == Text(items[i]) + FromItem(items, i + 1);
  }

  lemma AllMembers(members: seq<Member>)
    ensures FromMember(members, 0) == MembersText(members)
  {
    assert members[0..] == members;
  }

  lemma NextMember(members: seq<Member>, i: nat)
    requires i < |members|
    ensures FromMember(members, i) == (if i > 0 then "," else "") + MemberText(members[i]) + FromMember(members, i + 1)
  {
    hide MemberText;
    var s := members[i..];
    assert s[0] == members[i] && s[1..] == members[i + 1..];
    assert MembersText(s) == MemberText(members[i]) + FromMember(members, i + 1);
  }
}
