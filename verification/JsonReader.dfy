/** The reader as an object that moves over the document, proved against `JsonParse`. What it does
    after an error (messages, skipping tokens to find more errors) is not part of this model. */
module JsonReader {
  import opened Arithmetic
  import opened Wrappers
  import opened JsonText
  import opened JsonParse

  const NUL: char := 0 as char

  lemma Suffix(d: string, i: nat, n: nat)
    requires i + n <= |d|
    ensures d[i..][n..] == d[i + n..] && d[i..][..n] == d[i..i + n]
  {
  }

  lemma BlankStep(d: string, i: nat)
    requires i < |d|
    ensures SkipBlanks(d[i..]) == if Blank(d[i]) then SkipBlanks(d[i + 1..]) else d[i..]
  {
    assert d[i..][1..] == d[i + 1..];
  }

  lemma NoBlanks(s: string)
    requires |s| == 0
    ensures SkipBlanks(s) == s
  {
  }

  // ---------- Numbers ----------

  lemma {:induction false} NumeralGrows(s: string, k: nat)
    requires Digits(s) && k <= |s|
    ensures Numeral(s) >= Numeral(s[..k]) && (k < |s| ==> Numeral(s) >= 10 * Numeral(s[..k]))
  {
    if k < |s| {
      var init := s[..|s| - 1];
      NumeralGrows(init, k);
      assert init[..k] == s[..k];
    } else {
      assert s[..k] == s;
    }
  }

  lemma NumeralNext(s: string, k: nat)
    requires k < |s| && Digits(s[..k + 1])
    ensures Digits(s[..k]) && Numeral(s[..k + 1]) == Numeral(s[..k]) * 10 + (s[k] as int - '0' as int)
  {
    assert s[..k + 1][..k] == s[..k];
    assert forall i | 0 <= i < k :: s[..k][i] == s[..k + 1][i];
  }

  lemma NoDigits()
    ensures Digits([]) && Numeral([]) == 0
  {
  }

  lemma NotDigits(s: string, k: nat)
    requires k < |s| && !IsDigit(s[k])
    ensures !Digits(s)
  {
  }

  lemma MoreDigits(s: string, k: nat)
    requires k < |s| && Digits(s[..k]) && IsDigit(s[k])
    ensures Digits(s[..k + 1])
  {
    assert s[..k + 1] == s[..k] + [s[k]];
  }

  /** What the loop below knows when it meets a digit that could be too much. */
  lemma Overflows(s: string, k: nat, max: nat)
    requires k < |s| && Digits(s) && max >= 10
    requires var value, digit := Numeral(s[..k]), s[k] as int - '0' as int;
             value >= max / 10 && (value > max / 10 || k + 1 != |s| || digit > max % 10)
    ensures Numeral(s) > max
  {
    NumeralNext(s, k);
    NumeralGrows(s, k + 1);
    assert s[..|s|] == s;
  }

  /** Accumulates the digits of a number token in 64 bits; the accumulator never exceeds the bound, so it
      never wraps. */
  method DecodeNumber(token: string) returns (decoded: Value)
    requires token != []
    ensures decoded == NumberValue(token)
  {
    hide Digits, Numeral;
    var isNegative := token[0] == '-';
    var start := if isNegative then 1 else 0;
    var max: nat := if isNegative then TWO_63 else MAX_UINT64;
    ghost var ds := token[start..];
    assert ds == if isNegative then token[1..] else token;
    var threshold := max / 10;
    var value: nat := 0;
    var current := start;
    assert ds[..0] == [];
    NoDigits();
    while current < |token|
      invariant start <= current <= |token|
      invariant Digits(ds[..current - start]) && value == Numeral(ds[..current - start]) <= max
    {
      var c := token[current];
      ghost var k := current - start;
      assert c == ds[k];
      current := current + 1;
      if !IsDigit(c) {
        NotDigits(ds, k);
        return Real(token);
      }
      var digit := c as int - '0' as int;
      if value >= threshold && (value > threshold || current != |token| || digit > max % 10) {
        if Digits(ds) { Overflows(ds, k, max); }
        return Real(token);
      }
      MoreDigits(ds, k);
      NumeralNext(ds, k);
      value := value * 10 + digit;
    }
    assert ds[..current - start] == ds;
    if isNegative {
      decoded := Int(-(value as int));
    } else if value <= MAX_INT {
      decoded := Int(value);
    } else {
      decoded := UInt(value);
    }
  }

  // ---------- Strings ----------

  /** Reads four digits from `current` on. */
  method DecodeUnicodeEscapeSequence(s: string, current: nat) returns (unicode: Option<nat>)
    requires current <= |s|
    ensures unicode == FourHex(s[current..])
  {
    if |s| - current < 4 { return None; }
    ghost var t := s[current..];
    var value: nat := 0;
    var index := 0;
    while index < 4
      invariant 0 <= index <= 4
      invariant forall i | 0 <= i < index :: Unhex(t[i]) >= 0
      invariant index == 0 ==> value == 0
      invariant index == 1 ==> value == Unhex(t[0])
      invariant index == 2 ==> value == Unhex(t[0]) * 16 + Unhex(t[1])
      invariant index == 3 ==> value == (Unhex(t[0]) * 16 + Unhex(t[1])) * 16 + Unhex(t[2])
      invariant index == 4 ==> FourHex(t) == Some(value)
    {
      var c := s[current + index];
      assert c == t[index];
      if Unhex(c) < 0 { return None; }
      value := value * 16 + Unhex(c);
      index := index + 1;
    }
    unicode := Some(value);
  }

  /** Reads the code point after a `\u`. */
  method DecodeUnicodeCodePoint(s: string, current: nat) returns (r: Option<Scalar>)
    requires current <= |s|
    ensures r == UnicodeAt(s[current..])
  {
    var first := DecodeUnicodeEscapeSequence(s, current);
    if first.None? { return None; }
    var unicode := first.value;
    if !(0xD800 <= unicode <= 0xDBFF) { return Some(Scalar(unicode, 4)); }
    if |s| - (current + 4) < 6 { return None; }
    if s[current + 4] != '\\' || s[current + 5] != 'u' { return None; }
    Suffix(s, current, 6);
    var second := DecodeUnicodeEscapeSequence(s, current + 6);
    if second.None? { return None; }
    return Some(Scalar(0x10000 + unicode % 1024 * 1024 + second.value % 1024, 10));
  }

  lemma UnescapeStep(s: string, k: nat, n: nat, decoded: string, more: string)
    requires k + n <= |s|
    requires Unescape(s) == Prefixed(decoded, Unescape(s[k..]))
    requires Unescape(s[k..]) == Prefixed(more, Unescape(s[k + n..]))
    ensures Unescape(s) == Prefixed(decoded + more, Unescape(s[k + n..]))
  {
    hide Unescape;
    var r := Unescape(s[k + n..]);
    if r.Some? { assert decoded + (more + r.value) == (decoded + more) + r.value; }
  }

  lemma UnescapeStart(s: string)
    ensures Unescape(s) == Prefixed([], Unescape(s[0..]))
  {
    hide Unescape;
    assert s[0..] == s;
    if Unescape(s).Some? { assert [] + Unescape(s).value == Unescape(s).value; }
  }

  /** Unescapes a string token without its quotes. */
  method DecodeString(token: string) returns (r: Option<string>)
    requires |token| >= 2
    ensures r == StringValue(token)
  {
    var s := token[1..|token| - 1];
    var decoded := "";
    var current := 0;
    UnescapeStart(s);
    while current != |s|
      invariant 0 <= current <= |s|
      invariant Unescape(s) == Prefixed(decoded, Unescape(s[current..]))
    {
      ghost var k := current;
      Suffix(s, k, 1);
      var c := s[current];
      current := current + 1;
      if c == '\"' { assert decoded + [] == decoded; return Some(decoded); }
      if c != '\\' {
        UnescapeStep(s, k, 1, decoded, [c]);
        decoded := decoded + [c];
      } else {
        if current == |s| { return None; }
        Suffix(s, k, 2);
        var escape := s[current];
        current := current + 1;
        if escape == 'u' {
          var u := DecodeUnicodeCodePoint(s, current);
          if u.None? { return None; }
          Suffix(s, k, 2 + u.value.used);
          UnescapeStep(s, k, 2 + u.value.used, decoded, EncodeUtf8(u.value.cp));
          decoded := decoded + EncodeUtf8(u.value.cp);
          current := current + u.value.used;
        } else {
          var e := Escaped(escape);
          if e.None? { return None; }
          UnescapeStep(s, k, 2, decoded, [e.value]);
          decoded := decoded + [e.value];
        }
      }
    }
    assert s[current..] == [] && decoded + [] == decoded;
    r := Some(decoded);
  }

  // ---------- The reader ----------

  datatype Status = Fine | Failed | Threw

  /** The outcome of reading one value, which is left in `top`. */
  ghost predicate Outcome(r: Parsed, st: Status, rest: string, top: Value) {
    match r
    case Ok(v, rest') => st == Fine && rest == rest' && top == v
    case Bad => st == Failed
    case Thrown => st == Threw
  }

  ghost predicate SameBelow(before: seq<Value>, after: seq<Value>) {
    |after| == |before| > 0 && forall i | 0 <= i < |after| - 1 :: after[i] == before[i]
  }

  lemma TokenOf(s: string)
    ensures var b := SkipBlanks(s);
            var l := Lex(b);
            JsonParse.ReadToken(s) == Token(l.kind, b[..l.used], b[l.used..])
  {
    hide SkipBlanks, Lex;
  }

  /** What reading one item leaves for the rest of the array. */
  ghost predicate ItemOutcome(r: Parsed, st: Status, rest: string, size: nat, items: seq<Value>, more: bool) {
    match st
    case Fine => r == if more then ParseItems(rest, size, items) else Ok(Arr(items), rest)
    case Failed => r == Bad
    case Threw => r == Thrown
  }

  /** What reading one member finds. */
  ghost predicate MemberOutcome(s: string, size: nat, previous: string, st: Status, none: bool, name: string, v: Value, rest: string) {
    var t := NextToken(s);
    if t.kind == ObjectEnd && previous == "" then st == Fine && none && rest == t.rest
    else
      !none &&
      if t.kind != String || StringValue(t.text).None? then st == Failed
      else
        var colon := JsonParse.ReadToken(t.rest);
        if colon.kind != MemberSeparator then st == Failed
        else if |StringValue(t.text).value| >= NAME_LIMIT then st == Threw
        else
          match ParseValue(colon.rest, size + 1)
          case Bad => st == Failed
          case Thrown => st == Threw
          case Ok(w, r) => st == Fine && name == StringValue(t.text).value && v == w && rest == r
  }

  /** `ParseMembers` one member at a time. */
  lemma MembersByStep(s: string, size: nat, members: seq<Member>, previous: string,
                      st: Status, none: bool, name: string, v: Value, rest: string)
    requires MemberOutcome(s, size, previous, st, none, name, v, rest)
    ensures var r := ParseMembers(s, size, members, previous);
            match st
            case Failed => r == Bad
            case Threw => r == Thrown
            case Fine =>
              if none then r == Ok(Obj(members), rest)
              else
                var comma := JsonParse.ReadToken(rest);
                var end := PastComments(comma);
                r == if comma.kind != ObjectEnd && comma.kind != Separator && comma.kind != Comment then Bad
                     else if end.kind == ObjectEnd then Ok(Obj(Put(members, name, v)), end.rest)
                     else ParseMembers(end.rest, size, Put(members, name, v), name)
  {
    hide NextToken, ParseValue, JsonParse.ReadToken, PastComments, StringValue, Put;
  }

  lemma BelowSelf(a: seq<Value>)
    requires a != []
    ensures SameBelow(a, a)
  {
  }

  lemma BelowTrans(a: seq<Value>, b: seq<Value>, c: seq<Value>)
    requires SameBelow(a, b) && SameBelow(b, c)
    ensures SameBelow(a, c)
  {
  }

  /** Where the parts of a number end. */
  lemma NumberParts(d: string, i: nat)
    requires i <= |d|
    ensures var j := i + Span(d[i..]);
            var k := j + FractionSpan(d[j..]);
            i + NumberSpan(d[i..]) == k + ExponentSpan(d[k..])
  {
    hide Span, FractionSpan, ExponentSpan;
    var a := Span(d[i..]);
    Suffix(d, i, a);
    Suffix(d, i, a + FractionSpan(d[i + a..]));
  }

  class Reader {
    var doc: string
    var current: nat
    /** The values being read, innermost last. */
    var nodes: seq<Value>

    ghost predicate Valid()
      reads this
    {
      current <= |doc|
    }

    ghost function Rest(): string
      requires Valid()
      reads this
    {
      doc[current..]
    }

    constructor ()
      ensures Valid()
    {
      doc, current, nodes := "", 0, [];
    }

    /** The next character, 0 at the end. */
    method GetNextChar() returns (c: char)
      requires Valid()
      modifies this`current
      ensures Valid()
      ensures if old(Rest()) == [] then c == NUL && Rest() == [] else c == old(Rest())[0] && Rest() == old(Rest())[1..]
    {
      if current == |doc| { return NUL; }
      Suffix(doc, current, 1);
      c := doc[current];
      current := current + 1;
    }

    method SkipSpaces()
      requires Valid()
      modifies this`current
      ensures Valid() && Rest() == SkipBlanks(old(Rest()))
    {
      hide SkipBlanks, Blank;
      while current != |doc|
        invariant Valid() && SkipBlanks(Rest()) == SkipBlanks(old(Rest()))
      {
        BlankStep(doc, current);
        if Blank(doc[current]) { current := current + 1; } else { return; }
      }
      NoBlanks(Rest());
    }

    /** Takes the word if it is there; compares from the last letter to the first. */
    method Match(pattern: string) returns (ok: bool)
      requires Valid()
      modifies this`current
      ensures Valid() && ok == (pattern <= old(Rest()))
      ensures Rest() == old(Rest())[if ok then |pattern| else 0..]
    {
      if |doc| - current < |pattern| { return false; }
      var index := |pattern|;
      while index > 0
        invariant 0 <= index <= |pattern|
        invariant current == old(current)
        invariant forall i | index <= i < |pattern| :: Rest()[i] == pattern[i]
      {
        index := index - 1;
        assert doc[current + index] == Rest()[index];
        if doc[current + index] != pattern[index] { return false; }
      }
      Suffix(doc, current, |pattern|);
      current := current + |pattern|;
      ok := true;
    }

    method ReadString() returns (ok: bool)
      requires Valid()
      modifies this`current
      ensures Valid()
      ensures var r := StringSpan(old(Rest())); ok == r.ok && current == old(current) + r.used
    {
      var c := NUL;
      while current != |doc|
        invariant Valid() && c != '\"'
        invariant var r, n := StringSpan(old(Rest())), StringSpan(Rest());
                  r.ok == n.ok && old(current) + r.used == current + n.used
        decreases |doc| - current
      {
        c := GetNextChar();
        if c == '\\' {
          var skipped := GetNextChar();
        } else if c == '\"' {
          break;
        }
      }
      ok := c == '\"';
    }

    /** `c` is the current character, 0 at the end, and `p` is the position after it. */
    ghost predicate At(c: char, p: nat)
      reads this
    {
      current <= |doc| && if current < |doc| then c == doc[current] && p == current + 1 else c == NUL && p == current
    }

    /** The character at `p` becomes the current one. */
    method Advance(p: nat) returns (c: char, q: nat)
      requires p <= |doc|
      modifies this`current
      ensures current == p && At(c, q)
    {
      current := p;
      if current < |doc| { c, q := doc[p], p + 1; } else { c, q := NUL, p; }
    }

    /** Runs on while the character before `p`, which is `c`, is a digit. */
    method RunDigits(c: char, p: nat) returns (c': char, p': nat)
      requires Valid() && p <= |doc| && (IsDigit(c) || At(c, p))
      modifies this`current
      ensures At(c', p') && !IsDigit(c')
      ensures current == if IsDigit(c) then p + Span(doc[p..]) else old(current)
    {
      c', p' := c, p;
      while IsDigit(c')
        invariant p' <= |doc| && Valid()
        invariant IsDigit(c') ==> IsDigit(c) && p' + Span(doc[p'..]) == p + Span(doc[p..])
        invariant !IsDigit(c') ==> At(c', p') && current == if IsDigit(c) then p + Span(doc[p..]) else old(current)
        decreases |doc| - p', IsDigit(c')
      {
        if p' < |doc| { Suffix(doc, p', 1); }
        c', p' := Advance(p');
      }
    }

    /** The character at `p` becomes the current one, and digits from there on are passed. */
    method AdvanceDigits(p: nat) returns (c: char, q: nat)
      requires p <= |doc|
      modifies this`current
      ensures At(c, q) && current == p + Span(doc[p..])
    {
      c, q := Advance(p);
      if p < |doc| { Suffix(doc, p, 1); }
      c, q := RunDigits(c, q);
    }

    method ReadFraction(c: char, p: nat) returns (c': char, p': nat)
      requires Valid() && At(c, p) && !IsDigit(c)
      modifies this`current
      ensures Valid() && At(c', p') && !IsDigit(c') && current == old(current) + FractionSpan(old(Rest()))
    {
      c', p' := c, p;
      if c == '.' {
        Suffix(doc, current, 1);
        c', p' := AdvanceDigits(p);
      }
    }

    method ReadExponent(c: char, p: nat)
      requires Valid() && At(c, p) && !IsDigit(c)
      modifies this`current
      ensures Valid() && current == old(current) + ExponentSpan(old(Rest()))
    {
      if c == 'e' || c == 'E' {
        Suffix(doc, current, 1);
        var d, q := Advance(p);
        if d == '+' || d == '-' {
          assert Rest()[0] == d;
          Suffix(doc, old(current), 2);
          d, q := AdvanceDigits(q);
        } else {
          if current < |doc| { Suffix(doc, current, 1); assert Rest()[0] == d; }
          d, q := RunDigits(d, q);
        }
      }
    }

    method ReadNumber(checkInf: bool) returns (ok: bool)
      requires Valid()
      modifies this`current
      ensures Valid()
      ensures var s := old(Rest());
              if checkInf && s != [] && s[0] == 'I' then !ok && current == old(current) + 1
              else ok && current == old(current) + NumberSpan(s)
    {
      hide Span, FractionSpan, ExponentSpan, NumberSpan, At, IsDigit;
      if checkInf && current != |doc| && doc[current] == 'I' {
        current := current + 1;
        return false;
      }
      NumberParts(doc, current);
      var c, p := ReadInteger();
      c, p := ReadFraction(c, p);
      ReadExponent(c, p);
      ok := true;
    }

    method ReadInteger() returns (c: char, p: nat)
      requires Valid()
      modifies this`current
      ensures Valid() && At(c, p) && !IsDigit(c) && current == old(current) + Span(old(Rest()))
    {
      c, p := RunDigits('0', current);
    }

    // ---------- Comments and tokens ----------

    method ReadCStyleComment() returns (ok: bool)
      requires Valid()
      modifies this`current
      ensures Valid()
      ensures var r := BlockSpan(old(Rest())); ok == r.ok && current == old(current) + r.used
    {
      while current + 1 < |doc|
        invariant Valid()
        invariant var r, n := BlockSpan(old(Rest())), BlockSpan(Rest());
                  r.ok == n.ok && old(current) + r.used == current + n.used
      {
        assert doc[current + 1] == Rest()[1];
        var c := GetNextChar();
        if c == '*' && doc[current] == '/' { break; }
      }
      var c := GetNextChar();
      ok := c == '/';
    }

    method ReadCppStyleComment() returns (ok: bool)
      requires Valid()
      modifies this`current
      ensures Valid() && ok && current == old(current) + LineSpan(old(Rest()))
    {
      while current != |doc|
        invariant Valid() && old(current) + LineSpan(old(Rest())) == current + LineSpan(Rest())
        decreases |doc| - current
      {
        ghost var before := Rest();
        var c := GetNextChar();
        if c == '\n' { break; }
        if c == '\r' {
          if current != |doc| && doc[current] == '\n' {
            assert before[1] == Rest()[0];
            c := GetNextChar();
          } else {
            assert |before| > 1 ==> before[1] == Rest()[0];
          }
          break;
        }
      }
      ok := true;
    }

    method ReadComment() returns (ok: bool)
      requires Valid()
      modifies this`current
      ensures Valid()
      ensures var r := CommentSpan(old(Rest())); ok == r.ok && current == old(current) + r.used
    {
      var c := GetNextChar();
      ok := false;
      if c == '*' {
        ok := ReadCStyleComment();
      } else if c == '/' {
        ok := ReadCppStyleComment();
      }
    }

    /** The token between two positions, and the rest after it. */
    ghost predicate Has(t: Token, kind: Kind, start: nat, end: nat)
      reads this
    {
      Valid() && start <= end <= |doc| && t == Token(kind, doc[start..end], Rest())
    }

    /** The character after the first one decides what kind of token follows. */
    method LexToken() returns (kind: Kind)
      requires Valid()
      modifies this`current
      ensures Valid()
      ensures var l := Lex(old(Rest())); kind == l.kind && current == old(current) + l.used
    {
      hide StringSpan, NumberSpan, CommentSpan;
      var c := GetNextChar();
      var ok := true;
      kind := Error;
      match c {
        case '{' => kind := ObjectBegin;
        case '}' => kind := ObjectEnd;
        case '[' => kind := ArrayBegin;
        case ']' => kind := ArrayEnd;
        case '\"' => kind := String; ok := ReadString();
        case '\'' => kind := Comment; ok := ReadComment();
        case '/' => kind := Comment; ok := ReadComment();
        case '-' => kind := Number; ok := ReadNumber(true);
        case 't' => kind := TrueWord; ok := Match("rue");
        case 'f' => kind := FalseWord; ok := Match("alse");
        case 'n' => kind := NullWord; ok := Match("ull");
        case ',' => kind := Separator;
        case ':' => kind := MemberSeparator;
        case _ =>
          if IsDigit(c) {
            kind := Number;
            var _ := ReadNumber(false);
          } else if c == NUL {
            kind := EndOfStream;
          } else {
            ok := false;
          }
      }
      if !ok { kind := Error; }
    }

    method ReadToken() returns (kind: Kind, start: nat, end: nat)
      requires Valid()
      modifies this`current
      ensures Has(JsonParse.ReadToken(old(Rest())), kind, start, end)
    {
      hide SkipBlanks, Lex, JsonParse.ReadToken;
      TokenOf(Rest());
      SkipSpaces();
      start := current;
      kind := LexToken();
      end := current;
      Suffix(doc, start, end - start);
    }

    /** Reads on while the token is a comment. */
    method SkipComments(kind: Kind, start: nat, end: nat) returns (kind': Kind, start': nat, end': nat)
      requires Valid() && start <= end <= |doc|
      modifies this`current
      ensures Has(PastComments(Token(kind, doc[start..end], old(Rest()))), kind', start', end')
    {
      hide JsonParse.ReadToken;
      kind', start', end' := kind, start, end;
      while kind' == Comment
        invariant Valid() && start' <= end' <= |doc|
        invariant PastComments(Token(kind', doc[start'..end'], Rest())) == PastComments(Token(kind, doc[start..end], old(Rest())))
        decreases |doc| - current, kind' == Comment
      {
        kind', start', end' := ReadToken();
      }
    }

    /** The next token that is not a comment. */
    method SkipCommentTokens() returns (kind: Kind, start: nat, end: nat)
      requires Valid()
      modifies this`current
      ensures Has(NextToken(old(Rest())), kind, start, end)
    {
      hide JsonParse.ReadToken, PastComments;
      kind, start, end := ReadToken();
      kind, start, end := SkipComments(kind, start, end);
    }

    // ---------- Values ----------

    ghost function Top(): Value
      reads this
    {
      if nodes == [] then Null else nodes[|nodes| - 1]
    }

    method SetCurrent(v: Value)
      requires nodes != []
      modifies this`nodes
      ensures SameBelow(old(nodes), nodes) && |nodes| == |old(nodes)| && Top() == v
    {
      nodes := nodes[..|nodes| - 1] + [v];
    }

    method ReadValue() returns (st: Status)
      requires Valid() && nodes != []
      modifies this`current, this`nodes
      ensures Valid() && Outcome(ParseValue(old(Rest()), |old(nodes)|), st, Rest(), Top())
      ensures st == Fine ==> SameBelow(old(nodes), nodes)
      decreases |doc| - current, 1
    {
      hide NextToken, ParseArray, ParseMembers, NumberValue, StringValue;
      if |nodes| > STACK_LIMIT { return Threw; }
      var kind, start, end := SkipCommentTokens();
      st := Fine;
      match kind {
        case ObjectBegin => st := ReadObject();
        case ArrayBegin => st := ReadArray();
        case Number =>
          var v := DecodeNumber(doc[start..end]);
          SetCurrent(v);
        case String =>
          var r := DecodeString(doc[start..end]);
          if r.None? { return Failed; }
          SetCurrent(Str(r.value));
        case TrueWord => SetCurrent(Bool(true));
        case FalseWord => SetCurrent(Bool(false));
        case NullWord => SetCurrent(Null);
        case _ => return Failed;
      }
    }

    /** Reads the value of an item or a member: a place for it is pushed and popped again. */
    method ReadInner() returns (st: Status, v: Value)
      requires Valid()
      modifies this`current, this`nodes
      ensures Valid() && Outcome(ParseValue(old(Rest()), |old(nodes)| + 1), st, Rest(), v)
      ensures st == Fine ==> nodes == old(nodes)
      decreases |doc| - current, 2
    {
      hide ParseValue;
      nodes := nodes + [Null];
      st := ReadValue();
      v := Null;
      if st == Fine {
        v := nodes[|nodes| - 1];
        nodes := nodes[..|nodes| - 1];
        assert nodes == old(nodes);
      }
    }

    /** One item and the token after it; `more` if that is a comma. */
    method ReadItem(ghost items: seq<Value>) returns (st: Status, v: Value, more: bool)
      requires Valid()
      modifies this`current, this`nodes
      ensures Valid() && (st == Fine ==> nodes == old(nodes) && |Rest()| < |old(Rest())|)
      ensures ItemOutcome(ParseItems(old(Rest()), |old(nodes)|, items), st, Rest(), |old(nodes)|, items + [v], more)
      decreases |doc| - current, 3
    {
      hide NextToken, ParseValue, ParseItems;
      ItemsByStep(Rest(), |nodes|, items);
      more := false;
      st, v := ReadInner();
      if st != Fine { return; }
      var kind, start, end := SkipCommentTokens();
      if kind != Separator && kind != ArrayEnd { return Failed, v, false; }
      more := kind == Separator;
    }

    /** The items of an array whose opening bracket has been read. */
    method ReadArray() returns (st: Status)
      requires Valid() && nodes != []
      modifies this`current, this`nodes
      ensures Valid() && Outcome(ParseArray(old(Rest()), |old(nodes)|), st, Rest(), Top())
      ensures st == Fine ==> SameBelow(old(nodes), nodes)
      decreases |doc| - current, 5
    {
      hide SkipBlanks, ParseArray, ParseItems, SameBelow;
      ghost var size, was := |nodes|, nodes;
      ArrayAfterBlanks(Rest(), size);
      SetCurrent(Arr([]));
      SkipSpaces();
      if current != |doc| && doc[current] == ']' {
        var c := GetNextChar();
        return Fine;
      }
      ghost var before := nodes;
      st := ReadItems();
      if st == Fine { BelowTrans(was, before, nodes); }
    }

    /** The loop over the items of an array that is not empty. */
    method ReadItems() returns (st: Status)
      requires Valid() && nodes != [] && Top() == Arr([])
      modifies this`current, this`nodes
      ensures Valid() && Outcome(ParseItems(old(Rest()), |old(nodes)|, []), st, Rest(), Top())
      ensures st == Fine ==> SameBelow(old(nodes), nodes)
      decreases |doc| - current, 4
    {
      hide ParseItems, SameBelow, NextToken, JsonParse.ReadToken;
      BelowSelf(nodes);
      ghost var p, size, was := ParseItems(Rest(), |nodes|, []), |nodes|, nodes;
      var items := [];
      while true
        invariant Valid() && SameBelow(was, nodes) && |nodes| == size && Top() == Arr(items)
        invariant ParseItems(Rest(), size, items) == p
        decreases |doc| - current
      {
        var v, more;
        st, v, more := ReadItem(items);
        if st != Fine { return; }
        items := items + [v];
        ghost var before := nodes;
        SetCurrent(Arr(items));
        BelowTrans(was, before, nodes);
        if !more { return Fine; }
      }
    }

    /** A name, a colon and a value. `none` if the object ends here instead. */
    method ReadMember(previous: string) returns (st: Status, none: bool, name: string, v: Value)
      requires Valid()
      modifies this`current, this`nodes
      ensures Valid() && (st == Fine && !none ==> nodes == old(nodes) && |Rest()| < |old(Rest())|)
      ensures none ==> nodes == old(nodes)
      ensures MemberOutcome(old(Rest()), |old(nodes)|, previous, st, none, name, v, Rest())
      decreases |doc| - current, 3
    {
      hide NextToken, ParseValue, JsonParse.ReadToken, PastComments, StringValue;
      none, name, v := false, "", Null;
      var kind, start, end := SkipCommentTokens();
      if kind == ObjectEnd && previous == "" { return Fine, true, name, v; }
      if kind != String { return Failed, false, name, v; }
      var decoded := DecodeString(doc[start..end]);
      if decoded.None? { return Failed, false, name, v; }
      name := decoded.value;
      kind, start, end := ReadToken();
      if kind != MemberSeparator { return Failed, false, name, v; }
      if |name| >= NAME_LIMIT { return Threw, false, name, v; }
      st, v := ReadInner();
    }

    /** The token after a member; `more` if the object goes on. */
    method ReadComma() returns (ok: bool, more: bool)
      requires Valid()
      modifies this`current
      ensures Valid() && |Rest()| <= |old(Rest())|
      ensures var comma := JsonParse.ReadToken(old(Rest()));
              var end := PastComments(comma);
              && (ok <==> comma.kind == ObjectEnd || comma.kind == Separator || comma.kind == Comment)
              && (ok ==> Rest() == end.rest && (more <==> end.kind != ObjectEnd))
    {
      hide JsonParse.ReadToken, PastComments;
      var kind, start, end := ReadToken();
      if kind != ObjectEnd && kind != Separator && kind != Comment { return false, false; }
      kind, start, end := SkipComments(kind, start, end);
      return true, kind != ObjectEnd;
    }

    /** One round of the loop over members: a member is stored and the loop goes on unless the object is at its
        end. */
    method ReadEntry(members: seq<Member>, previous: string) returns (st: Status, done: bool, members': seq<Member>, name: string)
      requires Valid() && nodes != [] && Top() == Obj(members)
      modifies this`current, this`nodes
      ensures Valid() && (st == Fine ==> SameBelow(old(nodes), nodes) && |nodes| == |old(nodes)| && Top() == Obj(members'))
      ensures st == Fine && !done ==> |Rest()| < |old(Rest())|
      ensures var r := ParseMembers(old(Rest()), |old(nodes)|, members, previous);
              match st
              case Failed => r == Bad
              case Threw => r == Thrown
              case Fine => r == if done then Ok(Obj(members'), Rest()) else ParseMembers(Rest(), |old(nodes)|, members', name)
      decreases |doc| - current, 4
    {
      hide ParseMembers, PastComments, JsonParse.ReadToken, NextToken, ParseValue, StringValue, Put, SameBelow, MemberOutcome;
      ghost var rest := Rest();
      BelowSelf(nodes);
      var none, v;
      members', done := members, true;
      st, none, name, v := ReadMember(previous);
      MembersByStep(rest, |old(nodes)|, members, previous, st, none, name, v, Rest());
      if st != Fine || none { return; }
      members' := Put(members, name, v);
      SetCurrent(Obj(members'));
      var ok, more := ReadComma();
      if !ok { return Failed, true, members', name; }
      done := !more;
    }

    /** The members of an object whose opening brace has been read. */
    method ReadObject() returns (st: Status)
      requires Valid() && nodes != []
      modifies this`current, this`nodes
      ensures Valid() && Outcome(ParseMembers(old(Rest()), |old(nodes)|, [], []), st, Rest(), Top())
      ensures st == Fine ==> SameBelow(old(nodes), nodes)
      decreases |doc| - current, 5
    {
      hide ParseMembers, Put, SameBelow;
      ghost var s, size, was := Rest(), |nodes|, nodes;
      SetCurrent(Obj([]));
      var members, name := [], "";
      while true
        invariant Valid() && SameBelow(was, nodes) && |nodes| == size && Top() == Obj(members)
        invariant ParseMembers(Rest(), size, members, name) == ParseMembers(s, size, [], [])
        decreases |doc| - current
      {
        ghost var before := nodes;
        var done;
        st, done, members, name := ReadEntry(members, name);
        if st != Fine { return; }
        BelowTrans(was, before, nodes);
        if done { return Fine; }
      }
    }

    /** Reads a document. */
    method ReadDocument(text: string) returns (st: Status, root: Value)
      requires Valid()
      modifies this
      ensures Valid()
      ensures match JsonParse.Parse(text)
              case Ok(v, _) => st == Fine && root == v
              case Bad => st == Failed
              case Thrown => st == Threw
    {
      doc, current, nodes := text, 0, [Null];
      assert Rest() == text;
      st := ReadValue();
      root := if st == Fine then nodes[0] else Null;
      var kind, start, end := SkipCommentTokens();
    }
  }

  /** Blanks before an item do not matter. */
  lemma SameItems(s: string, size: nat, items: seq<Value>)
    ensures ParseItems(SkipBlanks(s), size, items) == ParseItems(s, size, items)
  {
    SameValue(s, size + 1);
    ItemsByStep(s, size, items);
    ItemsByStep(SkipBlanks(s), size, items);
    hide ParseValue, ParseItems, SkipBlanks, NextToken;
  }

  lemma ArrayAfterBlanks(s: string, size: nat)
    ensures var b := SkipBlanks(s);
            ParseArray(s, size) == if b != [] && b[0] == ']' then Ok(Arr([]), b[1..]) else ParseItems(b, size, [])
  {
    hide SkipBlanks, ParseItems;
    SameItems(s, size, []);
  }

  lemma SameValue(s: string, size: nat)
    ensures ParseValue(SkipBlanks(s), size) == ParseValue(s, size)
  {
    SameToken(s);
    hide ParseArray, ParseMembers, SkipBlanks, NextToken, NumberValue, StringValue;
  }

  lemma SameToken(s: string)
    ensures NextToken(SkipBlanks(s)) == NextToken(s)
  {
    hide Lex;
    assert SkipBlanks(SkipBlanks(s)) == SkipBlanks(s);
    assert JsonParse.ReadToken(SkipBlanks(s)) == JsonParse.ReadToken(s);
  }
}
