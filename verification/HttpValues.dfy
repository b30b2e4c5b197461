/** How the values of Connection and Transfer-Encoding set the parser's flags: what the matcher makes of the
    elements between the commas. */
module HttpValues {
  import opened HttpStep
  import opened HttpStream
  import opened HttpFraming

  // ---------- Words ----------

  predicate PlainByte(c: char) { IsHeaderChar(c) && c != '\r' && c != '\n' }

  predicate Plain(s: string) { forall i | 0 <= i < |s| :: PlainByte(s[i]) }

  predicate NoComma(s: string) { forall i | 0 <= i < |s| :: s[i] != ',' }

  predicate Spaces(s: string) { forall i | 0 <= i < |s| :: s[i] == ' ' }

  function LowText(s: string): string { seq(|s|, i requires 0 <= i < |s| => Lower(s[i])) }

  /** The two header fields whose values are lists of words. */
  datatype List = ConnectionList | EncodingList

  function TokenStart(k: List): Hs { if k.ConnectionList? then ConnTokenStart else TeTokenStart }
  function Token(k: List): Hs { if k.ConnectionList? then ConnToken else TeToken }

  /** The word that may begin with a letter; `General` if there is none. */
  function Matcher(k: List, c: char): Hs {
    if k.ConnectionList? then
      if c == 'k' then ConnMatchKeepAlive else if c == 'c' then ConnMatchClose else if c == 'u' then ConnMatchUpgrade else General
    else if c == 'c' then TeMatchChunked else General
  }

  predicate Matches(h: Hs) { h.ConnMatchKeepAlive? || h.ConnMatchClose? || h.ConnMatchUpgrade? || h.TeMatchChunked? }

  function Literal(h: Hs): string
    requires Matches(h)
  {
    match h case ConnMatchKeepAlive => KEEP_ALIVE case ConnMatchClose => CLOSE case ConnMatchUpgrade => UPGRADE case TeMatchChunked => CHUNKED
  }

  function Found(h: Hs): Hs
    requires Matches(h)
  {
    match h
    case ConnMatchKeepAlive => ConnKeepAlive case ConnMatchClose => ConnClose case ConnMatchUpgrade => ConnUpgrade case TeMatchChunked => TeChunked
  }

  function Lost(h: Hs): Hs { if h.TeMatchChunked? then TeToken else ConnToken }

  /** The word, in any case of its letters, and spaces after it. */
  predicate IsWord(t: string, w: string) { |w| <= |t| && LowText(t[..|w|]) == w && Spaces(t[|w|..]) }

  /** The matcher after a text that begins with the letter of the word. */
  function WordState(h: Hs, t: string): Hs
    requires Matches(h)
  {
    var w := Literal(h);
    if |t| < |w| && LowText(t) == w[..|t|] then h else if IsWord(t, w) then Found(h) else Lost(h)
  }

  lemma LowSnoc(t: string, c: char)
    ensures LowText(t + [c]) == LowText(t) + [Lower(c)]
  {
  }

  lemma WordGrows(t: string, c: char, w: string)
    ensures |t| >= |w| ==> (IsWord(t + [c], w) <==> IsWord(t, w) && c == ' ')
    ensures |t| < |w| ==> (LowText(t + [c]) == w[..|t| + 1] <==> LowText(t) == w[..|t|] && Lower(c) == w[|t|])
    ensures |t| + 1 == |w| ==> (IsWord(t + [c], w) <==> LowText(t + [c]) == w)
    ensures |t| + 1 < |w| ==> !IsWord(t + [c], w)
  {
    var u := t + [c];
    LowSnoc(t, c);
    if |t| >= |w| {
      assert u[..|w|] == t[..|w|] && u[|w|..] == t[|w|..] + [c];
      var rest := t[|w|..];
      if IsWord(u, w) {
        assert (rest + [c])[|rest|] == c;
        forall i | 0 <= i < |rest| ensures rest[i] == ' ' { assert (rest + [c])[i] == rest[i]; }
      }
    } else {
      var low := LowText(t);
      assert w[..|t| + 1] == w[..|t|] + [w[|t|]];
      if LowText(u) == w[..|t| + 1] {
        assert (low + [Lower(c)])[|t|] == Lower(c);
        assert low == LowText(u)[..|t|] == w[..|t| + 1][..|t|];
      }
      if |t| + 1 == |w| { assert u[..|w|] == u && u[|w|..] == []; }
    }
  }

  /** One more byte of an element that has begun like a word. */
  lemma WordStep(h: Hs, t: string, v: Val, c: char)
    requires Matches(h) && t != [] && PlainByte(c) && c != ','
    requires v.hs == WordState(h, t) && (v.hs == h ==> v.index == |t| - 1)
    ensures var r := ValueByte(v, c);
            && r.ValOk? && r.v.hs == WordState(h, t + [c]) && (r.v.hs == h ==> r.v.index == |t|)
            && r.v.flags == v.flags && r.v.length == v.length
  {
    hide IsWord, LowText, ValueByte, Literal, Lower, Found, Lost;
    var w := Literal(h);
    LiteralShort(h);
    WordGrows(t, c, w);
    WordBytes(h, v, c);
    if v.hs == h {
      assert |t| < |w| && LowText(t) == w[..|t|];
      if |t| + 1 == |w| { assert w[..|t| + 1] == w; }
    } else if IsWord(t, w) {
      WordLength(t, w);
      assert v.hs == Found(h) && |t| >= |w|;
    } else {
      assert v.hs == Lost(h);
    }
  }

  lemma LiteralShort(h: Hs)
    requires Matches(h)
    ensures 0 < |Literal(h)| < 32 && Found(h) != h && Lost(h) != h && Found(h) != Lost(h)
  {
  }

  lemma WordBytes(h: Hs, v: Val, c: char)
    requires Matches(h) && PlainByte(c) && c != ','
    ensures v.hs == h ==>
              var (g, i) := Matching(Literal(h), v.index, Lower(c), h, Found(h), Lost(h));
              ValueByte(v, c) == ValOk(v.(hs := g, index := i))
    ensures v.hs == Found(h) ==> ValueByte(v, c) == ValOk(v.(hs := if c == ' ' then v.hs else Lost(h)))
    ensures v.hs == Lost(h) ==> ValueByte(v, c) == ValOk(v)
  {
    hide Matching, Lower, IsToken;
  }

  // ---------- Reading some bytes ----------

  function Values(v: Val, s: string): ValResult
    decreases |s|
  {
    if s == [] then ValOk(v)
    else
      match ValueByte(v, s[0])
      case ValErr(e) => ValErr(e)
      case ValOk(w) => Values(w, s[1..])
  }

  lemma {:induction false} ValuesConcat(v: Val, a: string, b: string)
    ensures Values(v, a + b) == var r := Values(v, a); if r.ValErr? then r else Values(r.v, b)
    decreases |a|
  {
    hide ValueByte;
    if a == [] {
      assert a + b == b;
    } else {
      assert (a + b)[1..] == a[1..] + b;
      var r := ValueByte(v, a[0]);
      if r.ValOk? { ValuesConcat(r.v, a[1..], b); }
    }
  }

  lemma ValuesOne(v: Val, c: char)
    ensures Values(v, [c]) == ValueByte(v, c)
  {
    hide ValueByte;
    assert [c][1..] == [];
  }

  /** The state in which an element is read to, with the flags as they were. */
  ghost predicate ReadsTo(v: Val, s: string, h: Hs) {
    var r := Values(v, s); r.ValOk? && r.v.hs == h && r.v.flags == v.flags && r.v.length == v.length
  }

  lemma {:induction false} WordText(h: Hs, t: string, v: Val, more: string)
    requires Matches(h) && t != [] && Plain(more) && NoComma(more)
    requires v.hs == WordState(h, t) && (v.hs == h ==> v.index == |t| - 1)
    ensures ReadsTo(v, more, WordState(h, t + more))
    decreases |more|
  {
    hide ValueByte, WordState;
    if more == [] {
      assert t + more == t;
    } else {
      WordStep(h, t, v, more[0]);
      WordText(h, t + [more[0]], ValueByte(v, more[0]).v, more[1..]);
      assert (t + [more[0]]) + more[1..] == t + more;
    }
  }

  /** A token that is no word, and a value that does not matter any more, stay what they are until a comma. */
  lemma {:induction false} TokenText(v: Val, s: string)
    requires v.hs == ConnToken || v.hs == TeToken || v.hs == General
    requires Plain(s) && (v.hs == General || NoComma(s))
    ensures Values(v, s) == ValOk(v)
    decreases |s|
  {
    if s != [] { TokenText(v, s[1..]); }
  }

  // ---------- Elements ----------

  /** Only spaces are passed: lowered like a letter, a tab is a parenthesis. */
  function Trim(e: string): string { if e != [] && e[0] == ' ' then Trim(e[1..]) else e }

  /** The matcher at the end of an element. The first byte of a value is always taken for part of a token. */
  function ElementState(k: List, e: string, first: bool): Hs {
    var t := if first then e else Trim(e);
    if t == [] then if first then Token(k) else TokenStart(k)
    else
      var m := Matcher(k, Lower(t[0]));
      if Matches(m) then WordState(m, t) else if first || IsToken(Lower(t[0])) then Token(k) else General
  }

  lemma FirstLetter(k: List, c: char)
    ensures var m := Matcher(k, Lower(c)); Matches(m) ==> WordState(m, [c]) == m
  {
    var m := Matcher(k, Lower(c));
    if Matches(m) { assert Literal(m)[..1] == [Literal(m)[0]] && LowText([c]) == [Lower(c)]; }
  }

  lemma {:induction false} ElementRead(k: List, v: Val, e: string)
    requires v.hs == TokenStart(k) && v.index == 0 && Plain(e) && NoComma(e)
    ensures ReadsTo(v, e, ElementState(k, e, false))
    decreases |e|
  {
    if e != [] {
      var c, rest := e[0], e[1..];
      assert Plain(rest) && NoComma(rest) && [c] + rest == e && PlainByte(c);
      StartByte(k, v, c);
      var w := ValueByte(v, c).v;
      hide ValueByte, WordState, Lower;
      if c == ' ' {
        ElementRead(k, v, rest);
      } else if Matches(Matcher(k, Lower(c))) {
        FirstLetter(k, c);
        WordText(Matcher(k, Lower(c)), [c], w, rest);
      } else {
        TokenText(w, rest);
      }
    }
  }

  lemma LowBlank(c: char)
    requires PlainByte(c)
    ensures Lower(c) != '\t' && (Lower(c) == ' ' <==> c == ' ')
  {
  }

  lemma StartByte(k: List, v: Val, c: char)
    requires v.hs == TokenStart(k) && PlainByte(c)
    ensures var m := Matcher(k, Lower(c));
            ValueByte(v, c) ==
            ValOk(v.(hs := if c == ' ' then v.hs else if Matches(m) then m else if IsToken(Lower(c)) then Token(k) else General))
  {
    LowBlank(c);
    hide Lower;
    assert !IsToken(' ');
  }

  function CommaAt(s: string): (n: nat)
    ensures n <= |s| && NoComma(s[..n]) && (n < |s| ==> s[n] == ',')
  {
    if s == [] || s[0] == ',' then 0
    else
      var n := 1 + CommaAt(s[1..]);
      assert s[..n] == [s[0]] + s[1..][..n - 1];
      n
  }

  function Elements(s: string): (es: seq<string>)
    ensures es != []
    decreases |s|
  {
    var n := CommaAt(s);
    if n == |s| then [s] else [s[..n]] + Elements(s[n + 1..])
  }

  /** The comma after the element is taken for part of a token, and the element after it with it. */
  predicate Swallows(k: List, e: string, first: bool) {
    (first && e == []) || Matches(ElementState(k, e, first)) || ElementState(k, e, first) == TeChunked
  }

  /** Nothing after the element is looked at. */
  predicate Stops(k: List, e: string, first: bool) {
    ElementState(k, e, first) == General || (!first && ElementState(k, e, first) == TokenStart(k))
  }

  /** The flags after some elements. */
  function Heard(k: List, f: Flags, es: seq<string>, first: bool): Flags
    decreases |es|
  {
    if es == [] then f
    else if |es| == 1 then FinishValue(f, ElementState(k, es[0], first))
    else if Stops(k, es[0], first) then f
    else if Swallows(k, es[0], first) then Heard(k, f, es[2..], false)
    else Heard(k, SetConnection(f, ElementState(k, es[0], first)), es[1..], false)
  }

  /** The flags that a value leaves when it ends here. */
  ghost predicate Ends(v: Val, s: string, f: Flags) {
    var r := Values(v, s); r.ValOk? && FinishValue(r.v.flags, r.v.hs) == f && r.v.length == v.length
  }

  lemma ElementsSplit(s: string)
    ensures var n := CommaAt(s);
            Elements(s) == if n == |s| then [s] else [s[..n]] + Elements(s[n + 1..])
    ensures var n, es := CommaAt(s), Elements(s);
            n < |s| ==> |es| > 1 && es[1..] == Elements(s[n + 1..]) && s == s[..n] + ([','] + s[n + 1..])
  {
    hide Elements, CommaAt;
    ElementsAre(s);
    var n := CommaAt(s);
    if n < |s| {
      CutAt(s, n);
      Tail(s[..n], Elements(s[n + 1..]));
    }
  }

  lemma CutAt(s: string, n: nat)
    requires n < |s| && s[n] == ','
    ensures s == s[..n] + ([','] + s[n + 1..])
  {
    assert [','] + s[n + 1..] == s[n..];
  }

  lemma Tail(e: string, rest: seq<string>)
    requires rest != []
    ensures ([e] + rest)[1..] == rest && |[e] + rest| > 1
  {
  }

  lemma ElementsAre(s: string)
    ensures var n := CommaAt(s);
            Elements(s) == if n == |s| then [s] else [s[..n]] + Elements(s[n + 1..])
  {
    hide CommaAt;
  }

  lemma HeardLast(k: List, f: Flags, e: string, first: bool)
    ensures Heard(k, f, [e], first) == FinishValue(f, ElementState(k, e, first))
  {
  }

  lemma HeardCons(k: List, f: Flags, e: string, more: seq<string>, first: bool)
    requires more != []
    ensures Heard(k, f, [e] + more, first) ==
            if Stops(k, e, first) then f
            else if Swallows(k, e, first) then if |more| == 1 then f else Heard(k, f, more[1..], false)
            else Heard(k, SetConnection(f, ElementState(k, e, first)), more, false)
  {
    var es := [e] + more;
    assert es[0] == e && es[1..] == more && es[2..] == more[1..];
    hide Stops, Swallows, ElementState;
  }

  lemma EndsHere(v: Val, s: string, w: Val, f: Flags)
    requires Values(v, s) == ValOk(w) && w.length == v.length && FinishValue(w.flags, w.hs) == f
    ensures Ends(v, s, f)
  {
  }

  lemma EndsAfter(v: Val, a: string, w: Val, b: string, f: Flags)
    requires Values(v, a) == ValOk(w) && w.length == v.length && Ends(w, b, f)
    ensures Ends(v, a + b, f)
  {
    ValuesConcat(v, a, b);
  }

  /** The comma after an element. */
  lemma CommaStep(k: List, e: string, first: bool, v: Val)
    requires v.hs == ElementState(k, e, first) && !(first && e == [])
    ensures var r := ValueByte(v, ',');
            && r.ValOk? && r.v.length == v.length
            && (Stops(k, e, first) ==> r.v.hs == General && r.v.flags == v.flags)
            && (Swallows(k, e, first) ==> r.v.hs == Token(k) && r.v.flags == v.flags)
            && (!Stops(k, e, first) && !Swallows(k, e, first) ==>
                  r.v.hs == TokenStart(k) && r.v.index == 0 && r.v.flags == SetConnection(v.flags, v.hs))
  {
    ElementKinds(k, e, first);
    hide ElementState;
  }

  lemma ElementKinds(k: List, e: string, first: bool)
    ensures var h := ElementState(k, e, first);
            h == General || h == TokenStart(k) || h == Token(k) ||
            (if k.ConnectionList? then h.ConnMatchKeepAlive? || h.ConnMatchClose? || h.ConnMatchUpgrade? || h.ConnKeepAlive? || h.ConnClose? || h.ConnUpgrade?
             else h.TeMatchChunked? || h.TeChunked?)
    ensures first ==> ElementState(k, e, first) != General && ElementState(k, e, first) != TokenStart(k)
  {
    hide IsWord, LowText, Lower, IsToken;
  }

  /** What follows an element that has been read. */
  lemma {:induction false} FromElement(k: List, v: Val, e: string, first: bool, s: string)
    requires v.hs == ElementState(k, e, first) && !(first && e == []) && Plain(s)
    ensures Ends(v, [',' ] + s, Heard(k, v.flags, [e] + Elements(s), first))
    decreases |s|, 4
  {
    hide ValueByte, ElementState, Stops, Swallows, Heard, Elements, Values, Ends, SetConnection;
    CommaStep(k, e, first, v);
    ValuesOne(v, ',');
    var w := ValueByte(v, ',').v;
    var f := Heard(k, v.flags, [e] + Elements(s), first);
    HeardCons(k, v.flags, e, Elements(s), first);
    if Stops(k, e, first) {
      StaysGeneral(w, s);
    } else if Swallows(k, e, first) {
      SkipElement(k, w, s);
    } else {
      FromStart(k, w, s);
    }
    assert Ends(w, s, f);
    EndsAfter(v, [','], w, s, f);
  }

  lemma StaysGeneral(v: Val, s: string)
    requires v.hs == General && Plain(s)
    ensures Ends(v, s, v.flags)
  {
    TokenText(v, s);
    hide Values;
  }

  lemma {:induction false} FromStart(k: List, v: Val, s: string)
    requires v.hs == TokenStart(k) && v.index == 0 && Plain(s)
    ensures Ends(v, s, Heard(k, v.flags, Elements(s), false))
    decreases |s|, 3
  {
    hide ValueByte, ElementState;
    var n := CommaAt(s);
    ElementRead(k, v, s[..n]);
    AfterElement(k, v, s, n, false, Values(v, s[..n]).v, s[..n]);
  }

  /** An element at the start of a value has been read: the value ends, or a comma follows. */
  lemma {:induction false} AfterElement(k: List, v: Val, s: string, n: nat, first: bool, w: Val, read: string)
    requires n == CommaAt(s) && Plain(s) && w.flags == v.flags && w.length == v.length && Values(v, read) == ValOk(w)
    requires w.hs == ElementState(k, s[..n], first) && !(first && n == 0)
    ensures Ends(v, read + s[n..], Heard(k, v.flags, Elements(s), first))
    ensures read == s[..n] ==> Ends(v, s, Heard(k, v.flags, Elements(s), first))
    decreases |s|, 1
  {
    hide ElementState, Stops, Swallows, Heard, Elements, Values, Ends;
    assert s[..n] + s[n..] == s;
    ElementsSplit(s);
    if n == |s| {
      assert s[..n] == s && read + s[n..] == read;
      HeardLast(k, v.flags, s, first);
      EndsHere(v, read, w, FinishValue(w.flags, w.hs));
    } else {
      var rest := s[n + 1..];
      FromElement(k, w, s[..n], first, rest);
      assert s[n..] == [','] + rest;
      EndsAfter(v, read, w, s[n..], Heard(k, v.flags, Elements(s), first));
    }
  }

  /** After a swallowed comma the next element is lost. */
  lemma {:induction false} SkipElement(k: List, v: Val, s: string)
    requires v.hs == Token(k) && Plain(s)
    ensures var es := Elements(s);
            Ends(v, s, if |es| == 1 then v.flags else Heard(k, v.flags, es[1..], false))
    decreases |s|, 0
  {
    hide ValueByte, ElementState, Heard, Elements, Values, Ends, CommaAt, Token, TokenStart;
    var n := CommaAt(s);
    SkipText(k, v, s[..n]);
    ElementsSplit(s);
    if n == |s| {
      assert s[..n] == s;
      TokenEnds(k, v.flags);
      EndsHere(v, s, v, v.flags);
    } else {
      var rest := s[n + 1..];
      var w := v.(hs := TokenStart(k), index := 0);
      TokenComma(k, v);
      FromStart(k, w, rest);
      var f := Heard(k, v.flags, Elements(rest), false);
      EndsAfter(v, [','], w, rest, f);
      EndsAfter(v, s[..n], v, [','] + rest, f);
    }
  }

  lemma SkipText(k: List, v: Val, s: string)
    requires v.hs == Token(k) && Plain(s) && NoComma(s)
    ensures Values(v, s) == ValOk(v)
  {
    TokenText(v, s);
  }

  lemma TokenComma(k: List, v: Val)
    requires v.hs == Token(k)
    ensures Values(v, [',']) == ValOk(v.(hs := TokenStart(k), index := 0))
  {
    ValuesOne(v, ',');
  }

  lemma TokenEnds(k: List, f: Flags)
    ensures FinishValue(f, Token(k)) == f
  {
  }

  /** The whole value, from its first byte on. */
  lemma WholeValue(k: List, v: Val, s: string)
    requires v.hs == (if k.ConnectionList? then Connection else TransferEncoding)
    requires Plain(s) && s != [] && s[0] != ' ' && s[0] != '\t'
    ensures var r := StartValue(v, s[0]);
            r.ValOk? && r.v.length == v.length && Ends(r.v, s[1..], Heard(k, v.flags, Elements(s), true))
  {
    hide ValueByte, StartValue, WordState, Lower, Matcher, Heard, Elements, ElementState, Values, Ends, IsToken;
    var c, n := s[0], CommaAt(s);
    var m := Matcher(k, Lower(c));
    var w := v.(index := 0, hs := if Matches(m) then m else Token(k));
    FirstOfList(k, v, c);
    if c == ',' {
      LeadingComma(k, v.flags, s);
      SkipElement(k, w, s[1..]);
    } else {
      var e, more := s[..n], s[..n][1..];
      assert n > 0 && e == [c] + more && Plain(more) && NoComma(more);
      FirstElement(k, w, c, more);
      var x := Values(w, more).v;
      AfterElement(k, w, s, n, true, x, more);
      assert more + s[n..] == s[1..];
    }
  }

  lemma FirstOfList(k: List, v: Val, c: char)
    requires v.hs == (if k.ConnectionList? then Connection else TransferEncoding)
    ensures var m := Matcher(k, Lower(c));
            StartValue(v, c) == ValOk(v.(index := 0, hs := if Matches(m) then m else Token(k)))
  {
    hide Lower;
  }

  /** The rest of the first element, after its first byte. */
  lemma FirstElement(k: List, w: Val, c: char, more: string)
    requires Plain(more) && NoComma(more) && w.index == 0
    requires var m := Matcher(k, Lower(c)); w.hs == if Matches(m) then m else Token(k)
    ensures ReadsTo(w, more, ElementState(k, [c] + more, true))
  {
    var m, e := Matcher(k, Lower(c)), [c] + more;
    assert e != [] && e[0] == c;
    hide ValueByte, WordState, Lower, Matcher, IsToken;
    FirstLetter(k, c);
    if Matches(m) { WordText(m, [c], w, more); } else { TokenText(w, more); }
  }

  lemma LeadingComma(k: List, f: Flags, s: string)
    requires s != [] && s[0] == ','
    ensures !Matches(Matcher(k, Lower(',')))
    ensures var es := Elements(s[1..]);
            Heard(k, f, Elements(s), true) == if |es| == 1 then f else Heard(k, f, es[1..], false)
  {
    var es := Elements(s[1..]);
    assert Elements(s) == [[]] + es;
    assert ([[]] + es)[2..] == es[1..];
  }

  // ---------- What the flags mean ----------

  function FlagOf(f: Flags, h: Hs): bool {
    match h
    case ConnKeepAlive => f.keepAlive case ConnClose => f.close case ConnUpgrade => f.connUpgrade case TeChunked => f.chunked
    case _ => false
  }

  /** The element is looked at: no element before it stops the matcher or swallows it. */
  predicate Reached(k: List, es: seq<string>, i: nat, first: bool)
    requires i < |es|
    decreases |es|
  {
    i == 0 ||
    (!Stops(k, es[0], first) &&
     if Swallows(k, es[0], first) then i >= 2 && Reached(k, es[2..], i - 2, false) else Reached(k, es[1..], i - 1, false))
  }

  /** The word of a flag. */
  function WordOf(h: Hs): string {
    match h case ConnKeepAlive => KEEP_ALIVE case ConnClose => CLOSE case ConnUpgrade => UPGRADE case TeChunked => CHUNKED case _ => ""
  }

  predicate ConnectionFlag(h: Hs) { h.ConnKeepAlive? || h.ConnClose? || h.ConnUpgrade? }

  /** An element is in the state of a flag exactly if it is the word of the flag. */
  lemma ElementIsWord(k: List, e: string, first: bool, h: Hs)
    requires if k.ConnectionList? then ConnectionFlag(h) else h.TeChunked?
    ensures ElementState(k, e, first) == h <==> IsWord(if first then e else Trim(e), WordOf(h))
  {
    var t := if first then e else Trim(e);
    if IsWord(t, WordOf(h)) {
      var w := WordOf(h);
      assert LowText(t[..|w|])[0] == Lower(t[0]) == w[0];
      WordLength(t, w);
    }
    hide LowText, Lower;
  }

  lemma WordLength(t: string, w: string)
    requires IsWord(t, w)
    ensures |t| >= |w|
  {
  }

  ghost predicate Named(k: List, es: seq<string>, first: bool, h: Hs, i: nat)
    requires i < |es|
  {
    Reached(k, es, i, first) && ElementState(k, es[i], first && i == 0) == h
  }

  /** A flag of the connection is set if and only if an element that is looked at is its word. */
  lemma {:induction false} HeardExact(f: Flags, es: seq<string>, first: bool, h: Hs)
    requires ConnectionFlag(h) && es != []
    ensures FlagOf(Heard(ConnectionList, f, es, first), h) <==>
            FlagOf(f, h) || exists i: nat :: i < |es| && Named(ConnectionList, es, first, h, i)
    decreases |es|
  {
    hide *;
    var k := ConnectionList;
    var e := ElementState(k, es[0], first);
    FlagSet(f, es[0], first, h);
    if Swallows(k, es[0], first) || Stops(k, es[0], first) { SwallowedFlag(es[0], first, h); }
    if |es| == 1 {
      assert es == [es[0]];
      HeardLast(k, f, es[0], first);
      NamedFirst(k, es, first, h);
    } else {
      var more := es[1..];
      assert es == [es[0]] + more;
      HeardCons(k, f, es[0], more, first);
      NamedFirst(k, es, first, h);
      if !Stops(k, es[0], first) {
        NamedLater(k, es, first, h, if Swallows(k, es[0], first) then 2 else 1);
        if !Swallows(k, es[0], first) {
          HeardExact(SetConnection(f, e), more, false, h);
        } else if |more| > 1 {
          assert more[1..] == es[2..];
          HeardExact(f, more[1..], false, h);
        }
      }
    }
  }

  lemma SwallowedFlag(e: string, first: bool, h: Hs)
    requires ConnectionFlag(h) && (Swallows(ConnectionList, e, first) || Stops(ConnectionList, e, first))
    ensures ElementState(ConnectionList, e, first) != h
  {
    if first && e == [] {
      assert ElementState(ConnectionList, e, first) == ConnToken;
    } else {
      ElementKinds(ConnectionList, e, first);
      hide ElementState;
    }
  }

  /** Nothing but the first element is looked at when it stops the matcher or is alone. */
  lemma NamedFirst(k: List, es: seq<string>, first: bool, h: Hs)
    requires es != []
    ensures ElementState(k, es[0], first) == h ==> exists i: nat :: i < |es| && Named(k, es, first, h, i)
    ensures |es| == 1 || Stops(k, es[0], first) ==>
              ((exists i: nat :: i < |es| && Named(k, es, first, h, i)) <==> ElementState(k, es[0], first) == h)
  {
    hide ElementState, Stops, Swallows;
    if ElementState(k, es[0], first) == h { assert Named(k, es, first, h, 0); }
  }

  lemma FlagSet(f: Flags, e: string, first: bool, h: Hs)
    requires ConnectionFlag(h)
    ensures var g := ElementState(ConnectionList, e, first);
            && FlagOf(FinishValue(f, g), h) == (FlagOf(f, h) || g == h)
            && FlagOf(SetConnection(f, g), h) == (FlagOf(f, h) || g == h)
  {
    ElementKinds(ConnectionList, e, first);
    hide ElementState;
  }

  /** An element is named in a list exactly if it is the first, or named in the rest that is looked at. */
  lemma NamedLater(k: List, es: seq<string>, first: bool, h: Hs, d: nat)
    requires |es| > 1 && !Stops(k, es[0], first) && d == if Swallows(k, es[0], first) then 2 else 1
    ensures (exists i: nat :: i < |es| && Named(k, es, first, h, i)) <==>
            ElementState(k, es[0], first) == h || exists i: nat :: i < |es| - d && Named(k, es[d..], false, h, i)
  {
    hide Stops, Swallows, ElementState, Named;
    var rest := es[d..];
    if exists i: nat :: i < |es| && Named(k, es, first, h, i) {
      var i: nat :| i < |es| && Named(k, es, first, h, i);
      NamedAt(k, es, first, h, d, i);
      if i > 0 { assert Named(k, rest, false, h, i - d); }
    }
    NamedFirst(k, es, first, h);
    if exists i: nat :: i < |rest| && Named(k, rest, false, h, i) {
      var i: nat :| i < |rest| && Named(k, rest, false, h, i);
      NamedAt(k, es, first, h, d, i + d);
      assert Named(k, es, first, h, i + d);
    }
  }

  lemma NamedAt(k: List, es: seq<string>, first: bool, h: Hs, d: nat, i: nat)
    requires |es| > 1 && !Stops(k, es[0], first) && d == (if Swallows(k, es[0], first) then 2 else 1) && i < |es|
    ensures if i == 0 then Named(k, es, first, h, i) <==> ElementState(k, es[0], first) == h
            else Named(k, es, first, h, i) <==> i >= d && Named(k, es[d..], false, h, i - d)
  {
    hide Stops, Swallows, ElementState;
    if i >= d { assert es[d..][i - d] == es[i]; }
  }

  /** The body is chunked if and only if the last element is looked at and is "chunked". */
  lemma {:induction false} ChunkedExact(f: Flags, es: seq<string>, first: bool)
    requires es != []
    ensures Heard(EncodingList, f, es, first).chunked <==>
            f.chunked || Named(EncodingList, es, first, TeChunked, |es| - 1)
    decreases |es|
  {
    hide *;
    var k := EncodingList;
    var n := |es| - 1;
    ChunkedSet(f, es[0], first);
    if n == 0 {
      assert es == [es[0]];
      HeardLast(k, f, es[0], first);
      NamedOnly(k, es, first, TeChunked);
    } else {
      var more := es[1..];
      assert es == [es[0]] + more;
      HeardCons(k, f, es[0], more, first);
      if Stops(k, es[0], first) {
        NotReached(k, es, first, TeChunked, n);
      } else {
        NamedAt(k, es, first, TeChunked, if Swallows(k, es[0], first) then 2 else 1, n);
        if !Swallows(k, es[0], first) {
          ChunkedExact(f, more, false);
        } else if |more| > 1 {
          assert more[1..] == es[2..];
          ChunkedExact(f, more[1..], false);
        }
      }
    }
  }

  lemma ChunkedSet(f: Flags, e: string, first: bool)
    ensures var h := ElementState(EncodingList, e, first);
            && FinishValue(f, h).chunked == (f.chunked || h == TeChunked) && SetConnection(f, h) == f
            && (h == TeChunked ==> Swallows(EncodingList, e, first) && !Stops(EncodingList, e, first))
  {
    ElementKinds(EncodingList, e, first);
    hide ElementState;
  }

  lemma NamedOnly(k: List, es: seq<string>, first: bool, h: Hs)
    requires |es| == 1
    ensures Named(k, es, first, h, 0) <==> ElementState(k, es[0], first) == h
  {
    hide ElementState;
  }

  lemma NotReached(k: List, es: seq<string>, first: bool, h: Hs, i: nat)
    requires 0 < i < |es| && Stops(k, es[0], first)
    ensures !Named(k, es, first, h, i)
  {
    hide ElementState, Stops, Swallows;
  }

  /** If no element but the last is a beginning of a word, empty or begins with a byte that is not of a token, every
      element is looked at. */
  lemma {:induction false} OrderlyReached(k: List, es: seq<string>, first: bool, i: nat)
    requires i < |es|
    requires forall j | 0 <= j < |es| - 1 :: !Stops(k, es[j], first && j == 0) && !Swallows(k, es[j], first && j == 0)
    ensures Reached(k, es, i, first)
    decreases |es|
  {
    hide Stops, Swallows;
    if i > 0 {
      var rest := es[1..];
      assert forall j | 0 <= j < |rest| :: rest[j] == es[j + 1];
      OrderlyReached(k, rest, false, i - 1);
    }
  }

  /** A comma ends an element. */
  lemma ElementsCons(e: string, more: string)
    requires NoComma(e)
    ensures Elements(e) == [e] && Elements(e + ("," + more)) == [e] + Elements(more)
  {
    var s := e + ("," + more);
    hide Elements, CommaAt;
    ElementsAre(e);
    ElementsAre(s);
    CommaPlace(e, |e|);
    CommaPlace(s, |e|);
    assert s[..|e|] == e && s[|e| + 1..] == more;
  }

  lemma CommaPlace(s: string, n: nat)
    requires n <= |s| && NoComma(s[..n]) && (n < |s| ==> s[n] == ',')
    ensures CommaAt(s) == n
  {
    assert forall i | 0 <= i < n :: s[i] == s[..n][i];
    assert forall i | 0 <= i < CommaAt(s) :: s[i] == s[..CommaAt(s)][i];
  }

  /** A word behind an empty element does not count. */
  lemma LostAfterEmpty()
    ensures Heard(ConnectionList, NO_FLAGS, Elements("close,,keep-alive"), true) == NO_FLAGS.(close := true)
  {
    hide ElementState, Heard, Elements, IsWord, Stops, Swallows;
    assert "close" + ("," + ",keep-alive") == "close,,keep-alive" && "" + ("," + "keep-alive") == ",keep-alive";
    ElementsCons("close", ",keep-alive");
    ElementsCons("", "keep-alive");
    ElementsCons("keep-alive", "");
    CloseCounts(["", "keep-alive"]);
    EmptyStops();
    HeardCons(ConnectionList, NO_FLAGS.(close := true), "", ["keep-alive"], false);
    assert ["close"] + ([""] + ["keep-alive"]) == ["close"] + ["", "keep-alive"] && [""] + ["keep-alive"] == ["", "keep-alive"];
  }

  lemma EmptyStops()
    ensures Stops(ConnectionList, "", false)
  {
  }

  /** Nor does a word behind the beginning of a word. */
  lemma LostAfterBeginning()
    ensures Heard(ConnectionList, NO_FLAGS, Elements("c,close"), true) == NO_FLAGS
  {
    hide Heard, Elements;
    assert "c" + ("," + "close") == "c,close";
    ElementsCons("c", "close");
    ElementsCons("close", "");
    assert Swallows(ConnectionList, "c", true) by { assert LowText("c") == "c" == CLOSE[..1]; }
    assert !Stops(ConnectionList, "c", true);
    hide ElementState, IsWord, Stops, Swallows;
    HeardCons(ConnectionList, NO_FLAGS, "c", ["close"], true);
  }

  /** Nor does a word behind a tab. */
  lemma LostAfterTab()
    ensures Heard(ConnectionList, NO_FLAGS, Elements("close,\tkeep-alive"), true) == NO_FLAGS.(close := true)
  {
    hide ElementState, Heard, Elements, IsWord, Stops, Swallows;
    assert "close" + ("," + "\tkeep-alive") == "close,\tkeep-alive";
    ElementsCons("close", "\tkeep-alive");
    ElementsCons("\tkeep-alive", "");
    CloseCounts(["\tkeep-alive"]);
    TabStops("\tkeep-alive");
    HeardLast(ConnectionList, NO_FLAGS.(close := true), "\tkeep-alive", false);
  }

  lemma TabStops(e: string)
    requires e != [] && e[0] == '\t'
    ensures ElementState(ConnectionList, e, false) == General
  {
    assert Trim(e) == e && Lower('\t') == ')';
    hide WordState, Lower;
  }

  lemma CloseCounts(more: seq<string>)
    requires more != []
    ensures Heard(ConnectionList, NO_FLAGS, ["close"] + more, true) == Heard(ConnectionList, NO_FLAGS.(close := true), more, false)
  {
    ElementIsWord(ConnectionList, "close", true, ConnClose);
    assert IsWord("close", CLOSE) by { assert "close"[..5] == "close"; }
    HeardCons(ConnectionList, NO_FLAGS, "close", more, true);
    hide ElementState, Heard, IsWord;
  }

  // ---------- In the stream of bytes ----------

  ghost function WithValue(p: Parser, v: Val, n: nat): Parser {
    p.(st := Header(Value), hs := v.hs, index := v.index, flags := v.flags, length := v.length, nread := p.nread + n)
  }

  function ValueOf(p: Parser): Val { Val(p.hs, p.index, p.flags, p.length) }

  lemma NextValueByte(p: Parser, log: Log, c: char)
    requires p.st == Header(Value) && PlainByte(c) && p.nread < MAX_HEADER_SIZE && ValueByte(ValueOf(p), c).ValOk?
    ensures ByteStep(p, log, c) == Done(WithValue(p, ValueByte(ValueOf(p), c).v, 1), Emit(log, ValuePiece, [c]))
  {
    hide ValueByte, Emit;
    assert Exec(Counted(p), c) == ValuePass(Counted(p), c);
  }

  lemma FirstValueByte(p: Parser, log: Log, c: char)
    requires (p.st == Header(DiscardWs) && c != ' ' && c != '\t') || p.st == Header(ValueStart)
    requires c != '\r' && c != '\n' && p.nread < MAX_HEADER_SIZE && StartValue(ValueOf(p), c).ValOk?
    ensures ByteStep(p, log, c) == Done(WithValue(p, StartValue(ValueOf(p), c).v, 1), Emit(log, ValuePiece, [c]))
  {
    hide StartValue, Emit;
    assert Exec(Counted(p), c) == ValueStartPass(Counted(p), c);
  }

  lemma {:induction false} ValueBytes(p: Parser, log: Log, s: string)
    requires p.st == Header(Value) && Plain(s) && p.nread + |s| <= MAX_HEADER_SIZE && Values(ValueOf(p), s).ValOk?
    requires EndsWith(log, ValuePiece)
    ensures RunBytes(p, log, s) == All(WithValue(p, Values(ValueOf(p), s).v, |s|), Emit(log, ValuePiece, s))
    decreases |s|
  {
    hide ByteStep, ValueByte, Emit, EndsWith;
    if s == [] {
      EmitNothing(log, ValuePiece);
    } else {
      NextValueByte(p, log, s[0]);
      var q := WithValue(p, ValueByte(ValueOf(p), s[0]).v, 1);
      EmitEmit(log, ValuePiece, [s[0]], s[1..]);
      EmitEmit(log, ValuePiece, [], [s[0]]);
      assert [s[0]] + s[1..] == s;
      ValueBytes(q, Emit(log, ValuePiece, [s[0]]), s[1..]);
    }
  }

  lemma LineEnd(p: Parser, log: Log, end: string)
    requires p.st == Header(Value) && IsLineEnd(end) && p.nread + |end| <= MAX_HEADER_SIZE
    ensures RunBytes(p, log, end) == All(p.(st := Header(ValueLws), nread := p.nread + |end|), log)
  {
    if end == "\n" {
      FeedAlone(p, log);
      hide ByteStep;
      RunOne(p, log, '\n');
      assert ['\n'] == "\n";
    } else {
      var q := p.(st := Header(AlmostDone), nread := p.nread + 1);
      assert Exec(Counted(p), '\r') == ValuePass(Counted(p), '\r');
      assert Exec(Counted(q), '\n') == Next(Counted(q).(st := Header(ValueLws)), []);
      assert ByteStep(p, log, '\r') == Done(q, log);
      assert ByteStep(q, log, '\n') == Done(p.(st := Header(ValueLws), nread := p.nread + 2), log);
      hide ByteStep;
      RunOne(p, log, '\r');
      RunOne(q, log, '\n');
      RunConcat(p, log, "\r", "\n");
      assert "\r" + "\n" == "\r\n";
    }
  }

  lemma FeedAlone(p: Parser, log: Log)
    requires p.st == Header(Value) && p.nread < MAX_HEADER_SIZE
    ensures ByteStep(p, log, '\n') == Done(p.(st := Header(ValueLws), nread := p.nread + 1), log)
  {
    var c := Counted(p);
    var d := c.(st := Header(AlmostDone));
    assert Exec(c, '\n') == ValuePass(c, '\n') == Again(d, [Flush(ValuePiece)]);
    assert Exec(d, '\n') == Next(d.(st := Header(ValueLws)), []);
    assert Passes(c, log, '\n') == Passes(d, log, '\n');
  }

  /** A line that does not begin with a blank ends the value before it. */
  lemma NextLine(p: Parser, log: Log, ch: char, rest: string)
    requires p.st == Header(ValueLws) && ch != ' ' && ch != '\t'
    ensures RunBytes(p, log, [ch] + rest) ==
            RunBytes(p.(st := Header(FieldStart), flags := FinishValue(p.flags, p.hs)), log, [ch] + rest)
  {
    var q := p.(st := Header(FieldStart), flags := FinishValue(p.flags, p.hs));
    hide FinishValue;
    assert Exec(Counted(p), ch) == ValueLwsPass(Counted(p), ch) == Again(Counted(q), []);
    assert ByteStep(p, log, ch) == ByteStep(q, log, ch);
    hide ByteStep;
  }

  /** The value of Connection or Transfer-Encoding is reported as one piece, and when the next line begins the flags
      are what its elements say. */
  lemma ListValue(k: List, p: Parser, log: Log, s: string, end: string, ch: char, rest: string) returns (q: Parser)
    requires p.st == Header(DiscardWs) || p.st == Header(ValueStart)
    requires p.hs == (if k.ConnectionList? then Connection else TransferEncoding)
    requires Plain(s) && s != [] && s[0] != ' ' && s[0] != '\t' && p.nread + |s| + |end| <= MAX_HEADER_SIZE
    requires IsLineEnd(end) && ch != ' ' && ch != '\t'
    ensures q == p.(st := Header(FieldStart), hs := q.hs, index := q.index, nread := p.nread + |s| + |end|,
                    flags := Heard(k, p.flags, Elements(s), true))
    ensures RunBytes(p, log, s + end + ([ch] + rest)) ==
            Later(|s| + |end|, RunBytes(q, Emit(log, ValuePiece, s), [ch] + rest))
  {
    hide ByteStep, RunBytes, Emit, Heard, Elements, Values, StartValue, EndsWith, FinishValue;
    WholeValue(k, ValueOf(p), s);
    var w := StartValue(ValueOf(p), s[0]).v;
    FirstValueByte(p, log, s[0]);
    var one := WithValue(p, w, 1);
    RunOne(p, log, s[0]);
    EmitEmit(log, ValuePiece, [s[0]], s[1..]);
    EmitEmit(log, ValuePiece, [], [s[0]]);
    assert [s[0]] + s[1..] == s && [] + [s[0]] == [s[0]];
    EndsEmit(log, [s[0]]);
    ValueBytes(one, Emit(log, ValuePiece, [s[0]]), s[1..]);
    var v := Values(w, s[1..]).v;
    var two := WithValue(one, v, |s| - 1);
    RunConcat(p, log, [s[0]], s[1..]);
    LineEnd(two, Emit(log, ValuePiece, s), end);
    RunConcat(p, log, s, end);
    var three := two.(st := Header(ValueLws), nread := two.nread + |end|);
    RunConcat(p, log, s + end, [ch] + rest);
    NextLine(three, Emit(log, ValuePiece, s), ch, rest);
    q := three.(st := Header(FieldStart), flags := FinishValue(v.flags, v.hs));
  }

  /** In the stream: after this Connection header the connection counts as closing, and nothing else. */
  lemma LostInStream(p: Parser, log: Log, ch: char, rest: string) returns (q: Parser)
    requires (p.st == Header(DiscardWs) || p.st == Header(ValueStart)) && p.hs == Connection && p.flags == NO_FLAGS
    requires p.nread + 19 <= MAX_HEADER_SIZE && ch != ' ' && ch != '\t'
    ensures var s := "close,,keep-alive";
            RunBytes(p, log, s + "\r\n" + ([ch] + rest)) == Later(19, RunBytes(q, Emit(log, ValuePiece, s), [ch] + rest))
    ensures q.st == Header(FieldStart) && q.flags == NO_FLAGS.(close := true)
  {
    hide RunBytes, Heard, Elements;
    LostAfterEmpty();
    q := ListValue(ConnectionList, p, log, "close,,keep-alive", "\r\n", ch, rest);
  }

  lemma EndsEmit(log: Log, bytes: string)
    ensures EndsWith(Emit(log, ValuePiece, bytes), ValuePiece)
  {
  }
}
