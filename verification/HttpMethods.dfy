/** How the method of a request is recognised: a guess from the first letter that later letters may turn
    into another method. */
module HttpMethods {
  import opened HttpStep
  import opened HttpStream
  import opened HttpFraming

  /** The guess after one more byte; 34 if no method is left. */
  function Guess(m: nat, k: nat, c: char): nat {
    if k < |MethodName(m)| && c == MethodName(m)[k] then m
    else if 'A' <= c <= 'Z' || c == '-' then SwitchMethod(m, k, c)
    else METHOD_COUNT
  }

  /** The guess always names a method that begins with what has been read. */
  ghost predicate Begun(m: nat, s: string) { m < METHOD_COUNT && s != [] && s <= MethodName(m) }

  lemma FirstBegins(c: char)
    ensures FirstMethod(c) < METHOD_COUNT ==> Begun(FirstMethod(c), [c])
  {
  }

  /** Where a method parts from the one that is guessed before it. */
  function Parent(m: nat): nat {
    match m
    case 4 => 3 case 28 => 3 case 12 => 3 case 29 => 4 case 22 => 5 case 8 => 5 case 11 => 10 case 23 => 10 case 24 => 10
    case 21 => 10 case 30 => 10 case 14 => 26 case 33 => 26 case 17 => 20 case 13 => 12 case 31 => 9 case 27 => 15
    case 18 => 15 case 32 => 15
    case _ => m
  }

  function Fork(m: nat): nat {
    match m
    case 4 => 1 case 28 => 1 case 12 => 1 case 29 => 2 case 22 => 1 case 8 => 2 case 11 => 1 case 23 => 1 case 24 => 1
    case 21 => 2 case 30 => 3 case 14 => 1 case 33 => 1 case 17 => 2 case 13 => 4 case 31 => 1 case 27 => 2
    case 18 => 2 case 32 => 3
    case _ => 0
  }

  /** The names agree up to the fork, where the letter of the new method turns the guess into it. */
  lemma Forks(m: nat)
    requires m < METHOD_COUNT && Fork(m) > 0
    ensures var p, i := Parent(m), Fork(m);
            && p < METHOD_COUNT && Fork(p) < i && i < |MethodName(m)| && i <= |MethodName(p)|
            && MethodName(m)[..i] == MethodName(p)[..i]
            && Guess(p, i, MethodName(m)[i]) == m
  {
    ForkShape(m);
    ForkPrefix(m);
    hide MethodName, Parent, Fork, Guess;
    assert MethodName(m)[..Fork(m)] == MethodName(Parent(m))[..Fork(m)];
  }

  lemma ForkShape(m: nat)
    requires m < METHOD_COUNT && Fork(m) > 0
    ensures var p, i := Parent(m), Fork(m);
            && p < METHOD_COUNT && Fork(p) < i && i < |MethodName(m)| && i <= |MethodName(p)|
            && Guess(p, i, MethodName(m)[i]) == m
  {
  }

  lemma ForkPrefix(m: nat)
    requires m < METHOD_COUNT && Fork(m) > 0
    ensures var p, i := Parent(m), Fork(m);
            && i <= |MethodName(m)| && i <= |MethodName(p)|
            && forall k | 0 <= k < i :: MethodName(m)[k] == MethodName(p)[k]
  {
  }

  /** Only a fork turns a guess into another method. */
  lemma SwitchIsFork(m: nat, k: nat, c: char)
    ensures var n := SwitchMethod(m, k, c); n < METHOD_COUNT ==> Fork(n) == k > 0 && Parent(n) == m && k < |MethodName(n)| && MethodName(n)[k] == c
  {
  }

  lemma GuessBegins(m: nat, s: string, c: char)
    requires Begun(m, s)
    ensures Guess(m, |s|, c) < METHOD_COUNT ==> Begun(Guess(m, |s|, c), s + [c])
  {
    hide MethodName, SwitchMethod, Fork, Parent;
    var k, n := |s|, Guess(m, |s|, c);
    if n < METHOD_COUNT {
      if k < |MethodName(m)| && c == MethodName(m)[k] {
        assert s + [c] == MethodName(m)[..k + 1];
      } else {
        SwitchIsFork(m, k, c);
        Forks(n);
        assert s == MethodName(m)[..k];
        assert s + [c] == MethodName(n)[..k + 1];
      }
    }
  }

  /** The guess while the name of a method is read. */
  function GuessAt(m: nat, k: nat): nat
    requires m < METHOD_COUNT
    decreases Fork(m)
  {
    if k > Fork(m) || Fork(m) == 0 then m else Forks(m); GuessAt(Parent(m), k)
  }

  lemma {:induction false} GuessFollows(m: nat, k: nat)
    requires m < METHOD_COUNT && 0 < k < |MethodName(m)|
    ensures Guess(GuessAt(m, k), k, MethodName(m)[k]) == GuessAt(m, k + 1)
    decreases Fork(m)
  {
    hide MethodName, SwitchMethod, Fork, Parent;
    if Fork(m) > 0 {
      Forks(m);
      if k < Fork(m) {
        assert MethodName(m)[..Fork(m)][k] == MethodName(Parent(m))[..Fork(m)][k];
        GuessFollows(Parent(m), k);
      }
    }
  }

  lemma {:induction false} GuessStarts(m: nat)
    requires m < METHOD_COUNT
    ensures MethodName(m) != [] && FirstMethod(MethodName(m)[0]) == GuessAt(m, 1)
    decreases Fork(m)
  {
    if Fork(m) > 0 {
      Forks(m);
      GuessStarts(Parent(m));
      assert MethodName(m)[..Fork(m)][0] == MethodName(Parent(m))[..Fork(m)][0];
    } else {
      Roots(m);
    }
  }

  lemma Roots(m: nat)
    requires m < METHOD_COUNT && Fork(m) == 0
    ensures MethodName(m) != [] && FirstMethod(MethodName(m)[0]) == m
  {
  }

  lemma GuessEnds(m: nat)
    requires m < METHOD_COUNT
    ensures GuessAt(m, |MethodName(m)|) == m
  {
    if Fork(m) > 0 { Forks(m); }
  }

  lemma NameChars(m: nat)
    requires m < METHOD_COUNT
    ensures 0 < |MethodName(m)| < 12
    ensures forall i | 0 <= i < |MethodName(m)| :: 'A' <= MethodName(m)[i] <= 'Z' || MethodName(m)[i] == '-'
  {
    if m < 17 { SpelledBelow17(m); } else { SpelledBelow34(m); }
    hide MethodName;
  }

  predicate Spelled(name: string) { 0 < |name| < 12 && forall i | 0 <= i < |name| :: 'A' <= name[i] <= 'Z' || name[i] == '-' }

  lemma SpelledBelow17(m: nat)
    requires m < 17
    ensures Spelled(MethodName(m))
  {
  }

  lemma SpelledBelow34(m: nat)
    requires 17 <= m < 34
    ensures Spelled(MethodName(m))
  {
  }

  // ---------- In the stream of bytes ----------

  /** A parser that has begun a request: the message has been announced, the guess and how far it goes. */
  ghost function InMethod(p: Parser, m: nat, k: nat): Parser {
    p.(flags := NO_FLAGS, usesTe := false, length := ULLONG_MAX, verb := m, index := k, st := Line(ReqMethod), nread := p.nread + k)
  }

  lemma FirstByte(p: Parser, log: Log, c: char)
    requires p.st == Line(StartReq) && p.nread < MAX_HEADER_SIZE && c != '\r' && c != '\n'
    ensures ByteStep(p, log, c) ==
            if FirstMethod(c) == METHOD_COUNT then Bad(InvalidMethod)
            else Done(InMethod(p, FirstMethod(c), 1), log + [Signalled(MessageBegin)])
  {
    hide MethodName, SwitchMethod, FirstMethod;
    var q := Counted(p);
    assert Exec(q, c) == StartPass(q, c);
  }

  lemma NextByte(p: Parser, log: Log, m: nat, k: nat, c: char)
    requires m < METHOD_COUNT && 0 < k < 31 && p.nread + k < MAX_HEADER_SIZE && c != ' '
    requires Guess(m, k, c) <= METHOD_COUNT
    ensures var r := ByteStep(InMethod(p, m, k), log, c);
            if Guess(m, k, c) < METHOD_COUNT && c as int != 0 then r == Done(InMethod(p, Guess(m, k, c), k + 1), log)
            else r == Bad(InvalidMethod)
  {
    hide MethodName, SwitchMethod, FirstMethod;
    var q := Counted(InMethod(p, m, k));
    assert Exec(q, c) == MethodPass(q, c);
  }

  lemma LastSpace(p: Parser, log: Log, m: nat, k: nat)
    requires m < METHOD_COUNT && 0 < k < 31 && p.nread + k < MAX_HEADER_SIZE
    ensures ByteStep(InMethod(p, m, k), log, ' ') ==
            if k == |MethodName(m)| then
              Done(InMethod(p, m, k).(st := Line(SpacesBeforeUrl), index := k + 1, nread := p.nread + k + 1), log)
            else Bad(InvalidMethod)
  {
    NameChars(m);
    hide MethodName, SwitchMethod, FirstMethod;
    var q := Counted(InMethod(p, m, k));
    assert Exec(q, ' ') == MethodPass(q, ' ');
  }

  predicate Word(s: string) { s != [] && s[0] != '\r' && s[0] != '\n' && forall i | 0 <= i < |s| :: s[i] != ' ' }

  /** Some bytes without a blank: an error, or the guess that names a method beginning with them. */
  lemma {:induction false} WordRead(p: Parser, log: Log, s: string) returns (m: nat)
    requires p.st == Line(StartReq) && Word(s) && p.nread + |s| <= MAX_HEADER_SIZE
    ensures var r := RunBytes(p, log, s);
            if m < METHOD_COUNT then Begun(m, s) && r == All(InMethod(p, m, |s|), log + [Signalled(MessageBegin)]) else r.Failed?
    ensures forall v: nat | v < METHOD_COUNT && s <= MethodName(v) :: m == GuessAt(v, |s|)
    decreases |s|
  {
    hide ByteStep, RunBytes, MethodName, SwitchMethod, FirstMethod, GuessAt, Guess;
    var n := |s| - 1;
    var init, c := s[..n], s[n];
    assert s == init + [c];
    RunConcat(p, log, init, [c]);
    if init == [] {
      RunNothing(p, log);
      FirstByte(p, log, c);
      RunOne(p, log, c);
      FirstBegins(c);
      m := FirstMethod(c);
      FirstBound(c);
      forall v: nat | v < METHOD_COUNT && s <= MethodName(v) ensures m == GuessAt(v, |s|) {
        GuessStarts(v);
        assert MethodName(v)[0] == s[0];
      }
    } else {
      var g := WordRead(p, log, init);
      m := METHOD_COUNT;
      if g < METHOD_COUNT {
        NameChars(g);
        GuessBound(g, n, c);
        NextByte(p, log + [Signalled(MessageBegin)], g, n, c);
        RunOne(InMethod(p, g, n), log + [Signalled(MessageBegin)], c);
        GuessBegins(g, init, c);
        m := if c as int != 0 then Guess(g, n, c) else METHOD_COUNT;
      }
      forall v: nat | v < METHOD_COUNT && s <= MethodName(v) ensures m == GuessAt(v, |s|) {
        assert init <= MethodName(v) && MethodName(v)[n] == c;
        GuessAtBound(v, n);
        GuessFollows(v, n);
        NameChars(v);
      }
    }
  }

  lemma FirstBound(c: char)
    ensures FirstMethod(c) <= METHOD_COUNT
  {
  }

  lemma GuessBound(m: nat, k: nat, c: char)
    requires m < METHOD_COUNT
    ensures Guess(m, k, c) <= METHOD_COUNT
  {
  }

  lemma {:induction false} GuessAtBound(m: nat, k: nat)
    requires m < METHOD_COUNT
    ensures GuessAt(m, k) < METHOD_COUNT
    decreases Fork(m)
  {
    if Fork(m) > 0 {
      Forks(m);
      GuessAtBound(Parent(m), k);
    }
  }

  /** A word followed by a blank is taken as a method if and only if it is the name of one of the methods, and
      then as that method. */
  lemma MethodRecognised(p: Parser, log: Log, s: string, v: nat)
    requires p.st == Line(StartReq) && Word(s) && p.nread + |s| < MAX_HEADER_SIZE && v < METHOD_COUNT
    ensures var r := RunBytes(p, log, s + " ");
            (r.All? && r.p.st == Line(SpacesBeforeUrl) && r.p.verb == v) <==> s == MethodName(v)
  {
    hide ByteStep, RunBytes, MethodName, SwitchMethod, FirstMethod, GuessAt, Guess;
    var m := WordRead(p, log, s);
    RunConcat(p, log, s, " ");
    if s == MethodName(v) { GuessEnds(v); }
    if m < METHOD_COUNT {
      NameChars(m);
      LastSpace(p, log + [Signalled(MessageBegin)], m, |s|);
      RunOne(InMethod(p, m, |s|), log + [Signalled(MessageBegin)], ' ');
      assert [' '] == " ";
      if |s| == |MethodName(m)| { assert s == MethodName(m); }
    }
  }
}
