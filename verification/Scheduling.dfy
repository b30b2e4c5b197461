/** The scheduler of the coroutine loop on values: four lists and the coroutine that runs, and what every
    event does to them. */
module Scheduling {
  import opened Sequences
  import opened Wrappers
  import opened LinkedLists

  datatype Sched<T> = Sched(
    running: seq<T>, hold: seq<T>, stateful: seq<T>, stateless: seq<T>, current: Option<T>, deleted: seq<T>)

  /** How a turn ends: the coroutine goes on later, waits, or is finished. */
  datatype Turn = Executing | Holding | Terminated

  /** Coroutines are added by any thread, held ones become ready, a pass of the loop begins, and the turn of
      the running coroutine ends. */
  datatype Event<T> = Add(co: T, keepsState: bool) | Notify(co: T) | Pass | End(turn: Turn)

  function Follower<T(==)>(s: seq<T>, x: T): Option<T> {
    if |s| < 2 then None else if s[0] == x then Some(s[1]) else Follower(s[1..], x)
  }

  function First<T>(s: seq<T>): Option<T> { if s == [] then None else Some(s[0]) }

  const FEW: nat := 5

  /** Ready coroutines join the running ones; those without state only if few with state are ready. */
  function MoveReady<T>(s: Sched<T>): Sched<T> {
    if |s.stateful| < FEW then s.(running := s.running + s.stateful + s.stateless, stateful := [], stateless := [])
    else s.(running := s.running + s.stateful, stateful := [])
  }

  function MoveIfLast<T(==)>(s: Sched<T>, x: T): Sched<T> {
    if Follower(s.running, x).None? then MoveReady(s) else s
  }

  predicate Enabled<T(==)>(s: Sched<T>, e: Event<T>) {
    match e
    case Add(x, _) => x !in s.running && x !in s.hold && x !in s.stateful && x !in s.stateless && x !in s.deleted
    case Notify(x) => x in s.hold
    case Pass => s.current.None?
    case End(_) => s.current.Some?
  }

  /** A coroutine that waits has no follower any more when the loop looks for one, so the pass ends. */
  function Step<T(==)>(s: Sched<T>, e: Event<T>): Sched<T>
    requires Enabled(s, e)
  {
    match e
    case Add(x, true) => s.(stateful := s.stateful + [x])
    case Add(x, false) => s.(stateless := s.stateless + [x])
    case Notify(x) => s.(hold := Without(s.hold, x), running := s.running + [x])
    case Pass =>
      var m := if s.running == [] then MoveReady(s) else s;
      m.(current := First(m.running))
    case End(Executing) =>
      var m := MoveIfLast(s, s.current.value);
      m.(current := Follower(m.running, s.current.value))
    case End(Holding) =>
      var x := s.current.value;
      MoveReady(s.(running := Without(s.running, x), hold := s.hold + [x], current := None))
    case End(Terminated) =>
      var x := s.current.value;
      var m := MoveIfLast(s, x);
      m.(current := Follower(m.running, x), running := Without(m.running, x), deleted := m.deleted + [x])
  }

  /** The three endings of a turn. */
  lemma StepEnds<T>(s: Sched<T>, x: T)
    requires s.current == Some(x)
    ensures var m := MoveIfLast(s, x);
            && Step(s, End(Executing)) == m.(current := Follower(m.running, x))
            && Step(s, End(Terminated)) ==
               m.(current := Follower(m.running, x), running := Without(m.running, x), deleted := m.deleted + [x])
    ensures Step(s, End(Holding)) == MoveReady(s.(running := Without(s.running, x), hold := s.hold + [x], current := None))
  {
    hide MoveIfLast, MoveReady, Follower, Without;
  }

  // ---------- Conservation ----------

  function Times<T(==)>(s: seq<T>, x: T): nat { multiset(s)[x] }

  /** How often a coroutine occurs in the four lists. */
  function InLists<T(==)>(s: Sched<T>, x: T): nat {
    Times(s.running, x) + Times(s.hold, x) + Times(s.stateful, x) + Times(s.stateless, x)
  }

  /** No coroutine is in two places, and the running one is in the list of running coroutines. */
  ghost predicate Inv<T>(s: Sched<T>) {
    && (s.current.Some? ==> s.current.value in s.running)
    && forall x | x in All(s) :: InLists(s, x) + Times(s.deleted, x) <= 1
  }

  function All<T>(s: Sched<T>): seq<T> { s.running + s.hold + s.stateful + s.stateless + s.deleted }

  lemma InvAnywhere<T>(s: Sched<T>, x: T)
    requires Inv(s)
    ensures InLists(s, x) + Times(s.deleted, x) <= 1
  {
    if x !in All(s) { NewIsNowhere(s, x); }
  }

  lemma TimesConcat<T>(a: seq<T>, b: seq<T>, x: T)
    ensures Times(a + b, x) == Times(a, x) + Times(b, x) && Times([], x) == 0 && Times([x], x) == 1
    ensures forall y | y != x :: Times([y], x) == 0
  {
  }

  lemma {:induction false} TimesWithout<T>(s: seq<T>, y: T, x: T)
    requires y in s
    ensures Times(s, x) == Times(Without(s, y), x) + if x == y then 1 else 0
    decreases |s|
  {
    hide Times;
    var head, tail := s[0], s[1..];
    assert s == [head] + tail;
    TimesConcat([head], tail, x);
    TimesConcat([y], [], x);
    if head == y {
      if x != head { OtherTimes(head, x); }
    } else {
      TimesWithout(tail, y, x);
      TimesConcat([head], Without(tail, y), x);
    }
  }

  lemma OtherTimes<T>(y: T, x: T)
    ensures Times([y], x) == if x == y then 1 else 0
  {
  }

  lemma MoveKeeps<T>(s: Sched<T>, x: T)
    ensures var m := MoveReady(s); InLists(m, x) == InLists(s, x) && m.deleted == s.deleted && m.current == s.current
    ensures x in s.running ==> x in MoveReady(s).running
  {
    hide Times;
    TimesConcat(s.running, s.stateful, x);
    TimesConcat(s.running + s.stateful, s.stateless, x);
  }

  /** Nothing is lost or duplicated by any event: an added coroutine is in one more place, the others are in as
      many places as before, and only the end of its last turn moves a coroutine to the deleted ones. */
  lemma StepKeeps<T>(s: Sched<T>, e: Event<T>, x: T)
    requires Enabled(s, e) && (s.current.Some? ==> s.current.value in s.running)
    ensures InLists(Step(s, e), x) + Times(Step(s, e).deleted, x) ==
            InLists(s, x) + Times(s.deleted, x) + if e.Add? && e.co == x then 1 else 0
    ensures Step(s, e).deleted == s.deleted + if e == End(Terminated) then [s.current.value] else []
  {
    hide Times, Without, Follower;
    MoveKeeps(s, x);
    match e
    case Add(y, k) => TimesConcat(if k then s.stateful else s.stateless, [y], x); OtherTimes(y, x);
    case Notify(y) => TimesWithout(s.hold, y, x); TimesConcat(s.running, [y], x); OtherTimes(y, x);
    case Pass =>
    case End(turn) =>
      var y := s.current.value;
      OtherTimes(y, x);
      match turn
      case Executing =>
      case Holding =>
        TimesWithout(s.running, y, x);
        TimesConcat(s.hold, [y], x);
        MoveKeeps(s.(running := Without(s.running, y), hold := s.hold + [y], current := None), x);
      case Terminated =>
        MoveKeeps(s, y);
        TimesWithout(MoveIfLast(s, y).running, y, x);
        TimesConcat(s.deleted, [y], x);
  }

  lemma {:induction false} FollowerIn<T>(s: seq<T>, x: T)
    ensures Follower(s, x).Some? ==> Follower(s, x).value in s
    decreases |s|
  {
    if |s| >= 2 && s[0] != x { FollowerIn(s[1..], x); }
  }

  /** A coroutine that occurs once is not its own follower. */
  lemma {:induction false} FollowerStays<T>(s: seq<T>, x: T)
    requires forall y | y in s :: Times(s, y) <= 1
    ensures Follower(s, x).Some? ==> Follower(s, x).value in Without(s, x)
    decreases |s|
  {
    assert s != [] ==> s == [s[0]] + s[1..];
    if |s| >= 2 && s[0] != x {
      assert forall y | y in s[1..] :: y in s && Times(s, y) >= Times(s[1..], y);
      FollowerStays(s[1..], x);
    }
  }

  lemma StepInv<T>(s: Sched<T>, e: Event<T>)
    requires Inv(s) && Enabled(s, e)
    ensures Inv(Step(s, e))
  {
    StepCounts(s, e);
    StepCurrent(s, e);
  }

  lemma StepCounts<T>(s: Sched<T>, e: Event<T>)
    requires Inv(s) && Enabled(s, e)
    ensures forall x | x in All(Step(s, e)) :: InLists(Step(s, e), x) + Times(Step(s, e).deleted, x) <= 1
  {
    hide Step, InLists, Inv;
    assert s.current.Some? ==> s.current.value in s.running by { CurrentRuns(s); }
    forall x | x in All(Step(s, e)) ensures InLists(Step(s, e), x) + Times(Step(s, e).deleted, x) <= 1 {
      InvAnywhere(s, x);
      StepKeeps(s, e, x);
      if e.Add? && e.co == x { NewIsNowhere(s, x); }
    }
  }

  lemma CurrentRuns<T>(s: Sched<T>)
    requires Inv(s)
    ensures s.current.Some? ==> s.current.value in s.running
  {
  }

  lemma NewIsNowhere<T>(s: Sched<T>, x: T)
    requires x !in s.running && x !in s.hold && x !in s.stateful && x !in s.stateless && x !in s.deleted
    ensures InLists(s, x) + Times(s.deleted, x) == 0
  {
  }

  lemma StepCurrent<T>(s: Sched<T>, e: Event<T>)
    requires Inv(s) && Enabled(s, e)
    ensures var r := Step(s, e); r.current.Some? ==> r.current.value in r.running
  {
    hide Times, InLists;
    if s.current.Some? {
      var x := s.current.value;
      MoveKeeps(s, x);
      var m := MoveIfLast(s, x);
      FollowerIn(m.running, x);
      forall y | y in m.running ensures Times(m.running, y) <= 1 {
        MoveKeeps(s, y);
        RunningTimes(m, y);
        InvAnywhere(s, y);
      }
      FollowerStays(m.running, x);
    }
  }

  lemma RunningTimes<T>(s: Sched<T>, y: T)
    ensures Times(s.running, y) <= InLists(s, y)
  {
  }

  // ---------- Runs ----------

  predicate Possible<T(==)>(s: Sched<T>, events: seq<Event<T>>)
    decreases |events|
  {
    events == [] || (Enabled(s, events[0]) && Possible(Step(s, events[0]), events[1..]))
  }

  function RunAll<T(==)>(s: Sched<T>, events: seq<Event<T>>): Sched<T>
    requires Possible(s, events)
    decreases |events|
  {
    if events == [] then s else RunAll(Step(s, events[0]), events[1..])
  }

  function TimesAdded<T(==)>(events: seq<Event<T>>, x: T): nat {
    if events == [] then 0
    else (if events[0].Add? && events[0].co == x then 1 else 0) + TimesAdded(events[1..], x)
  }

  /** The coroutines whose last turn has ended, in order. */
  function Finished<T(==)>(s: Sched<T>, events: seq<Event<T>>): seq<T>
    requires Possible(s, events)
    decreases |events|
  {
    if events == [] then []
    else (if events[0] == End(Terminated) then [s.current.value] else []) + Finished(Step(s, events[0]), events[1..])
  }

  function Empty<T>(): Sched<T> { Sched([], [], [], [], None, []) }

  lemma {:induction false} RunKeeps<T>(s: Sched<T>, events: seq<Event<T>>, x: T)
    requires Inv(s) && Possible(s, events)
    ensures var r := RunAll(s, events);
            && Inv(r)
            && InLists(r, x) + Times(r.deleted, x) == InLists(s, x) + Times(s.deleted, x) + TimesAdded(events, x)
            && r.deleted == s.deleted + Finished(s, events)
    decreases |events|
  {
    hide Step, InLists, Times, Enabled;
    if events == [] {
      assert s.deleted + [] == s.deleted;
    } else {
      StepInv(s, events[0]);
      StepKeeps(s, events[0], x);
      RunKeeps(Step(s, events[0]), events[1..], x);
    }
  }

  /** Over every run from the empty loop, a coroutine that was added is in exactly one of the four lists, once,
      or it has been deleted, once, after its last turn; a coroutine that was not added is nowhere. */
  lemma Conservation<T>(events: seq<Event<T>>, x: T)
    requires Possible(Empty(), events)
    ensures var r := RunAll(Empty(), events);
            && Inv(r) && r.deleted == Finished(Empty(), events) && TimesAdded(events, x) <= 1
            && Times(r.deleted, x) <= TimesAdded(events, x)
            && InLists(r, x) == TimesAdded(events, x) - Times(r.deleted, x)
  {
    RunKeeps(Empty(), events, x);
    assert [] + Finished(Empty<T>(), events) == Finished(Empty<T>(), events);
  }

  // ---------- The order of turns ----------

  /** A pass picks a coroutine exactly if one is running or ready. */
  lemma PassPicks<T>(s: Sched<T>)
    requires Enabled(s, Pass)
    ensures Step(s, Pass).current.None? <==> s.running == [] && s.stateful == [] && s.stateless == []
  {
  }

  lemma {:induction false} FollowerAt<T>(s: seq<T>, k: nat)
    requires k < |s| && Distinct(s)
    ensures Follower(s, s[k]) == if k + 1 < |s| then Some(s[k + 1]) else None
    decreases |s|
  {
    if k > 0 {
      assert forall i | 0 <= i < |s[1..]| :: s[1..][i] == s[i + 1];
      FollowerAt(s[1..], k - 1);
    }
  }

  /** A pass over a list whose coroutines all go on or end gives each of them its turn, in order: after some
      turns the next coroutine of the list as it was is running, and after all of them the pass is over. */
  predicate RoundFrom<T(==)>(s: Sched<T>, list: seq<T>, k: nat, turns: seq<Turn>)
    requires k <= |list|
    decreases |turns|
  {
    s.current == (if k < |list| then Some(list[k]) else None) &&
    (turns == [] || k == |list| || turns[0] == Holding || RoundFrom(Step(s, End(turns[0])), list, k + 1, turns[1..]))
  }

  /** The coroutines in the order of a pass: the ready ones come behind the running ones. */
  function Queue<T>(s: Sched<T>): seq<T> { s.running + s.stateful + s.stateless }

  /** During a pass: `done` have had their turn, `own` come next, and the ready ones after them. */
  ghost predicate InPass<T>(s: Sched<T>, done: seq<T>, own: seq<T>) {
    && s.running == done + own && s.current == First(own) && Distinct(Queue(s))
    && (own == [] ==> s.stateful == [] && s.stateless == [])
  }

  function Ahead<T>(s: Sched<T>, own: seq<T>): seq<T> { own + s.stateful + s.stateless }

  lemma FollowerOf<T>(done: seq<T>, rest: seq<T>)
    requires rest != [] && Distinct(done + rest)
    ensures Follower(done + rest, rest[0]) == First(rest[1..])
    ensures Without(done + rest, rest[0]) == done + rest[1..] && Distinct(done + rest[1..])
  {
    var s := done + rest;
    FollowerAt(s, |done|);
    WithoutPlace(s, |done|);
    assert s[..|done|] == done && s[|done| + 1..] == rest[1..];
    var t := done + rest[1..];
    forall i, j | 0 <= i < j < |t| ensures t[i] != t[j] {
      assert t[i] == s[if i < |done| then i else i + 1] && t[j] == s[if j < |done| then j else j + 1];
    }
  }

  lemma {:induction false} WithoutPlace<T>(s: seq<T>, k: nat)
    requires k < |s| && Distinct(s)
    ensures Without(s, s[k]) == s[..k] + s[k + 1..]
  {
    WithoutAt(s, k);
  }

  /** Before the last running coroutine is left behind, ready ones join. */
  lemma ReadyJoin<T>(s: Sched<T>, done: seq<T>, own: seq<T>) returns (own': seq<T>)
    requires InPass(s, done, own) && own != []
    ensures var m := MoveIfLast(s, own[0]);
            && m == s.(running := done + own', stateful := m.stateful, stateless := m.stateless)
            && own' != [] && own'[0] == own[0] && Ahead(m, own') == Ahead(s, own) && Queue(m) == Queue(s)
            && (|own'| == 1 ==> m.stateful == [] && m.stateless == [])
  {
    DistinctParts(s);
    FollowerOf(done, own);
    var m := MoveIfLast(s, own[0]);
    own' := own;
    if |own| == 1 {
      var few := |s.stateful| < FEW;
      own' := if few then own + s.stateful + s.stateless else own + s.stateful;
      Joined(s, done, own);
    }
  }

  lemma Joined<T>(s: Sched<T>, done: seq<T>, own: seq<T>)
    requires s.running == done + own
    ensures MoveReady(s).running ==
            if |s.stateful| < FEW then done + (own + s.stateful + s.stateless) else done + (own + s.stateful)
    ensures |s.stateful| < FEW ==> (own + s.stateful + s.stateless) + [] + [] == own + s.stateful + s.stateless
    ensures (own + s.stateful) + [] + s.stateless == own + s.stateful + s.stateless
    ensures Queue(MoveReady(s)) == Queue(s)
  {
    Regroup(done, own, s.stateful);
    Regroup(done, own + s.stateful, s.stateless);
    NothingBehind(own + s.stateful + s.stateless);
    NothingBehind(own + s.stateful);
    NothingBehind(s.running + s.stateful + s.stateless);
    NothingBehind(s.running + s.stateful);
  }

  lemma NothingBehind<T>(a: seq<T>)
    ensures a + [] == a
  {
  }

  lemma DistinctFront<T>(a: seq<T>, b: seq<T>)
    requires Distinct(a + b)
    ensures Distinct(a)
  {
    forall i, j | 0 <= i < j < |a| ensures a[i] != a[j] { assert (a + b)[i] == a[i] && (a + b)[j] == a[j]; }
  }

  /** A turn that does not end in waiting: the next coroutine is the next of all that are ahead. */
  lemma PassStep<T>(s: Sched<T>, done: seq<T>, own: seq<T>, turn: Turn) returns (done': seq<T>, own': seq<T>)
    requires InPass(s, done, own) && own != [] && turn != Holding
    ensures var r := Step(s, End(turn));
            InPass(r, done', own') && Ahead(s, own) == [own[0]] + Ahead(r, own')
  {
    hide MoveIfLast, Follower, Without, Distinct;
    var x := own[0];
    var all := ReadyJoin(s, done, own);
    var m := MoveIfLast(s, x);
    StepEnds(s, x);
    DistinctParts(m);
    FollowerOf(done, all);
    own' := all[1..];
    assert all == [x] + own';
    done' := if turn == Executing then done + [x] else done;
    Regroup(done, [x], own');
    AheadTail(m, x, own');
    if turn == Terminated { QueueWithout(m, done, x, own'); }
  }

  lemma DistinctParts<T>(m: Sched<T>)
    requires Distinct(Queue(m))
    ensures Distinct(m.running)
  {
    Regroup(m.running, m.stateful, m.stateless);
    DistinctFront(m.running, m.stateful + m.stateless);
  }

  lemma AheadTail<T>(m: Sched<T>, x: T, own: seq<T>)
    ensures Ahead(m, [x] + own) == [x] + Ahead(m, own)
  {
    Regroup([x], own, m.stateful);
    Regroup([x], own + m.stateful, m.stateless);
  }

  lemma QueueWithout<T>(m: Sched<T>, done: seq<T>, x: T, own: seq<T>)
    requires Distinct(Queue(m)) && m.running == done + ([x] + own)
    ensures Distinct((done + own) + m.stateful + m.stateless)
  {
    var q, t := Queue(m), (done + own) + m.stateful + m.stateless;
    forall i, j | 0 <= i < j < |t| ensures t[i] != t[j] {
      assert t[i] == q[if i < |done| then i else i + 1] && t[j] == q[if j < |done| then j else j + 1];
    }
  }

  lemma {:induction false} Round<T>(s: Sched<T>, done: seq<T>, own: seq<T>, list: seq<T>, k: nat, turns: seq<Turn>)
    requires InPass(s, done, own) && k <= |list| && list[k..] == Ahead(s, own)
    ensures RoundFrom(s, list, k, turns)
    decreases |turns|
  {
    hide InPass;
    AheadFirst(s, done, own);
    if turns != [] && k < |list| && turns[0] != Holding {
      var done', own' := PassStep(s, done, own, turns[0]);
      assert list[k + 1..] == list[k..][1..];
      Round(Step(s, End(turns[0])), done', own', list, k + 1, turns[1..]);
    }
  }

  lemma AheadFirst<T>(s: Sched<T>, done: seq<T>, own: seq<T>)
    requires InPass(s, done, own)
    ensures s.current == First(Ahead(s, own)) && (own == [] <==> Ahead(s, own) == [])
    ensures own != [] ==> Ahead(s, own)[0] == own[0]
  {
  }

  /** The coroutines that have a turn in a pass whose turns end like this. */
  function HadTurn<T(==)>(s: Sched<T>, turns: seq<Turn>): seq<T>
    decreases |turns|
  {
    if s.current.None? || turns == [] then []
    else [s.current.value] + HadTurn(Step(s, End(turns[0])), turns[1..])
  }

  /** The turns up to the first one that ends in waiting, that one included. */
  function UpToHold(turns: seq<Turn>): (n: nat)
    ensures n <= |turns|
  {
    if turns == [] then 0 else if turns[0] == Holding then 1 else 1 + UpToHold(turns[1..])
  }

  lemma {:induction false} TurnsFrom<T>(s: Sched<T>, done: seq<T>, own: seq<T>, turns: seq<Turn>)
    requires InPass(s, done, own) && |turns| == |Ahead(s, own)|
    ensures HadTurn(s, turns) == Ahead(s, own)[..UpToHold(turns)]
    decreases |turns|
  {
    hide InPass, Ahead;
    AheadFirst(s, done, own);
    if turns != [] {
      var x, r := own[0], Step(s, End(turns[0]));
      if turns[0] == Holding {
        assert r.current == None;
      } else {
        var done', own' := PassStep(s, done, own, turns[0]);
        TurnsFrom(r, done', own', turns[1..]);
      }
    }
  }

  /** Which coroutines have a turn in a pass without additions and notifications: the running and then the
      ready ones, in order, up to the first turn that ends in waiting. All of them have one if and only if no
      turn before the last ends in waiting. */
  lemma PassTurns<T>(s: Sched<T>, turns: seq<Turn>)
    requires Inv(s) && Enabled(s, Pass) && |turns| == |Queue(s)|
    ensures HadTurn(Step(s, Pass), turns) == Queue(s)[..UpToHold(turns)]
    ensures HadTurn(Step(s, Pass), turns) == Queue(s) <==> forall i | 0 <= i < |turns| - 1 :: turns[i] != Holding
  {
    hide Inv, Step, HadTurn, InPass, Ahead, Queue;
    var r, own := PassBegins(s);
    TurnsFrom(r, [], own, turns);
    AllTurns(turns);
  }

  lemma {:induction false} AllTurns(turns: seq<Turn>)
    ensures UpToHold(turns) == |turns| <==> forall i | 0 <= i < |turns| - 1 :: turns[i] != Holding
    decreases |turns|
  {
    if |turns| > 1 {
      AllTurns(turns[1..]);
      if turns[0] != Holding {
        assert forall i | 0 <= i < |turns[1..]| - 1 :: turns[1..][i] == turns[i + 1];
        assert forall i | 0 < i < |turns| - 1 :: turns[i] == turns[1..][i - 1];
      }
    }
  }

  lemma ReadyQueue<T>(s: Sched<T>)
    requires s.running == []
    ensures var m := MoveReady(s); Queue(m) == Queue(s) && (m.running == [] ==> m.stateful == [] && m.stateless == [])
  {
    Joined(s, [], []);
  }

  lemma PassBegins<T>(s: Sched<T>) returns (r: Sched<T>, own: seq<T>)
    requires Inv(s) && Enabled(s, Pass)
    ensures r == Step(s, Pass) && InPass(r, [], own) && Ahead(r, own) == Queue(s)
  {
    hide Inv, Distinct, MoveReady;
    DistinctQueue(s);
    if s.running == [] { ReadyQueue(s); }
    r := Step(s, Pass);
    own := r.running;
    assert [] + own == own;
  }

  /** Some turns after which the coroutine goes on, and one after which it waits. */
  function TurnsThenHold<T>(k: nat): (events: seq<Event<T>>)
    ensures |events| == k + 1
  {
    if k == 0 then [End(Holding)] else [End(Executing)] + TurnsThenHold(k - 1)
  }

  lemma {:induction false} HoldFrom<T>(s: Sched<T>, j: nat, k: nat)
    requires Distinct(s.running) && j + k < |s.running| && s.current == Some(s.running[j])
    ensures Possible(s, TurnsThenHold(k))
    ensures var x := s.running[j + k];
            RunAll(s, TurnsThenHold(k)) == MoveReady(s.(running := Without(s.running, x), hold := s.hold + [x], current := None))
    decreases k
  {
    hide MoveReady, Without, Distinct;
    var events: seq<Event<T>> := TurnsThenHold(k);
    FollowerAt(s.running, j);
    if k == 0 {
      assert events[1..] == [];
    } else {
      var next := s.(current := Some(s.running[j + 1]));
      assert Step(s, End(Executing)) == next;
      assert events[1..] == TurnsThenHold(k - 1);
      HoldFrom(next, j + 1, k - 1);
    }
  }

  /** A turn that ends in waiting cuts the pass: the coroutines behind have no turn, and the next pass begins at
      the front again. */
  lemma HoldCutsPass<T>(s: Sched<T>, k: nat)
    requires Inv(s) && Enabled(s, Pass) && s.stateful == [] && s.stateless == [] && k < |s.running|
    ensures Possible(s, [Pass] + TurnsThenHold(k))
    ensures var x := s.running[k];
            var r := RunAll(s, [Pass] + TurnsThenHold(k));
            && r == s.(running := s.running[..k] + s.running[k + 1..], hold := s.hold + [x])
            && Step(r, Pass).current == First(s.running[..k] + s.running[k + 1..])
  {
    hide Without, Inv;
    DistinctQueue(s);
    DistinctParts(s);
    var x := s.running[k];
    var events: seq<Event<T>> := [Pass] + TurnsThenHold(k);
    var m := s.(current := Some(s.running[0]));
    assert Step(s, Pass) == m && events[1..] == TurnsThenHold(k);
    HoldFrom(m, 0, k);
    WithoutPlace(s.running, k);
    var rest := Without(s.running, x);
    assert rest + [] + [] == rest;
    assert [] + [] + [] == s.stateful;
  }

  /** Every pass is such a round over the running and the ready coroutines. */
  lemma PassIsRound<T>(s: Sched<T>, turns: seq<Turn>)
    requires Inv(s) && Enabled(s, Pass)
    ensures RoundFrom(Step(s, Pass), Queue(s), 0, turns)
  {
    hide Inv, Step, InPass, RoundFrom;
    var r, own := PassBegins(s);
    assert Queue(s)[0..] == Queue(s);
    Round(r, [], own, Queue(s), 0, turns);
  }

  lemma DistinctQueue<T>(s: Sched<T>)
    requires Inv(s)
    ensures Distinct(Queue(s))
  {
    var q := Queue(s);
    forall i, j | 0 <= i < j < |q| ensures q[i] != q[j] {
      TwoPlaces(q, i, j);
      QueueTimes(s, q[i]);
      InvAnywhere(s, q[i]);
    }
  }

  lemma QueueTimes<T>(s: Sched<T>, x: T)
    ensures Times(Queue(s), x) <= InLists(s, x)
  {
    hide Times;
    TimesConcat(s.running, s.stateful, x);
    TimesConcat(s.running + s.stateful, s.stateless, x);
  }

  lemma TwoPlaces<T>(s: seq<T>, i: nat, j: nat)
    requires i < j < |s|
    ensures s[i] == s[j] ==> Times(s, s[i]) >= 2
  {
    var a, b, x := s[..j], s[j..], s[i];
    assert s == a + b && a[i] == x && b[0] == s[j];
    TimesConcat(a, b, x);
    assert x in a && (s[j] == x ==> x in b);
  }
}
