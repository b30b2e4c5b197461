/** The life of a coroutine in the loop: where it is after any run, by what has happened to it, and in which order the
    ready ones join the running ones. */
module Lifecycles {
  import opened Sequences
  import opened Wrappers
  import opened LinkedLists
  import opened Scheduling

  // ---------- Places ----------

  datatype Place = Nowhere | Ready(keepsState: bool) | Runs | Waits | Gone

  function PlaceIn<T(==)>(s: Sched<T>, x: T): Place {
    if x in s.running then Runs
    else if x in s.hold then Waits
    else if x in s.stateful then Ready(true)
    else if x in s.stateless then Ready(false)
    else if x in s.deleted then Gone
    else Nowhere
  }

  /** The ready coroutines join when a pass begins with nothing running, when the last of the running ones has had its
      turn, and when a coroutine waits. */
  predicate Moves<T(==)>(s: Sched<T>, e: Event<T>)
    requires s.current.Some? ==> s.current.value in s.running
  {
    match e
    case Pass => s.running == []
    case End(Holding) => true
    case End(_) => s.current.Some? && s.running[|s.running| - 1] == s.current.value
    case _ => false
  }

  predicate Joins<T(==)>(s: Sched<T>, e: Event<T>, keepsState: bool)
    requires s.current.Some? ==> s.current.value in s.running
  {
    Moves(s, e) && (keepsState || |s.stateful| < 5)
  }

  /** Where an event takes a coroutine; only its own events and the joining of ready ones move it. */
  function Moved<T(==)>(s: Sched<T>, e: Event<T>, x: T): Place
    requires s.current.Some? ==> s.current.value in s.running
  {
    var a := PlaceIn(s, x);
    if e.Add? && e.co == x then Ready(e.keepsState)
    else if e.Notify? && e.co == x then Runs
    else if e.End? && s.current == Some(x) then
      match e.turn case Executing => Runs case Holding => Waits case Terminated => Gone
    else if a.Ready? && Joins(s, e, a.keepsState) then Runs
    else a
  }

  lemma {:induction false} LastFollows<T>(s: seq<T>, x: T)
    requires Distinct(s) && x in s
    ensures Follower(s, x).None? <==> s[|s| - 1] == x
    decreases |s|
  {
    if |s| >= 2 && s[0] != x {
      assert s == [s[0]] + s[1..];
      assert forall i | 0 <= i < |s[1..]| :: s[1..][i] == s[i + 1];
      LastFollows(s[1..], x);
    }
  }

  lemma RunningDistinct<T>(s: Sched<T>)
    requires Inv(s)
    ensures Distinct(s.running)
  {
    forall i, j | 0 <= i < j < |s.running| ensures s.running[i] != s.running[j] {
      if s.running[i] == s.running[j] {
        InvAnywhere(s, s.running[i]);
        RunningTimes(s, s.running[i]);
        TwiceAt(s.running, i, j);
      }
    }
  }

  lemma TwiceAt<T>(s: seq<T>, i: nat, j: nat)
    requires i < j < |s| && s[i] == s[j]
    ensures Times(s, s[i]) >= 2
  {
    assert s == s[..j] + s[j..];
    assert s[..j][i] == s[i] && s[j..][0] == s[j];
    assert multiset(s) == multiset(s[..j]) + multiset(s[j..]);
  }

  /** A coroutine is in one list at most. */
  lemma OnePlace<T>(s: Sched<T>, x: T)
    requires Inv(s)
    ensures x in s.running ==> x !in s.hold && x !in s.stateful && x !in s.stateless && x !in s.deleted
    ensures x in s.hold ==> x !in s.stateful && x !in s.stateless && x !in s.deleted
    ensures x in s.stateful ==> x !in s.stateless && x !in s.deleted
    ensures x in s.stateless ==> x !in s.deleted
  {
    InvAnywhere(s, x);
    Counted(s.running, x); Counted(s.hold, x); Counted(s.stateful, x); Counted(s.stateless, x); Counted(s.deleted, x);
    hide Times, Inv;
  }

  lemma Counted<T>(s: seq<T>, x: T)
    ensures Times(s, x) > 0 <==> x in s
  {
  }

  lemma {:induction false} WithoutOnly<T>(s: seq<T>, y: T, x: T)
    requires Distinct(s) && y in s
    ensures x in Without(s, y) <==> x in s && x != y
    decreases |s|
  {
    assert s == [s[0]] + s[1..];
    assert forall i | 0 <= i < |s[1..]| :: s[1..][i] == s[i + 1];
    if s[0] != y { WithoutOnly(s[1..], y, x); }
  }

  lemma HoldDistinct<T>(s: Sched<T>)
    requires Inv(s)
    ensures Distinct(s.hold)
  {
    forall i, j | 0 <= i < j < |s.hold| ensures s.hold[i] != s.hold[j] {
      if s.hold[i] == s.hold[j] {
        InvAnywhere(s, s.hold[i]);
        TwiceAt(s.hold, i, j);
      }
    }
  }

  /** Every event moves every coroutine as the diagram of its life says. */
  lemma PlaceStep<T>(s: Sched<T>, e: Event<T>, x: T)
    requires Inv(s) && Enabled(s, e)
    ensures PlaceIn(Step(s, e), x) == Moved(s, e, x)
  {
    hide Inv, Times, InLists, Without, Follower, Step, PlaceIn, MoveReady, MoveIfLast;
    assert s.current.Some? ==> s.current.value in s.running by { CurrentRuns(s); }
    if e.End? {
      var y := s.current.value;
      RunningDistinct(s);
      LastFollows(s.running, y);
      WithoutOnly(s.running, y, x);
      EndPlace(s, e.turn, x);
    } else {
      if e.Notify? {
        HoldDistinct(s);
        WithoutOnly(s.hold, e.co, x);
      }
      OtherPlace(s, e, x);
    }
  }

  lemma OtherPlace<T>(s: Sched<T>, e: Event<T>, x: T)
    requires Inv(s) && Enabled(s, e) && !e.End? && (s.current.Some? ==> s.current.value in s.running)
    requires e.Notify? ==> (x in Without(s.hold, e.co) <==> x in s.hold && x != e.co)
    ensures PlaceIn(Step(s, e), x) == Moved(s, e, x)
  {
    hide Inv, Times, InLists, Without, Follower, MoveReady;
    OnePlace(s, x);
    MoveJoins(s, x);
    if !e.Pass? { OnePlace(s, e.co); }
  }

  lemma MoveJoins<T>(s: Sched<T>, x: T)
    ensures var m := MoveReady(s);
            && (x in m.running <==> x in s.running || x in s.stateful || (x in s.stateless && |s.stateful| < 5))
            && m.stateful == [] && m.stateless == (if |s.stateful| < 5 then [] else s.stateless)
            && m.hold == s.hold && m.deleted == s.deleted
  {
  }

  lemma EndPlace<T>(s: Sched<T>, turn: Turn, x: T)
    requires Inv(s) && s.current.Some? && s.current.value in s.running
    requires var y := s.current.value; Follower(s.running, y).None? <==> s.running[|s.running| - 1] == y
    requires x in Without(s.running, s.current.value) <==> x in s.running && x != s.current.value
    ensures PlaceIn(Step(s, End(turn)), x) == Moved(s, End(turn), x)
  {
    hide Inv, Times, InLists, Without, Follower, Step, MoveReady;
    var y := s.current.value;
    OnePlace(s, x);
    OnePlace(s, y);
    StepEnds(s, y);
    MoveJoins(s, x);
    var m := MoveIfLast(s, y);
    match turn
    case Executing =>
    case Holding => MoveJoins(s.(running := Without(s.running, y), hold := s.hold + [y], current := None), x);
    case Terminated =>
      MovedDistinct(s, y);
      WithoutOnly(m.running, y, x);
  }

  lemma MovedDistinct<T>(s: Sched<T>, y: T)
    requires Inv(s) && y in s.running
    ensures Distinct(MoveIfLast(s, y).running) && y in MoveIfLast(s, y).running
  {
    var m := MoveIfLast(s, y);
    MoveKeeps(s, y);
    forall i, j | 0 <= i < j < |m.running| ensures m.running[i] != m.running[j] {
      if m.running[i] == m.running[j] {
        var z := m.running[i];
        MoveKeeps(s, z);
        InvAnywhere(s, z);
        RunningTimes(m, z);
        TwiceAt(m.running, i, j);
      }
    }
  }

  // ---------- A whole run ----------

  /** What happens to one coroutine in a run. */
  datatype Mark = Added(keepsState: bool) | Waited | Woken | Ended

  function MarkOf<T(==)>(s: Sched<T>, e: Event<T>, x: T): seq<Mark> {
    match e
    case Add(y, k) => if y == x then [Added(k)] else []
    case Notify(y) => if y == x then [Woken] else []
    case End(Holding) => if s.current == Some(x) then [Waited] else []
    case End(Terminated) => if s.current == Some(x) then [Ended] else []
    case _ => []
  }

  function Marks<T(==)>(s: Sched<T>, events: seq<Event<T>>, x: T): seq<Mark>
    requires Possible(s, events)
    decreases |events|
  {
    if events == [] then [] else MarkOf(s, events[0], x) + Marks(Step(s, events[0]), events[1..], x)
  }

  /** Where a coroutine can be by the last thing that happened to it. */
  predicate Fits(marks: seq<Mark>, p: Place) {
    if marks == [] then p == Nowhere
    else
      match marks[|marks| - 1]
      case Added(k) => p == Ready(k) || p == Runs
      case Waited => p == Waits
      case Woken => p == Runs
      case Ended => p == Gone
  }

  lemma FitsStep<T>(s: Sched<T>, e: Event<T>, x: T, before: seq<Mark>)
    requires Inv(s) && Enabled(s, e) && Fits(before, PlaceIn(s, x))
    ensures Fits(before + MarkOf(s, e, x), PlaceIn(Step(s, e), x))
  {
    hide Inv, PlaceIn, Step, Moves;
    assert s.current.Some? ==> s.current.value in s.running by { CurrentRuns(s); }
    PlaceStep(s, e, x);
    if MarkOf(s, e, x) == [] {
      assert before + [] == before;
      if e.End? && s.current == Some(x) { RunsNow(s, x); }
    }
  }

  lemma RunsNow<T>(s: Sched<T>, x: T)
    requires x in s.running
    ensures PlaceIn(s, x) == Runs
  {
  }

  lemma {:induction false} FitsRun<T>(s: Sched<T>, events: seq<Event<T>>, x: T, before: seq<Mark>)
    requires Inv(s) && Possible(s, events) && Fits(before, PlaceIn(s, x))
    ensures Fits(before + Marks(s, events, x), PlaceIn(RunAll(s, events), x))
    decreases |events|
  {
    hide Inv, PlaceIn, Step, Fits, Enabled, MarkOf;
    if events == [] {
      assert before + [] == before;
    } else {
      StepInv(s, events[0]);
      FitsStep(s, events[0], x, before);
      FitsRun(Step(s, events[0]), events[1..], x, before + MarkOf(s, events[0], x));
      Regroup(before, MarkOf(s, events[0], x), Marks(Step(s, events[0]), events[1..], x));
    }
  }

  /** After any run a coroutine waits if and only if the last thing that happened to it is that its turn ended in
      waiting; it runs once it has been woken, is gone once its last turn has ended, and an added one is ready or
      runs. */
  lemma Lifecycle<T>(events: seq<Event<T>>, x: T)
    requires Possible(Empty(), events)
    ensures Fits(Marks(Empty(), events, x), PlaceIn(RunAll(Empty(), events), x))
  {
    FitsRun(Empty(), events, x, []);
    assert [] + Marks(Empty<T>(), events, x) == Marks(Empty<T>(), events, x);
  }

  // ---------- First come, first served ----------

  /** The ready coroutines of a kind that join with an event. */
  function Joining<T(==)>(s: Sched<T>, e: Event<T>, keepsState: bool): seq<T>
    requires s.current.Some? ==> s.current.value in s.running
  {
    if Joins(s, e, keepsState) then if keepsState then s.stateful else s.stateless else []
  }

  function AddedBy<T>(e: Event<T>, keepsState: bool): seq<T> {
    if e.Add? && e.keepsState == keepsState then [e.co] else []
  }

  /** Those that stay in their place among the running ones, with one that has been woken behind them. */
  function Staying<T(==)>(s: Sched<T>, e: Event<T>): seq<T> {
    match e
    case Notify(y) => s.running + [y]
    case End(Executing) => s.running
    case End(_) => if s.current.Some? then Without(s.running, s.current.value) else s.running
    case _ => s.running
  }

  function Waiting<T(==)>(s: Sched<T>, e: Event<T>): seq<T> {
    match e
    case Notify(y) => Without(s.hold, y)
    case End(Holding) => if s.current.Some? then s.hold + [s.current.value] else s.hold
    case _ => s.hold
  }

  /** Nothing overtakes: the running ones keep their order, ready ones join behind them in the order in which they
      were added, those with state first, and what does not join stays ready in its order. */
  lemma OrderStep<T>(s: Sched<T>, e: Event<T>)
    requires Inv(s) && Enabled(s, e)
    ensures var r := Step(s, e);
            && r.running == Staying(s, e) + (Joining(s, e, true) + Joining(s, e, false))
            && r.hold == Waiting(s, e)
            && s.stateful + AddedBy(e, true) == Joining(s, e, true) + r.stateful
            && s.stateless + AddedBy(e, false) == Joining(s, e, false) + r.stateless
  {
    hide Inv, Times, InLists, Without, Follower, Step, MoveReady;
    assert s.current.Some? ==> s.current.value in s.running by { CurrentRuns(s); }
    if e.End? {
      var y := s.current.value;
      RunningDistinct(s);
      LastFollows(s.running, y);
      EndOrder(s, e.turn);
    } else {
      OtherOrder(s, e);
    }
  }

  lemma OtherOrder<T>(s: Sched<T>, e: Event<T>)
    requires Enabled(s, e) && !e.End? && (s.current.Some? ==> s.current.value in s.running)
    ensures var r := Step(s, e);
            && r.running == Staying(s, e) + (Joining(s, e, true) + Joining(s, e, false))
            && r.hold == Waiting(s, e)
            && s.stateful + AddedBy(e, true) == Joining(s, e, true) + r.stateful
            && s.stateless + AddedBy(e, false) == Joining(s, e, false) + r.stateless
  {
    hide Without;
    MoveOrder(s);
  }

  lemma MoveOrder<T>(s: Sched<T>)
    ensures var m, few := MoveReady(s), |s.stateful| < 5;
            && m.running == s.running + (s.stateful + if few then s.stateless else [])
            && s.stateful + [] == s.stateful + m.stateful && s.stateless + [] == (if few then s.stateless else []) + m.stateless
            && m.hold == s.hold && m.deleted == s.deleted && m.current == s.current
  {
    Regroup(s.running, s.stateful, s.stateless);
  }

  lemma EndOrder<T>(s: Sched<T>, turn: Turn)
    requires s.current.Some? && s.current.value in s.running && Distinct(s.running)
    requires var y := s.current.value; Follower(s.running, y).None? <==> s.running[|s.running| - 1] == y
    ensures var e: Event<T> := End(turn); var r := Step(s, e);
            && r.running == Staying(s, e) + (Joining(s, e, true) + Joining(s, e, false))
            && r.hold == Waiting(s, e)
            && s.stateful + AddedBy(e, true) == Joining(s, e, true) + r.stateful
            && s.stateless + AddedBy(e, false) == Joining(s, e, false) + r.stateless
  {
    hide Without, Follower, Step, MoveReady;
    var y := s.current.value;
    StepEnds(s, y);
    MoveOrder(s);
    match turn
    case Executing => Nothing2(s);
    case Holding => MoveOrder(s.(running := Without(s.running, y), hold := s.hold + [y], current := None));
    case Terminated =>
      Nothing2(s);
      var joined := s.stateful + if |s.stateful| < 5 then s.stateless else [];
      WithoutFront(s.running, joined, y);
  }

  lemma Nothing2<T>(s: Sched<T>)
    ensures s.running + ([] + []) == s.running && s.stateful + [] == [] + s.stateful && s.stateless + [] == [] + s.stateless
    ensures s.running + [] == s.running
  {
  }

  lemma {:induction false} WithoutFront<T>(a: seq<T>, b: seq<T>, x: T)
    requires x in a
    ensures Without(a + b, x) == Without(a, x) + b && Without(a, x) + ([] + []) == Without(a, x)
    decreases |a|
  {
    assert (a + b)[1..] == a[1..] + b;
    if a[0] != x {
      assert a == [a[0]] + a[1..];
      WithoutFront(a[1..], b, x);
    }
  }

  function AllAdded<T>(events: seq<Event<T>>, keepsState: bool): seq<T> {
    if events == [] then [] else AddedBy(events[0], keepsState) + AllAdded(events[1..], keepsState)
  }

  ghost function AllJoined<T>(s: Sched<T>, events: seq<Event<T>>, keepsState: bool): seq<T>
    requires Inv(s) && Possible(s, events)
    decreases |events|
  {
    if events == [] then []
    else
      assert Inv(Step(s, events[0])) && (s.current.Some? ==> s.current.value in s.running) by {
        StepInv(s, events[0]);
        CurrentRuns(s);
      }
      Joining(s, events[0], keepsState) + AllJoined(Step(s, events[0]), events[1..], keepsState)
  }

  /** Over every run the coroutines of a kind join in the order in which they were added: those that have joined and
      then those still ready are the added ones. */
  lemma {:induction false} FirstComeFirst<T>(s: Sched<T>, events: seq<Event<T>>, keepsState: bool)
    requires Inv(s) && Possible(s, events)
    ensures var r := RunAll(s, events);
            (if keepsState then s.stateful else s.stateless) + AllAdded(events, keepsState) ==
            AllJoined(s, events, keepsState) + if keepsState then r.stateful else r.stateless
    decreases |events|
  {
    hide Inv, Step, Enabled, Joining, AddedBy;
    var ready := if keepsState then s.stateful else s.stateless;
    if events == [] {
      assert ready + [] == [] + ready;
    } else {
      var e, more := events[0], events[1..];
      assert s.current.Some? ==> s.current.value in s.running by { CurrentRuns(s); }
      StepInv(s, e);
      OrderStep(s, e);
      var n := Step(s, e);
      var left := if keepsState then n.stateful else n.stateless;
      FirstComeFirst(n, more, keepsState);
      Regroup(ready, AddedBy(e, keepsState), AllAdded(more, keepsState));
      Regroup(Joining(s, e, keepsState), left, AllAdded(more, keepsState));
      Regroup(Joining(s, e, keepsState), AllJoined(n, more, keepsState), if keepsState then RunAll(n, more).stateful else RunAll(n, more).stateless);
    }
  }
}
