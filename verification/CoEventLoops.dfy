/** The coroutine loop as an object: its four intrusive lists follow the scheduler of `Scheduling`. */
module CoEventLoops {
  import opened Wrappers
  import opened LinkedLists
  import opened Scheduling

  ghost predicate Apart(a: seq<Coroutine>, b: seq<Coroutine>) { forall c | c in a :: c !in b }

  lemma OnePlace(s: Sched<Coroutine>, x: Coroutine)
    requires Inv(s)
    ensures x in s.running ==> x !in s.hold && x !in s.stateful && x !in s.stateless
    ensures x in s.hold ==> x !in s.running && x !in s.stateful && x !in s.stateless
    ensures x in s.stateful ==> x !in s.running && x !in s.hold && x !in s.stateless
    ensures x in s.stateless ==> x !in s.running && x !in s.hold && x !in s.stateful
  {
    InvAnywhere(s, x);
  }

  /** The lists share no node. */
  ghost predicate AllApart(s: Sched<Coroutine>) {
    && Apart(s.running, s.hold) && Apart(s.running, s.stateful) && Apart(s.running, s.stateless)
    && Apart(s.hold, s.running) && Apart(s.hold, s.stateful) && Apart(s.hold, s.stateless)
    && Apart(s.stateful, s.running) && Apart(s.stateful, s.hold) && Apart(s.stateful, s.stateless)
    && Apart(s.stateless, s.running) && Apart(s.stateless, s.hold) && Apart(s.stateless, s.stateful)
  }

  lemma InvApart(s: Sched<Coroutine>)
    requires Inv(s)
    ensures AllApart(s)
  {
    forall x | x in s.running ensures x !in s.hold && x !in s.stateful && x !in s.stateless { OnePlace(s, x); }
    forall x | x in s.hold ensures x !in s.running && x !in s.stateful && x !in s.stateless { OnePlace(s, x); }
    forall x | x in s.stateful ensures x !in s.running && x !in s.hold && x !in s.stateless { OnePlace(s, x); }
    forall x | x in s.stateless ensures x !in s.running && x !in s.hold && x !in s.stateful { OnePlace(s, x); }
  }

  function Current(c: Coroutine?): Option<Coroutine> {
    if c == null then None else var co: Coroutine := c; Some(co)
  }

  function TurnOf(state: State): Turn {
    match state case EXEC => Executing case HOLD => Holding case _ => Terminated
  }

  class CoEventLoop {
    const running: LinkedList
    const hold: LinkedList
    const stateful: LinkedList
    const stateless: LinkedList
    var runningCoroutine: Coroutine?
    /** The coroutines that have been deleted. */
    ghost var deleted: seq<Coroutine>

    ghost function View(): Sched<Coroutine>
      reads this, running, hold, stateful, stateless
    {
      Sched(running.items, hold.items, stateful.items, stateless.items,
            Current(runningCoroutine), deleted)
    }

    ghost predicate Lists()
      reads this
    {
      running != hold && running != stateful && running != stateless && hold != stateful && hold != stateless && stateful != stateless
    }

    ghost predicate Valid()
      reads this, running, hold, stateful, stateless
      reads running.items`pre, hold.items`pre, stateful.items`pre, stateless.items`pre
      reads running.items`next, hold.items`next, stateful.items`next, stateless.items`next
    {
      && Lists() && running.Valid() && hold.Valid() && stateful.Valid() && stateless.Valid()
      && Inv(View())
    }

    /** Every list is sound and no node is in two of them. */
    ghost predicate Sound()
      reads this, running, hold, stateful, stateless
      reads running.items`pre, hold.items`pre, stateful.items`pre, stateless.items`pre
      reads running.items`next, hold.items`next, stateful.items`next, stateless.items`next
    {
      Lists() && running.Valid() && hold.Valid() && stateful.Valid() && stateless.Valid() && AllApart(View())
    }

    lemma ValidIsSound()
      requires Valid()
      ensures Sound() && Inv(View())
    {
      hide Inv, LinkedList.Valid;
      InvApart(View());
    }

    constructor ()
      ensures Valid() && View() == Empty()
      ensures fresh(running) && fresh(hold) && fresh(stateful) && fresh(stateless)
    {
      running := new LinkedList();
      hold := new LinkedList();
      stateful := new LinkedList();
      stateless := new LinkedList();
      runningCoroutine, deleted := null, [];
    }

    /** All nodes that are linked. */
    ghost function Nodes(): set<Coroutine>
      reads this, running, hold, stateful, stateless
    {
      (set c | c in running.items) + (set c | c in hold.items) + (set c | c in stateful.items) + (set c | c in stateless.items)
    }

    lemma Reach()
      requires running.Valid() && hold.Valid() && stateful.Valid() && stateless.Valid()
      ensures forall c | c in running.Last() :: c in running.items
      ensures forall c | c in stateful.Last() :: c in stateful.items
      ensures forall c | c in stateless.Last() :: c in stateless.items
      ensures forall c | c in hold.Last() :: c in hold.items
    {
      running.Reach(); stateful.Reach(); stateless.Reach(); hold.Reach();
    }

    /** Adds a coroutine to the ready ones; under the lock that other threads take. */
    method AddCoroutineWithState(co: Coroutine, keepsState: bool)
      requires Valid() && Enabled(View(), Add(co, keepsState))
      modifies stateful, stateless, Nodes()`next, co`pre, co`next
      ensures Valid() && View() == Step(old(View()), Add(co, keepsState))
    {
      hide Inv, Linked, Distinct;
      ghost var s := View();
      StepInv(s, Add(co, keepsState));
      InvApart(s);
      Reach();
      if keepsState {
        stateful.Push(co);
      } else {
        stateless.Push(co);
      }
    }

    /** A new coroutine for a task. */
    method AddTaskWithState(keepsState: bool) returns (co: Coroutine)
      requires Valid()
      modifies stateful, stateless, Nodes()`next
      ensures Valid() && fresh(co) && View() == Step(old(View()), Add(co, keepsState))
    {
      hide Inv, Linked, Distinct;
      co := new Coroutine();
      AddCoroutineWithState(co, keepsState);
    }

    method PushRunning(co: Coroutine)
      requires Sound() && co !in Nodes()
      modifies running, running.Last()`next, co`pre, co`next
      ensures Sound() && View() == old(View()).(running := old(running.items) + [co])
      ensures Nodes() == old(Nodes()) + {co}
    {
      hide Linked, Distinct, LinkedList.Valid;
      Reach();
      running.Push(co);
    }

    method PushHold(co: Coroutine)
      requires Sound() && co !in Nodes()
      modifies hold, hold.Last()`next, co`pre, co`next
      ensures Sound() && View() == old(View()).(hold := old(hold.items) + [co])
      ensures Nodes() == old(Nodes()) + {co} && co.next == null
    {
      hide Linked, Distinct, LinkedList.Valid;
      Reach();
      hold.Push(co);
    }

    method EraseHold(co: Coroutine)
      requires Sound() && co in hold.items
      modifies hold, Nodes()`pre, Nodes()`next
      ensures Sound() && View() == old(View()).(hold := Without(old(hold.items), co))
      ensures Nodes() == old(Nodes()) - {co}
      ensures running.Last() == old(running.Last())
    {
      hide Linked, Distinct, Without, LinkedList.Valid;
      hold.Reach();
      assert (forall d | d in Only(co.pre) || d in Only(co.next) :: d in hold.items);
      WithoutSet(hold.items, co);
      hold.Erase(co);
    }

    method EraseRunning(co: Coroutine)
      requires Sound() && co in running.items
      modifies running, Nodes()`pre, Nodes()`next
      ensures Sound() && View() == old(View()).(running := Without(old(running.items), co))
      ensures Nodes() == old(Nodes()) - {co}
      ensures hold.Last() == old(hold.Last())
    {
      hide Linked, Distinct, Without, LinkedList.Valid;
      running.Reach();
      assert (forall d | d in Only(co.pre) || d in Only(co.next) :: d in running.items);
      WithoutSet(running.items, co);
      running.Erase(co);
    }

    /** A held coroutine is ready again. */
    method NotifyCoroutineReady(co: Coroutine)
      requires Valid() && Enabled(View(), Notify(co))
      modifies running, hold, Nodes()`pre, Nodes()`next
      ensures Valid() && View() == Step(old(View()), Notify(co))
    {
      hide Inv, Linked, Distinct, Without, AllApart;
      StepInv(View(), Notify(co));
      InvApart(View());
      Reach();
      EraseHold(co);
      PushRunning(co);
    }

    /** A coroutine gets a new state; one that becomes ready moves from the held to the running ones. */
    method SetState(co: Coroutine, state: State)
      requires Valid() && (co.state != READY && state == READY ==> co in hold.items)
      modifies running, hold, Nodes()`pre, Nodes()`next, co`state
      ensures Valid() && co.state == state
      ensures View() == if old(co.state) != READY && state == READY then Step(old(View()), Notify(co)) else old(View())
    {
      hide Valid, Step, Inv;
      if co.state != READY && state == READY {
        NotifyCoroutineReady(co);
      }
      co.state := state;
    }

    method TakeStateful()
      requires Sound() && stateful.items != []
      modifies running, stateful, Nodes()`pre, Nodes()`next
      ensures Sound() && running.items == old(running.items) + old(stateful.items) && stateful.items == []
      ensures Nodes() == old(Nodes())
    {
      hide Linked, Distinct, LinkedList.Valid;
      Reach();
      HeadIn(stateful);
      running.PushList(stateful);
    }

    method TakeStateless()
      requires Sound() && stateless.items != []
      modifies running, stateless, Nodes()`pre, Nodes()`next
      ensures Sound() && running.items == old(running.items) + old(stateless.items) && stateless.items == []
      ensures Nodes() == old(Nodes())
    {
      hide Linked, Distinct, LinkedList.Valid;
      Reach();
      HeadIn(stateless);
      running.PushList(stateless);
    }

    lemma HeadIn(list: LinkedList)
      requires list.Valid() && list.items != []
      ensures forall c | c in Only(list.head) :: c in list.items
    {
    }

    /** Ready coroutines join the running ones, under the lock. */
    method MoveReadyCoroutines()
      requires Sound()
      modifies running, stateful, stateless, Nodes()`pre, Nodes()`next
      ensures Sound() && View() == MoveReady(old(View())) && Nodes() == old(Nodes())
    {
      hide AllApart, Linked, Distinct, Nodes;
      assert running.items + [] == running.items;
      var size := stateful.size;
      if size > 0 {
        TakeStateful();
        assert running.items + [] == running.items;
      }
      if size < FEW && stateless.size > 0 {
        TakeStateless();
      }
    }

    /** A pass of the loop begins: it goes on with the first running coroutine, after moving ready ones if
        there is none. */
    method BeginPass()
      requires Valid() && runningCoroutine == null
      modifies this`runningCoroutine, running, stateful, stateless, Nodes()`pre, Nodes()`next
      ensures Valid() && View() == Step(old(View()), Pass)
    {
      StepInv(View(), Pass);
      ValidIsSound();
      hide Inv, Sound, Valid, MoveReady;
      HeadIsFirst();
      var next := running.head;
      if next == null {
        MoveReadyCoroutines();
        HeadIsFirst();
        next := running.head;
      }
      SetRunning(next);
    }

    /** The loop remembers which coroutine runs; the lists do not change. */
    method SetRunning(co: Coroutine?)
      requires Sound()
      modifies this`runningCoroutine
      ensures Sound() && runningCoroutine == co && View() == old(View()).(current := Current(co))
      ensures Inv(View()) ==> Valid()
    {
      hide Inv, LinkedList.Valid;
      runningCoroutine := co;
    }

    lemma HeadIsFirst()
      requires Sound()
      ensures Current(running.head) == First(running.items)
    {
    }

    method FollowerOfRunning(co: Coroutine) returns (next: Coroutine?)
      requires Sound() && co in running.items
      ensures Current(next) == Follower(running.items, co)
    {
      hide AllApart, Linked, Distinct, Follower;
      SameFollower(running.items, co);
      next := running.Next(co);
    }

    /** The coroutine that follows in the running list, after moving ready ones if there is none. */
    method NextRunning(co: Coroutine) returns (next: Coroutine?)
      requires Sound() && co in running.items
      modifies running, stateful, stateless, Nodes()`pre, Nodes()`next
      ensures Sound() && Nodes() == old(Nodes())
      ensures var m := MoveIfLast(old(View()), co); View() == m && Current(next) == Follower(m.running, co)
      ensures co in running.items
    {
      hide Sound, MoveReady, Follower, Nodes;
      MoveKeeps(View(), co);
      next := FollowerOfRunning(co);
      if next == null {
        MoveReadyCoroutines();
        next := FollowerOfRunning(co);
      }
    }

    /** The turn of the running coroutine has ended in the state it is in. */
    method EndTurn()
      requires Valid() && runningCoroutine != null
      modifies this, running, hold, stateful, stateless, Nodes()`pre, Nodes()`next
      ensures Valid() && View() == Step(old(View()), End(TurnOf(old(runningCoroutine.state))))
    {
      var co: Coroutine := runningCoroutine;
      ghost var turn := TurnOf(co.state);
      StepInv(View(), End(turn));
      ValidIsSound();
      CurrentRuns(View());
      StepEnds(View(), co);
      hide Inv, Sound, Valid, Without, Follower, MoveReady, MoveIfLast, Nodes, Step;
      match co.state {
        case EXEC => ExecTurn(co);
        case HOLD => HoldTurn(co);
        case _ => TermTurn(co);
      }
    }

    /** A turn after which the coroutine goes on: its follower runs next. */
    method ExecTurn(co: Coroutine)
      requires Sound() && co in running.items
      modifies this`runningCoroutine, running, stateful, stateless, Nodes()`pre, Nodes()`next
      ensures Sound() && (Inv(View()) ==> Valid())
      ensures var m := MoveIfLast(old(View()), co); View() == m.(current := Follower(m.running, co))
    {
      hide Inv, Sound, Valid, Follower, MoveReady, MoveIfLast, Nodes;
      var next := NextRunning(co);
      SetRunning(next);
    }

    /** A turn that ends for good: the follower is looked up before the coroutine is erased and deleted. */
    method TermTurn(co: Coroutine)
      requires Sound() && co in running.items
      modifies this, running, stateful, stateless, Nodes()`pre, Nodes()`next
      ensures Sound() && (Inv(View()) ==> Valid())
      ensures var m := MoveIfLast(old(View()), co);
              View() == m.(current := Follower(m.running, co), running := Without(m.running, co), deleted := m.deleted + [co])
    {
      hide Inv, Sound, Valid, Without, Follower, MoveReady, MoveIfLast, Nodes;
      var next := NextRunning(co);
      EraseRunning(co);
      Delete(co);
      SetRunning(next);
    }

    /** A coroutine that is in no list is deleted. */
    method Delete(co: Coroutine)
      requires Sound()
      modifies this`deleted
      ensures Sound() && View() == old(View()).(deleted := old(deleted) + [co])
    {
      hide LinkedList.Valid;
      deleted := deleted + [co];
    }

    lemma LastsAreNodes(co: Coroutine)
      requires Sound() && co in running.items
      ensures co in Nodes() && forall c | c in hold.Last() :: c in Nodes()
    {
      Reach();
    }

    /** The coroutine moves from the running to the held ones. */
    method Suspend(co: Coroutine)
      requires Sound() && co in running.items
      modifies running, hold, Nodes()`pre, Nodes()`next
      ensures Sound() && co.next == null && Nodes() == old(Nodes())
      ensures View() == old(View()).(running := Without(old(running.items), co), hold := old(hold.items) + [co])
    {
      LastsAreNodes(co);
      hide Inv, Sound, Valid, Without, LinkedList.Valid, LinkedList.Last, Linked, Nodes, AllApart;
      EraseRunning(co);
      PushHold(co);
    }

    /** A turn that ends in waiting: the loop looks for a follower of the coroutine when that is already the
        last of the held ones, so it finds none. */
    method HoldTurn(co: Coroutine)
      requires Sound() && co in running.items
      modifies this`runningCoroutine, running, hold, stateful, stateless, Nodes()`pre, Nodes()`next
      ensures Sound() && (Inv(View()) ==> Valid())
      ensures View() == MoveReady(old(View()).(running := Without(old(running.items), co), hold := old(hold.items) + [co], current := None))
    {
      hide Inv, Sound, Valid, Without, Follower, Nodes;
      Suspend(co);
      var next := co.next;
      if next == null {
        MoveReadyCoroutines();
        LastHasNoNext(co);
        next := co.next;
      }
      SetRunning(next);
    }

    lemma LastHasNoNext(co: Coroutine)
      requires Sound() && hold.items != [] && hold.items[|hold.items| - 1] == co
      ensures co.next == null
    {
    }
  }

  lemma {:induction false} SameFollower(s: seq<Coroutine>, x: Coroutine)
    ensures Current(Successor(s, x)) == Follower(s, x)
    decreases |s|
  {
    if |s| >= 2 && s[0] != x { SameFollower(s[1..], x); }
  }

  lemma WithoutSet(s: seq<Coroutine>, co: Coroutine)
    requires co in s
    ensures forall c | c in s :: c == co || c in Without(s, co)
    ensures forall c | c in Without(s, co) :: c in s
    decreases |s|
  {
    if s[0] != co {
      WithoutSet(s[1..], co);
      assert Without(s, co) == [s[0]] + Without(s[1..], co);
    }
  }
}
