/** What becomes of every call of the ring queue: it is under way, it has stored or taken a value, or it was
    turned away at its test; a call that loses a race goes on. */
module LockfreeCalls {
  import opened LockfreeQueue
  import opened Sequences

  // ---------- One step ----------

  /** A push ends only by publishing its own value or at a full test that has just failed. */
  lemma PushEnds<T>(s: State<T>, t: Tid)
    requires Enabled(s, t, Advance) && s.pc[t].Pushing() && Apply(s, t, Advance).pc[t].Idle?
    ensures var s' := Apply(s, t, Advance);
            || (s'.pushed == s.pushed + [s.pc[t].val] && s'.popped == s.popped && s'.claimed == s.claimed)
            || (s.pc[t].PushLoaded? && Succ(s.pc[t].slot, |s.data|) == s.front && s' == s.(pc := s.pc[t := Idle]))
  {
    hide Succ;
  }

  /** A pop ends only by taking the value it read or at an empty test that has just failed. */
  lemma PopEnds<T>(s: State<T>, t: Tid)
    requires Enabled(s, t, Advance) && s.pc[t].Popping() && Apply(s, t, Advance).pc[t].Idle?
    ensures var s' := Apply(s, t, Advance);
            || (s.pc[t].PopRead? && s'.popped == s.popped + [s.pc[t].got] && s'.pushed == s.pushed)
            || (s.pc[t].PopLoaded? && s.pc[t].slot == s.back && s' == s.(pc := s.pc[t := Idle]))
  {
    hide Succ;
  }

  /** A swap of `write_` or `front_` that fails leaves everything as it is but for the call, which starts again
      with the same value; it fails only if some other call has claimed or taken in between. */
  lemma SwapFails<T>(s: State<T>, t: Tid)
    requires Inv(s) && Enabled(s, t, Advance)
    ensures s.pc[t].PushChecked? && s.write != s.pc[t].slot ==>
              Apply(s, t, Advance) == s.(pc := s.pc[t := PushStart(s.pc[t].val)]) && s.pc[t].ticket < |s.claimed|
    ensures s.pc[t].PopRead? && s.front != s.pc[t].slot ==>
              Apply(s, t, Advance) == s.(pc := s.pc[t := PopStart]) && s.pc[t].ticket < |s.popped|
  {
    assert PushOk(s, t) && PopOk(s, t);
    hide Succ;
  }

  /** A push whose index is current is turned away exactly if the ring is full. */
  lemma TurnedAwayFull<T>(s: State<T>, t: Tid)
    requires Inv(s) && Enabled(s, t, Advance) && s.pc[t].PushLoaded? && s.pc[t].ticket == |s.claimed|
    ensures Apply(s, t, Advance).pc[t].Idle? <==> |s.claimed| == |s.popped| + |s.data| - 1
  {
    assert PushOk(s, t);
    var n, c, f := |s.data|, |s.claimed|, |s.popped|;
    ModSucc(c, n);
    if Succ(c % n, n) == f % n {
      if c + 1 < f + n { ModInjective(f, c + 1, n); }
    } else {
      FullTest(f, c, n);
    }
  }

  // ---------- A call that has lost a race, run alone ----------

  function Steps<T>(t: Tid, k: nat): seq<Event<T>> {
    if k == 0 then [] else [Event(t, Advance)] + Steps(t, k - 1)
  }

  /** Some steps of one thread. */
  ghost predicate Leads<T>(s: State<T>, t: Tid, k: nat, r: State<T>) {
    Runs(s, Steps(t, k)) && Run(s, Steps(t, k)) == r
  }

  lemma LeadsNowhere<T>(s: State<T>, t: Tid)
    ensures Leads(s, t, 0, s)
  {
  }

  lemma LeadsStep<T>(s: State<T>, t: Tid, k: nat, s': State<T>, r: State<T>)
    requires Enabled(s, t, Advance) && s' == Apply(s, t, Advance) && Leads(s', t, k, r)
    ensures Leads(s, t, k + 1, r)
  {
    hide Apply, Enabled;
    RunStep(s, Event(t, Advance), Steps(t, k));
  }

  /** After a lost race for `write_` the push claims a slot with its next three steps and has stored its value after
      four, if there is room by then; whatever the others do not do meanwhile. */
  lemma LoserClaims<T>(s: State<T>, t: Tid, v: T)
    requires t in s.pc && s.pc[t] == PushStart(v) && s.pushMode.Multiple?
    requires s.write < |s.data| && Succ(s.write, |s.data|) != s.front
    ensures Leads(s, t, 4,
                  s.(data := s.data[s.write := v], write := Succ(s.write, |s.data|), claimed := s.claimed + [v],
                     claimers := s.claimers + [t], pc := s.pc[t := PushStored(v, s.write, |s.claimed|)]))
  {
    var s1 := AdvanceThread(s, t);
    var s2 := AdvanceThread(s1, t);
    var s3 := AdvanceThread(s2, t);
    var s4 := AdvanceThread(s3, t);
    assert s4 == s.(data := s.data[s.write := v], write := Succ(s.write, |s.data|), claimed := s.claimed + [v],
                    claimers := s.claimers + [t], pc := s.pc[t := PushStored(v, s.write, |s.claimed|)]) by {
      assert s4.pc == s.pc[t := PushStored(v, s.write, |s.claimed|)];
    }
    hide Leads;
    LeadsNowhere(s4, t);
    LeadsStep(s3, t, 0, s4, s4);
    LeadsStep(s2, t, 1, s3, s4);
    LeadsStep(s1, t, 2, s2, s4);
    LeadsStep(s, t, 3, s1, s4);
  }

  /** If no other claim waits for its publication, the loser has appended its value after six steps of its own, the
      failed swap included. */
  lemma LoserAppends<T>(s: State<T>, t: Tid)
    requires Enabled(s, t, Advance) && s.pc[t].PushChecked? && s.pushMode.Multiple? && s.write != s.pc[t].slot
    requires s.write == s.back < |s.data| && Succ(s.write, |s.data|) != s.front
    ensures var v, w := s.pc[t].val, s.write;
            Leads(s, t, 6,
                  s.(data := s.data[w := v], write := Succ(w, |s.data|), back := Succ(w, |s.data|), claimed := s.claimed + [v],
                     claimers := s.claimers + [t], pushed := s.pushed + [v], pc := s.pc[t := Idle]))
  {
    var v, w := s.pc[t].val, s.write;
    var s1 := s.(pc := s.pc[t := PushStart(v)]);
    LoserClaims(s1, t, v);
    var s5 := s1.(data := s1.data[w := v], write := Succ(w, |s.data|), claimed := s.claimed + [v],
                  claimers := s.claimers + [t], pc := s1.pc[t := PushStored(v, w, |s.claimed|)]);
    var s6 := AdvanceThread(s5, t);
    assert s6.pc == s.pc[t := Idle];
    hide Leads, Succ;
    LeadsNowhere(s6, t);
    LeadsStep(s5, t, 0, s6, s6);
    LeadsThen(s1, t, 4, s5, 1, s6);
    LeadsStep(s, t, 5, s1, s6);
  }

  lemma {:induction false} StepsConcat<T>(t: Tid, j: nat, k: nat)
    ensures Steps<T>(t, j) + Steps(t, k) == Steps(t, j + k)
    decreases j
  {
    if j == 0 {
      assert [] + Steps<T>(t, k) == Steps(t, k);
    } else {
      StepsConcat<T>(t, j - 1, k);
      Regroup([Event<T>.Event(t, Advance)], Steps(t, j - 1), Steps(t, k));
    }
  }

  lemma LeadsThen<T>(s: State<T>, t: Tid, j: nat, m: State<T>, k: nat, r: State<T>)
    requires Leads(s, t, j, m) && Leads(m, t, k, r)
    ensures Leads(s, t, j + k, r)
  {
    hide Run, Runs;
    RunConcat(s, Steps(t, j), Steps(t, k));
    StepsConcat<T>(t, j, k);
  }

  /** A pop that has lost the race for `front_` has taken the head after five steps of its own, if there is one. */
  lemma LoserTakes<T>(s: State<T>, t: Tid)
    requires Enabled(s, t, Advance) && s.pc[t].PopRead? && s.popMode.Multiple? && s.front != s.pc[t].slot
    requires s.front != s.back && s.front < |s.data|
    ensures Leads(s, t, 5,
                  s.(front := Succ(s.front, |s.data|), popped := s.popped + [s.data[s.front]], pc := s.pc[t := Idle]))
  {
    var s1 := AdvanceThread(s, t);
    var s2 := AdvanceThread(s1, t);
    var s3 := AdvanceThread(s2, t);
    var s4 := AdvanceThread(s3, t);
    var s5 := AdvanceThread(s4, t);
    assert s5.pc == s.pc[t := Idle];
    hide Leads, Succ;
    LeadsNowhere(s5, t);
    LeadsStep(s4, t, 0, s5, s5);
    LeadsStep(s3, t, 1, s4, s5);
    LeadsStep(s2, t, 2, s3, s5);
    LeadsStep(s1, t, 3, s2, s5);
    LeadsStep(s, t, 4, s1, s5);
  }

  // ---------- Every call of a run ----------

  /** How a call ends. */
  datatype Ending<T> = Stored(val: T) | Refused(val: T) | Took(val: T) | FoundEmpty

  function CallOf<T>(e: Ending<T>): Action<T> {
    match e
    case Stored(v) => CallPush(v)
    case Refused(v) => CallPush(v)
    case Took(_) => CallPop
    case FoundEmpty => CallPop
  }

  /** The call that an event ends, seen from the histories: a value appeared in one of them, or the thread stopped
      without that. */
  function Ended<T>(s: State<T>, e: Event<T>): seq<Ending<T>>
    requires Enabled(s, e.tid, e.act)
  {
    var r := Apply(s, e.tid, e.act);
    if |r.pushed| > |s.pushed| then [Stored(r.pushed[|s.pushed|])]
    else if |r.popped| > |s.popped| then [Took(r.popped[|s.popped|])]
    else if !r.pc[e.tid].Idle? then []
    else if s.pc[e.tid].Pushing() then [Refused(s.pc[e.tid].val)]
    else [FoundEmpty]
  }

  function Endings<T>(s: State<T>, sched: seq<Event<T>>, t: Tid): seq<Ending<T>>
    requires Runs(s, sched)
    decreases |sched|
  {
    if sched == [] then []
    else
      var e := sched[0];
      (if e.tid == t then Ended(s, e) else []) + Endings(Apply(s, e.tid, e.act), sched[1..], t)
  }

  /** The endings of all threads, in the order of the run. */
  function AllEndings<T>(s: State<T>, sched: seq<Event<T>>): seq<Ending<T>>
    requires Runs(s, sched)
    decreases |sched|
  {
    if sched == [] then [] else Ended(s, sched[0]) + AllEndings(Apply(s, sched[0].tid, sched[0].act), sched[1..])
  }

  function StoredIn<T>(es: seq<Ending<T>>): seq<T> {
    if es == [] then [] else (if es[0].Stored? then [es[0].val] else []) + StoredIn(es[1..])
  }

  function TookIn<T>(es: seq<Ending<T>>): seq<T> {
    if es == [] then [] else (if es[0].Took? then [es[0].val] else []) + TookIn(es[1..])
  }

  function CallsOf<T>(es: seq<Ending<T>>): seq<Action<T>> {
    if es == [] then [] else [CallOf(es[0])] + CallsOf(es[1..])
  }

  /** The calls that a thread makes. */
  function Called<T>(sched: seq<Event<T>>, t: Tid): seq<Action<T>> {
    if sched == [] then []
    else (if sched[0].tid == t && !sched[0].act.Advance? then [sched[0].act] else []) + Called(sched[1..], t)
  }

  /** The call under way. */
  function Pending<T>(s: State<T>, t: Tid): seq<Action<T>> {
    if t !in s.pc || s.pc[t].Idle? then [] else if s.pc[t].Pushing() then [CallPush(s.pc[t].val)] else [CallPop]
  }

  /** Calls are turned away only by a test that fails at that step. */
  ghost predicate TurnedAwayRightly<T>(s: State<T>, sched: seq<Event<T>>)
    requires Runs(s, sched)
    decreases |sched|
  {
    sched == [] ||
    (var e := sched[0];
     && (forall i | 0 <= i < |Ended(s, e)| ::
           && (Ended(s, e)[i].Refused? ==> s.pc[e.tid].PushLoaded? && Succ(s.pc[e.tid].slot, |s.data|) == s.front)
           && (Ended(s, e)[i].FoundEmpty? ==> s.pc[e.tid].PopLoaded? && s.pc[e.tid].slot == s.back))
     && TurnedAwayRightly(Apply(s, e.tid, e.act), sched[1..]))
  }

  /** One event: the call under way and a new one are the calls that end and the one under way afterwards. */
  lemma EventAccounts<T>(s: State<T>, e: Event<T>, t: Tid)
    requires Enabled(s, e.tid, e.act)
    ensures var r, ends := Apply(s, e.tid, e.act), Ended(s, e);
            && Pending(s, t) + (if e.tid == t && !e.act.Advance? then [e.act] else []) ==
               CallsOf(if e.tid == t then ends else []) + Pending(r, t)
            && r.pushed == s.pushed + StoredIn(ends) && r.popped == s.popped + TookIn(ends)
            && TurnedAwayRightly(s, [e])
  {
    hide Apply, Succ, TurnedAwayRightly, Enabled;
    OnlyEvent(s, e);
    if e.act.Advance? && Apply(s, e.tid, e.act).pc[e.tid].Idle? {
      CallEnds(s, e, t);
    } else {
      StaysOpen(s, e);
      NoEnds(s.pushed);
      NoEnds(s.popped);
    }
  }

  lemma NoEnds<T>(s: seq<T>)
    ensures CallsOf<T>([]) == [] && StoredIn<T>([]) == [] && TookIn<T>([]) == [] && s + [] == s
  {
  }

  lemma OnlyEvent<T>(s: State<T>, e: Event<T>)
    requires Enabled(s, e.tid, e.act)
    ensures Runs(s, [e]) && TurnedAwayRightly(s, [e]) && e.tid in Apply(s, e.tid, e.act).pc
  {
    assert [e][1..] == [];
    if e.act.Advance? && Apply(s, e.tid, e.act).pc[e.tid].Idle? {
      if s.pc[e.tid].Pushing() { PushEnds(s, e.tid); } else { PopEnds(s, e.tid); }
    } else {
      StaysOpen(s, e);
    }
    hide Apply, Succ;
  }

  lemma CallEnds<T>(s: State<T>, e: Event<T>, t: Tid)
    requires Enabled(s, e.tid, e.act) && e.act.Advance? && Apply(s, e.tid, e.act).pc[e.tid].Idle?
    ensures var r, ends := Apply(s, e.tid, e.act), Ended(s, e);
            && Pending(s, t) == CallsOf(if e.tid == t then ends else []) + Pending(r, t)
            && r.pushed == s.pushed + StoredIn(ends) && r.popped == s.popped + TookIn(ends)
  {
    if s.pc[e.tid].Pushing() { PushEnds(s, e.tid); } else { PopEnds(s, e.tid); }
    if t != e.tid { OthersStay(s, e, t); }
    hide Apply, Succ;
    Single(Ended(s, e));
  }

  lemma OthersStay<T>(s: State<T>, e: Event<T>, t: Tid)
    requires Enabled(s, e.tid, e.act) && e.act.Advance? && t != e.tid
    ensures Pending(Apply(s, e.tid, e.act), t) == Pending(s, t)
  {
    hide Succ;
  }

  lemma Single<T>(es: seq<Ending<T>>)
    requires |es| == 1
    ensures CallsOf(es) == [CallOf(es[0])] && StoredIn(es) == (if es[0].Stored? then [es[0].val] else [])
    ensures TookIn(es) == if es[0].Took? then [es[0].val] else []
  {
    assert es[1..] == [];
  }

  lemma StaysOpen<T>(s: State<T>, e: Event<T>)
    requires Enabled(s, e.tid, e.act) && !(e.act.Advance? && Apply(s, e.tid, e.act).pc[e.tid].Idle?)
    ensures var r := Apply(s, e.tid, e.act);
            && Ended(s, e) == [] && r.pushed == s.pushed && r.popped == s.popped
            && (e.act.Advance? ==> Pending(r, e.tid) == Pending(s, e.tid))
            && (!e.act.Advance? ==> Pending(s, e.tid) == [] && Pending(r, e.tid) == [e.act])
            && forall u | u != e.tid :: Pending(r, u) == Pending(s, u)
  {
    hide Succ;
  }

  /** Over every run: the calls a thread has made are, in order, those that have ended and the one that is under way.
      Every value in the queue's history was stored by exactly one of the calls and every value popped was taken by
      exactly one, in that order, and a call is turned away only by its failing test. */
  lemma {:induction false} CallsAccounted<T>(s: State<T>, sched: seq<Event<T>>, t: Tid)
    requires Runs(s, sched)
    ensures var r := Run(s, sched);
            && Pending(s, t) + Called(sched, t) == CallsOf(Endings(s, sched, t)) + Pending(r, t)
            && r.pushed == s.pushed + StoredIn(AllEndings(s, sched))
            && r.popped == s.popped + TookIn(AllEndings(s, sched))
            && TurnedAwayRightly(s, sched)
    decreases |sched|
  {
    hide Apply, Enabled, Ended, Pending;
    if sched == [] {
      assert Pending(s, t) + [] == [] + Pending(s, t) && s.pushed + [] == s.pushed && s.popped + [] == s.popped;
    } else {
      var e, rest := sched[0], sched[1..];
      var m := Apply(s, e.tid, e.act);
      EventAccounts(s, e, t);
      CallsAccounted(m, rest, t);
      var mine, call := if e.tid == t then Ended(s, e) else [], if e.tid == t && !e.act.Advance? then [e.act] else [];
      var more := Endings(m, rest, t);
      CallsConcat(mine, more);
      CallsConcat(Ended(s, e), AllEndings(m, rest));
      Regroup(Pending(s, t), call, Called(rest, t));
      Regroup(CallsOf(mine), Pending(m, t), Called(rest, t));
      Regroup(CallsOf(mine), CallsOf(more), Pending(Run(m, rest), t));
      Regroup(s.pushed, StoredIn(Ended(s, e)), StoredIn(AllEndings(m, rest)));
      Regroup(s.popped, TookIn(Ended(s, e)), TookIn(AllEndings(m, rest)));
    }
  }

  lemma {:induction false} CallsConcat<T>(a: seq<Ending<T>>, b: seq<Ending<T>>)
    ensures CallsOf(a + b) == CallsOf(a) + CallsOf(b)
    ensures StoredIn(a + b) == StoredIn(a) + StoredIn(b) && TookIn(a + b) == TookIn(a) + TookIn(b)
    decreases |a|
  {
    if a == [] {
      assert a + b == b;
      hide CallOf;
    } else {
      TailConcat(a, b);
      CallsTail(a);
      CallsTail(a + b);
      hide CallsOf, StoredIn, TookIn, CallOf;
      CallsConcat(a[1..], b);
      Regroup([CallOf(a[0])], CallsOf(a[1..]), CallsOf(b));
      Regroup(if a[0].Stored? then [a[0].val] else [], StoredIn(a[1..]), StoredIn(b));
      Regroup(if a[0].Took? then [a[0].val] else [], TookIn(a[1..]), TookIn(b));
    }
  }

  lemma CallsTail<T>(es: seq<Ending<T>>)
    requires es != []
    ensures CallsOf(es) == [CallOf(es[0])] + CallsOf(es[1..])
    ensures StoredIn(es) == (if es[0].Stored? then [es[0].val] else []) + StoredIn(es[1..])
    ensures TookIn(es) == (if es[0].Took? then [es[0].val] else []) + TookIn(es[1..])
  {
    hide CallOf;
  }

  /** From the start: every push that was called is under way, has published its value once, or was turned away. */
  lemma EveryCall<T>(s: State<T>, sched: seq<Event<T>>, t: Tid)
    requires Init(s) && Runs(s, sched)
    ensures var r := Run(s, sched);
            && Called(sched, t) == CallsOf(Endings(s, sched, t)) + Pending(r, t) && |Pending(r, t)| <= 1
            && r.pushed == StoredIn(AllEndings(s, sched)) && r.popped == TookIn(AllEndings(s, sched))
            && TurnedAwayRightly(s, sched)
  {
    hide Runs, Run;
    CallsAccounted(s, sched, t);
    assert [] + Called(sched, t) == Called(sched, t);
    assert [] + StoredIn(AllEndings(s, sched)) == StoredIn(AllEndings(s, sched));
    assert [] + TookIn(AllEndings(s, sched)) == TookIn(AllEndings(s, sched));
  }
}
