/** The bounded ring queue shared by logging and the connection pool.

    Part one is the concurrent protocol. Every load, store and compare-and-swap of the four queue
    operations is one atomic step of one thread, and a run is any interleaving of such steps.
    The ring indices are bare residues modulo the capacity, so the state also carries three
    histories: values claimed by producers, values published to consumers and values popped.
    Their lengths are the unbounded tickets behind `write_`, `back_` and `front_`.

    Part two is the class itself, run by one thread at a time. */
module LockfreeQueue {
  import opened Arithmetic

  type Tid = nat

  datatype Mode = Single | Multiple

  /** Where a thread stands inside a queue operation. `ticket` is the unbounded position that the
      residue `slot` stood for when the thread loaded it; the code cannot see it. */
  datatype Pc<T> =
    | Idle
    | PushStart(val: T)
    | PushLoaded(val: T, slot: nat, ticket: nat)
    | PushChecked(val: T, slot: nat, ticket: nat)
    | PushClaimed(val: T, slot: nat, ticket: nat)
    | PushStored(val: T, slot: nat, ticket: nat)
    | PopStart
    | PopLoaded(slot: nat, ticket: nat)
    | PopChecked(slot: nat, ticket: nat)
    | PopRead(got: T, slot: nat, ticket: nat)
  {
    predicate Pushing() { PushStart? || PushLoaded? || PushChecked? || PushClaimed? || PushStored? }
    predicate Popping() { PopStart? || PopLoaded? || PopChecked? || PopRead? }
    predicate Owning() { PushClaimed? || PushStored? }
  }

  datatype State<T> = State(
    pushMode: Mode, popMode: Mode,
    producer: Tid,  // the one pushing thread in single push mode
    consumer: Tid,  // the one popping thread in single pop mode
    data: seq<T>, front: nat, back: nat, write: nat,
    claimed: seq<T>, claimers: seq<Tid>, pushed: seq<T>, popped: seq<T>,
    pc: map<Tid, Pc<T>>)
  {
    function Capacity(): nat { |data| }

    /** What a queue without concurrency would hold. */
    function Items(): seq<T>
      requires |popped| <= |pushed|
    {
      pushed[|popped|..]
    }
  }

  datatype Action<T> = CallPush(v: T) | CallPop | Advance

  // ---------- The atomic steps ----------

  predicate Init<T>(s: State<T>) {
    && |s.data| > 0
    && s.front == s.back == s.write == 0
    && s.claimed == [] && s.claimers == [] && s.pushed == [] && s.popped == []
    && forall t :: t in s.pc ==> s.pc[t].Idle?
  }

  predicate Enabled<T>(s: State<T>, t: Tid, a: Action<T>) {
    && |s.data| > 0
    && t in s.pc
    && match a
       case CallPush(_) => s.pc[t].Idle? && (s.pushMode.Single? ==> t == s.producer)
       case CallPop => s.pc[t].Idle? && (s.popMode.Single? ==> t == s.consumer)
       case Advance => !s.pc[t].Idle? && (s.pc[t].PushClaimed? || s.pc[t].PopChecked? ==> s.pc[t].slot < |s.data|)
  }

  /** The window bound: fewer than a whole ring of the swapped index has passed between the load
      and the compare-and-swap of `write_` or `front_`. */
  predicate Timely<T>(s: State<T>, t: Tid, a: Action<T>) {
    t in s.pc && a.Advance? ==>
      && (s.pc[t].PushChecked? ==> |s.claimed| < s.pc[t].ticket + |s.data|)
      && (s.pc[t].PopRead? && s.popMode.Multiple? ==> |s.popped| < s.pc[t].ticket + |s.data|)
  }

  function Succ(slot: nat, capacity: nat): nat
    requires capacity > 0
  {
    (slot + 1) % capacity
  }

  function Apply<T>(s: State<T>, t: Tid, a: Action<T>): State<T>
    requires Enabled(s, t, a)
  {
    match a
    case CallPush(v) => s.(pc := s.pc[t := PushStart(v)])
    case CallPop => s.(pc := s.pc[t := PopStart])
    case Advance => AdvanceThread(s, t)
  }

  function AdvanceThread<T>(s: State<T>, t: Tid): State<T>
    requires Enabled(s, t, Advance)
  {
    var n := |s.data|;
    match s.pc[t]
    // load of write_ (MultiplePush) or back_ (SinglePush)
    case PushStart(v) =>
      if s.pushMode.Multiple? then s.(pc := s.pc[t := PushLoaded(v, s.write, |s.claimed|)])
      else s.(pc := s.pc[t := PushLoaded(v, s.back, |s.pushed|)])
    // load of front_ and the full test; a full queue returns false
    case PushLoaded(v, w, k) =>
      if Succ(w, n) == s.front then s.(pc := s.pc[t := Idle])
      else if s.pushMode.Multiple? then s.(pc := s.pc[t := PushChecked(v, w, k)])
      else s.(claimed := s.claimed + [v], claimers := s.claimers + [t], pc := s.pc[t := PushClaimed(v, w, k)])
    // compare-and-swap of write_
    case PushChecked(v, w, k) =>
      if s.write == w then
        s.(write := Succ(w, n), claimed := s.claimed + [v], claimers := s.claimers + [t],
           pc := s.pc[t := PushClaimed(v, w, |s.claimed|)])
      else s.(pc := s.pc[t := PushStart(v)])
    // data_[write] = val
    case PushClaimed(v, w, k) => s.(data := s.data[w := v], pc := s.pc[t := PushStored(v, w, k)])
    // compare-and-swap of back_ until it succeeds (MultiplePush), plain store (SinglePush)
    case PushStored(v, w, k) =>
      if s.pushMode.Single? || s.back == w then
        s.(back := Succ(w, n), pushed := s.pushed + [v], pc := s.pc[t := Idle])
      else s
    // load of front_
    case PopStart => s.(pc := s.pc[t := PopLoaded(s.front, |s.popped|)])
    // load of back_ and the empty test; an empty queue returns false
    case PopLoaded(f, k) =>
      if f == s.back then s.(pc := s.pc[t := Idle]) else s.(pc := s.pc[t := PopChecked(f, k)])
    // val = data_[front]
    case PopChecked(f, k) => s.(pc := s.pc[t := PopRead(s.data[f], f, k)])
    // compare-and-swap of front_ (MultiplePop), plain store (SinglePop)
    case PopRead(v, f, k) =>
      if s.popMode.Single? || s.front == f then
        s.(front := Succ(f, n), popped := s.popped + [v], pc := s.pc[t := Idle])
      else s.(pc := s.pc[t := PopStart])
  }

  // ---------- Runs ----------

  datatype Event<T> = Event(tid: Tid, act: Action<T>)

  /** `sched` can be executed from `s`. */
  predicate Runs<T>(s: State<T>, sched: seq<Event<T>>)
    decreases |sched|
  {
    sched == [] ||
    (Enabled(s, sched[0].tid, sched[0].act) && Runs(Apply(s, sched[0].tid, sched[0].act), sched[1..]))
  }

  /** As `Runs`, and every compare-and-swap meets the window bound. */
  predicate TimelyRun<T>(s: State<T>, sched: seq<Event<T>>)
    decreases |sched|
  {
    sched == [] ||
    (Enabled(s, sched[0].tid, sched[0].act) && Timely(s, sched[0].tid, sched[0].act) &&
     TimelyRun(Apply(s, sched[0].tid, sched[0].act), sched[1..]))
  }

  function Run<T>(s: State<T>, sched: seq<Event<T>>): State<T>
    requires Runs(s, sched)
    decreases |sched|
  {
    if sched == [] then s else Run(Apply(s, sched[0].tid, sched[0].act), sched[1..])
  }

  // ---------- The invariant ----------

  ghost predicate Indices<T>(s: State<T>) {
    && |s.data| > 0
    && s.popped <= s.pushed <= s.claimed
    && |s.claimers| == |s.claimed|
    && |s.claimed| <= |s.popped| + |s.data| - 1
    && s.front == |s.popped| % |s.data|
    && s.back == |s.pushed| % |s.data|
    && (s.pushMode.Multiple? ==> s.write == |s.claimed| % |s.data|)
  }

  /** Every published, unpopped value is in its slot. */
  ghost predicate Published<T>(s: State<T>)
    requires |s.data| > 0 && |s.pushed| <= |s.claimed|
  {
    forall i {:trigger s.claimed[i]} :: |s.popped| <= i < |s.pushed| ==> s.data[i % |s.data|] == s.claimed[i]
  }

  /** Every claimed, unpublished ticket is held by the thread that claimed it. */
  ghost predicate Owned<T>(s: State<T>)
    requires |s.claimers| == |s.claimed|
  {
    forall i {:trigger s.claimers[i]} :: |s.pushed| <= i < |s.claimed| ==>
      s.claimers[i] in s.pc && s.pc[s.claimers[i]].Owning() && s.pc[s.claimers[i]].ticket == i
  }

  ghost predicate PushOk<T>(s: State<T>, t: Tid)
    requires Indices(s) && t in s.pc
  {
    match s.pc[t]
    case PushLoaded(v, w, k) =>
      && w == k % |s.data| && k <= |s.claimed|
      && (s.pushMode.Single? ==> k == |s.pushed| == |s.claimed|)
    case PushChecked(v, w, k) =>
      && s.pushMode.Multiple?
      && w == k % |s.data| && k <= |s.claimed|
      && (k == |s.claimed| ==> k + 1 <= |s.popped| + |s.data| - 1)
    case PushClaimed(v, w, k) =>
      && w == k % |s.data| && |s.pushed| <= k < |s.claimed|
      && s.claimed[k] == v && s.claimers[k] == t
    case PushStored(v, w, k) =>
      && w == k % |s.data| && |s.pushed| <= k < |s.claimed|
      && s.claimed[k] == v && s.claimers[k] == t && s.data[w] == v
    case PushStart(v) => s.pushMode.Single? ==> |s.pushed| == |s.claimed|
    case _ => true
  }

  ghost predicate PopOk<T>(s: State<T>, t: Tid)
    requires Indices(s) && t in s.pc
  {
    match s.pc[t]
    case PopLoaded(f, k) => f == k % |s.data| && k <= |s.popped| && (s.popMode.Single? ==> k == |s.popped|)
    case PopChecked(f, k) =>
      && f == k % |s.data| && k <= |s.popped| && (s.popMode.Single? ==> k == |s.popped|)
      && (k == |s.popped| ==> k < |s.pushed|)
    case PopRead(v, f, k) =>
      && f == k % |s.data| && k <= |s.popped| && (s.popMode.Single? ==> k == |s.popped|)
      && (k == |s.popped| ==> k < |s.pushed| && v == s.claimed[k])
    case _ => true
  }

  ghost predicate Roles<T>(s: State<T>) {
    && (s.pushMode.Single? ==> forall t {:trigger s.pc[t]} :: t in s.pc && s.pc[t].Pushing() ==> t == s.producer)
    && (s.popMode.Single? ==> forall t {:trigger s.pc[t]} :: t in s.pc && s.pc[t].Popping() ==> t == s.consumer)
    && (s.pushMode.Single? ==> |s.claimed| <= |s.pushed| + 1)
    && (s.pushMode.Single? && |s.pushed| < |s.claimed| ==>
          s.producer in s.pc && s.pc[s.producer].Owning())
  }

  ghost predicate Inv<T>(s: State<T>) {
    && Indices(s)
    && Published(s)
    && Owned(s)
    && Roles(s)
    && (forall t {:trigger PushOk(s, t)} :: t in s.pc ==> PushOk(s, t))
    && (forall t {:trigger PopOk(s, t)} :: t in s.pc ==> PopOk(s, t))
  }

  /** Two tickets less than a ring apart with the same residue are the same ticket. */
  lemma ModInjective(a: nat, b: nat, n: nat)
    requires n > 0 && a <= b < a + n && a % n == b % n
    ensures a == b
  {
    assert a == (a / n) * n + a % n && b == (b / n) * n + b % n;
    assert (b / n - a / n) * n == b - a;
    MultipleAtLeast(b / n - a / n, n);
  }

  lemma ModSucc(a: nat, n: nat)
    requires n > 0
    ensures Succ(a % n, n) == (a + 1) % n
  {
    NextResidue(a / n, a % n, n);
    assert a == (a / n) * n + a % n;
  }

  lemma NextResidue(q: nat, r: nat, n: nat)
    requires r < n
    ensures (r + 1) % n == (q * n + r + 1) % n
  {
    if r + 1 < n {
      ModUnique(q * n + r + 1, q, r + 1, n);
      ModUnique(r + 1, 0, r + 1, n);
    } else {
      assert q * n + n == (q + 1) * n;
      ModUnique(q * n + n, q + 1, 0, n);
      ModUnique(n, 1, 0, n);
    }
  }

  /** The full test is exact for a fresh index: it fails only when a slot is free. */
  lemma FullTest(f: nat, w: nat, n: nat)
    requires n > 0 && f <= w <= f + n - 1 && Succ(w % n, n) != f % n
    ensures w + 1 <= f + n - 1
  {
    ModSucc(w, n);
    if w + 1 == f + n {
      assert f == (f / n) * n + f % n;
      assert w + 1 == (f / n + 1) * n + f % n;
      ModUnique(w + 1, f / n + 1, f % n, n);
    }
  }

  lemma InitInv<T>(s: State<T>)
    requires Init(s)
    ensures Inv(s)
  {
  }

  // ---------- Every step keeps the invariant ----------

  lemma LocalInv<T>(s: State<T>, t: Tid, p: Pc<T>)
    requires Inv(s) && t in s.pc && !p.Owning() && !s.pc[t].Owning()
    requires p.Pushing() && s.pushMode.Single? ==> t == s.producer
    requires p.Popping() && s.popMode.Single? ==> t == s.consumer
    requires PushOk(s.(pc := s.pc[t := p]), t) && PopOk(s.(pc := s.pc[t := p]), t)
    ensures Inv(s.(pc := s.pc[t := p]))
  {
    var s' := s.(pc := s.pc[t := p]);
    forall u | u in s'.pc ensures PushOk(s', u) {
      if u != t { assert PushOk(s, u); }
    }
    forall u | u in s'.pc ensures PopOk(s', u) {
      if u != t { assert PopOk(s, u); }
    }
    forall i | |s'.pushed| <= i < |s'.claimed|
      ensures s'.claimers[i] in s'.pc && s'.pc[s'.claimers[i]].Owning() && s'.pc[s'.claimers[i]].ticket == i
    {
      assert s.claimers[i] != t;
    }
  }

  lemma ClaimInv<T>(s: State<T>, t: Tid)
    requires Inv(s) && Enabled(s, t, Advance) && s.pc[t].PushChecked? && Timely(s, t, Advance)
    requires s.write == s.pc[t].slot
    ensures Inv(AdvanceThread(s, t))
  {
    var s' := AdvanceThread(s, t);
    assert PushOk(s, t);
    ModInjective(s.pc[t].ticket, |s.claimed|, |s.data|);
    ModSucc(|s.claimed|, |s.data|);
    forall u | u in s'.pc ensures PushOk(s', u) {
      if u != t { assert PushOk(s, u); }
    }
    forall u | u in s'.pc ensures PopOk(s', u) {
      if u != t { assert PopOk(s, u); }
    }
    forall i | |s'.pushed| <= i < |s'.claimed|
      ensures s'.claimers[i] in s'.pc && s'.pc[s'.claimers[i]].Owning() && s'.pc[s'.claimers[i]].ticket == i
    {
      if i < |s.claimed| { assert s.claimers[i] != t; }
    }
  }

  /** The claim of a single producer: its full test is still valid because nobody else pushes. */
  lemma SingleClaimInv<T>(s: State<T>, t: Tid)
    requires Inv(s) && Enabled(s, t, Advance) && s.pc[t].PushLoaded? && s.pushMode.Single?
    requires Succ(s.pc[t].slot, |s.data|) != s.front
    ensures Inv(AdvanceThread(s, t))
  {
    var s' := AdvanceThread(s, t);
    assert PushOk(s, t);
    FullTest(|s.popped|, |s.claimed|, |s.data|);
    forall u | u in s'.pc ensures PushOk(s', u) {
      if u != t { assert PushOk(s, u); }
    }
    forall u | u in s'.pc ensures PopOk(s', u) {
      if u != t { assert PopOk(s, u); }
    }
  }

  /** Storing into an owned slot disturbs neither a published value nor another owner's slot. */
  lemma StoreInv<T>(s: State<T>, t: Tid)
    requires Inv(s) && Enabled(s, t, Advance) && s.pc[t].PushClaimed?
    ensures Inv(AdvanceThread(s, t))
  {
    var s' := AdvanceThread(s, t);
    var k := s.pc[t].ticket;
    assert PushOk(s, t);
    forall i | |s'.popped| <= i < |s'.pushed| ensures s'.data[i % |s'.data|] == s'.claimed[i] {
      if i % |s.data| == k % |s.data| { ModInjective(i, k, |s.data|); }
      assert s.data[i % |s.data|] == s.claimed[i];
    }
    forall u | u in s'.pc ensures PushOk(s', u) {
      assert PushOk(s, u);
      if u != t && s.pc[u].PushStored? && s.pc[u].slot == s.pc[t].slot {
        var j := s.pc[u].ticket;
        if j <= k { ModInjective(j, k, |s.data|); } else { ModInjective(k, j, |s.data|); }
      }
    }
    forall u | u in s'.pc ensures PopOk(s', u) {
      if u != t { assert PopOk(s, u); }
    }
    forall i | |s'.pushed| <= i < |s'.claimed|
      ensures s'.claimers[i] in s'.pc && s'.pc[s'.claimers[i]].Owning() && s'.pc[s'.claimers[i]].ticket == i
    {
      assert s.claimers[i] in s.pc;
    }
  }

  /** Publication can only succeed for the oldest unpublished ticket. */
  lemma PublishIsOldest<T>(s: State<T>, t: Tid)
    requires Inv(s) && t in s.pc && s.pc[t].PushStored?
    ensures s.back == s.pc[t].slot <==> s.pc[t].ticket == |s.pushed|
    ensures s.pushMode.Single? ==> s.pc[t].ticket == |s.pushed|
  {
    assert PushOk(s, t);
    if s.back == s.pc[t].slot { ModInjective(|s.pushed|, s.pc[t].ticket, |s.data|); }
  }

  lemma PublishInv<T>(s: State<T>, t: Tid)
    requires Inv(s) && Enabled(s, t, Advance) && s.pc[t].PushStored?
    ensures Inv(AdvanceThread(s, t))
  {
    var s' := AdvanceThread(s, t);
    PublishIsOldest(s, t);
    assert PushOk(s, t);
    if s' == s { return; }
    var k := s.pc[t].ticket;
    ModSucc(k, |s.data|);
    forall i | |s'.popped| <= i < |s'.pushed| ensures s'.data[i % |s'.data|] == s'.claimed[i] {
      if i < |s.pushed| { assert s.data[i % |s.data|] == s.claimed[i]; }
    }
    forall u | u in s'.pc ensures PushOk(s', u) {
      assert PushOk(s, u);
    }
    forall u | u in s'.pc ensures PopOk(s', u) {
      if u != t { assert PopOk(s, u); }
    }
    forall i | |s'.pushed| <= i < |s'.claimed|
      ensures s'.claimers[i] in s'.pc && s'.pc[s'.claimers[i]].Owning() && s'.pc[s'.claimers[i]].ticket == i
    {
      assert s.claimers[i] in s.pc;
    }
  }

  /** A timely swap of `front_` still holds the ticket it loaded, so the value read is the right one. */
  lemma TakeIsCurrent<T>(s: State<T>, t: Tid)
    requires Inv(s) && t in s.pc && s.pc[t].PopRead? && Timely(s, t, Advance)
    ensures s.front == s.pc[t].slot ==> s.pc[t].ticket == |s.popped| < |s.pushed|
    ensures s.front == s.pc[t].slot ==> s.pc[t].got == s.pushed[|s.popped|]
    ensures s.popMode.Single? ==> s.front == s.pc[t].slot
  {
    assert PopOk(s, t);
    if s.front == s.pc[t].slot { ModInjective(s.pc[t].ticket, |s.popped|, |s.data|); }
  }

  lemma TakeInv<T>(s: State<T>, t: Tid)
    requires Inv(s) && Enabled(s, t, Advance) && s.pc[t].PopRead? && Timely(s, t, Advance)
    requires s.front == s.pc[t].slot
    ensures Inv(AdvanceThread(s, t))
  {
    var s' := AdvanceThread(s, t);
    TakeIsCurrent(s, t);
    assert PopOk(s, t);
    ModSucc(|s.popped|, |s.data|);
    forall i | |s'.popped| <= i < |s'.pushed| ensures s'.data[i % |s'.data|] == s'.claimed[i] {
      assert s.data[i % |s.data|] == s.claimed[i];
    }
    forall u | u in s'.pc ensures PushOk(s', u) {
      assert PushOk(s, u);
    }
    forall u | u in s'.pc ensures PopOk(s', u) {
      if u != t { assert PopOk(s, u); }
    }
    forall i | |s'.pushed| <= i < |s'.claimed|
      ensures s'.claimers[i] in s'.pc && s'.pc[s'.claimers[i]].Owning() && s'.pc[s'.claimers[i]].ticket == i
    {
      assert s.claimers[i] in s.pc;
    }
  }

  lemma PushAdvanceInv<T>(s: State<T>, t: Tid)
    requires Inv(s) && Enabled(s, t, Advance) && Timely(s, t, Advance) && s.pc[t].Pushing()
    ensures Inv(AdvanceThread(s, t))
  {
    var p := AdvanceThread(s, t).pc[t];
    assert PushOk(s, t);
    match s.pc[t]
    case PushStart(v) => LocalInv(s, t, p);
    case PushLoaded(v, w, k) =>
      if Succ(w, |s.data|) == s.front {
        LocalInv(s, t, p);
      } else if s.pushMode.Single? {
        SingleClaimInv(s, t);
      } else {
        if k == |s.claimed| { FullTest(|s.popped|, k, |s.data|); }
        LocalInv(s, t, p);
      }
    case PushChecked(v, w, k) =>
      if s.write == w { ClaimInv(s, t); } else { LocalInv(s, t, p); }
    case PushClaimed(v, w, k) => StoreInv(s, t);
    case PushStored(v, w, k) => PublishInv(s, t);
  }

  lemma PopAdvanceInv<T>(s: State<T>, t: Tid)
    requires Inv(s) && Enabled(s, t, Advance) && Timely(s, t, Advance) && s.pc[t].Popping()
    ensures Inv(AdvanceThread(s, t))
  {
    var p := AdvanceThread(s, t).pc[t];
    assert PopOk(s, t);
    match s.pc[t]
    case PopStart => LocalInv(s, t, p);
    case PopLoaded(f, k) => LocalInv(s, t, p);
    case PopChecked(f, k) =>
      if k == |s.popped| { assert s.data[k % |s.data|] == s.claimed[k]; }
      LocalInv(s, t, p);
    case PopRead(v, f, k) =>
      TakeIsCurrent(s, t);
      if s.front == f { TakeInv(s, t); } else { LocalInv(s, t, p); }
  }

  lemma StepInv<T>(s: State<T>, t: Tid, a: Action<T>)
    requires Inv(s) && Enabled(s, t, a) && Timely(s, t, a)
    ensures Inv(Apply(s, t, a))
  {
    match a
    case CallPush(v) => LocalInv(s, t, PushStart(v));
    case CallPop => LocalInv(s, t, PopStart);
    case Advance =>
      if s.pc[t].Pushing() { PushAdvanceInv(s, t); } else { PopAdvanceInv(s, t); }
  }

  // ---------- What holds over whole runs ----------

  lemma {:induction false} RunInv<T>(s: State<T>, sched: seq<Event<T>>)
    requires Inv(s) && TimelyRun(s, sched)
    ensures Runs(s, sched) && Inv(Run(s, sched))
    decreases |sched|
  {
    if sched != [] {
      StepInv(s, sched[0].tid, sched[0].act);
      RunInv(Apply(s, sched[0].tid, sched[0].act), sched[1..]);
    }
  }

  /** Safety of the queue for every interleaving of any number of threads: what the pops returned,
      in order, is a prefix of what the successful pushes stored, in the order they were claimed;
      nothing is lost or duplicated, and the ring never holds more than capacity - 1 values. */
  lemma FifoOverRuns<T>(s: State<T>, sched: seq<Event<T>>)
    requires Init(s) && TimelyRun(s, sched)
    ensures Runs(s, sched)
    ensures var e := Run(s, sched);
            && e.popped <= e.pushed <= e.claimed
            && e.pushed == e.popped + e.Items()
            && |e.claimed| <= |e.popped| + |e.data| - 1
  {
    InitInv(s);
    RunInv(s, sched);
  }

  /** Every step is one step of a FIFO queue: an append, a removal at the head, or no change. The
      append is made by the thread's own pending value and the removal delivers the head. */
  lemma StepRefinesFifo<T>(s: State<T>, t: Tid, a: Action<T>)
    requires Inv(s) && Enabled(s, t, a) && Timely(s, t, a)
    ensures var s' := Apply(s, t, a); |s'.popped| <= |s'.pushed|
    ensures var s' := Apply(s, t, a);
            || (s'.Items() == s.Items() && s'.popped == s.popped)
            || (s.pc[t].PushStored? && s'.Items() == s.Items() + [s.pc[t].val] && s'.popped == s.popped)
            || (s.pc[t].PopRead? && s.Items() != [] && s.Items()[0] == s.pc[t].got
                && s'.Items() == s.Items()[1..] && s'.popped == s.popped + [s.pc[t].got])
  {
    if a.Advance? && s.pc[t].PopRead? {
      TakeRefines(s, t);
    } else if a.Advance? && s.pc[t].PushStored? {
      StepInv(s, t, a);
      InOrder(s);
      InOrder(Apply(s, t, a));
      hide Inv, Succ;
    } else {
      InOrder(s);
      OtherStep(s, t, a);
      hide Inv, Apply;
    }
  }

  lemma OtherStep<T>(s: State<T>, t: Tid, a: Action<T>)
    requires Enabled(s, t, a) && !(a.Advance? && (s.pc[t].PopRead? || s.pc[t].PushStored?))
    ensures Apply(s, t, a).pushed == s.pushed && Apply(s, t, a).popped == s.popped
  {
    hide Succ;
  }

  /** The swap of `front_` removes the head, or nothing changes. */
  lemma TakeRefines<T>(s: State<T>, t: Tid)
    requires Inv(s) && Enabled(s, t, Advance) && Timely(s, t, Advance) && s.pc[t].PopRead?
    ensures var s' := AdvanceThread(s, t);
            && |s'.popped| <= |s'.pushed|
            && ((s'.Items() == s.Items() && s'.popped == s.popped)
                || (s.Items() != [] && s.Items()[0] == s.pc[t].got
                    && s'.Items() == s.Items()[1..] && s'.popped == s.popped + [s.pc[t].got]))
  {
    StepInv(s, t, Advance);
    InOrder(s);
    InOrder(AdvanceThread(s, t));
    TakeIsCurrent(s, t);
    hide Inv, Succ;
  }

  lemma InOrder<T>(s: State<T>)
    requires Inv(s)
    ensures s.popped <= s.pushed <= s.claimed
  {
  }

  /** Each claimed and unpublished ticket has exactly one owner. */
  lemma OneOwner<T>(s: State<T>, k: nat)
    requires Inv(s) && |s.pushed| <= k < |s.claimed|
    ensures exists t :: t in s.pc && s.pc[t].Owning() && s.pc[t].ticket == k
    ensures forall t, u | t in s.pc && u in s.pc && s.pc[t].Owning() && s.pc[u].Owning()
              && s.pc[t].ticket == s.pc[u].ticket == k :: t == u
  {
    assert s.claimers[k] in s.pc && s.pc[s.claimers[k]].Owning();
    forall t | t in s.pc && s.pc[t].Owning() && s.pc[t].ticket == k ensures t == s.claimers[k] {
      assert PushOk(s, t);
    }
  }

  /** Publication never gets stuck: the owner of the oldest unpublished ticket can always publish,
      in at most two steps of its own. */
  lemma OldestCanPublish<T>(s: State<T>) returns (t: Tid)
    requires Inv(s) && |s.pushed| < |s.claimed|
    ensures Enabled(s, t, Advance) && s.pc[t].Owning()
    ensures var s1 := if s.pc[t].PushClaimed? then AdvanceThread(s, t) else s;
            Enabled(s1, t, Advance) && AdvanceThread(s1, t).pushed == s.pushed + [s.claimed[|s.pushed|]]
  {
    t := s.claimers[|s.pushed|];
    assert s.pc[t].Owning();
    assert PushOk(s, t);
    if s.pc[t].PushClaimed? {
      StoreInv(s, t);
      PublishIsOldest(AdvanceThread(s, t), t);
    } else {
      PublishIsOldest(s, t);
    }
  }

  // ---------- Uncontended calls, and what a full lap does ----------

  function PushCall<T>(t: Tid, v: T): seq<Event<T>> {
    var go := Event(t, Advance);
    [Event(t, CallPush(v)), go, go, go, go, go]
  }

  function PopCall<T>(t: Tid): seq<Event<T>> {
    var go := Event(t, Advance);
    [Event(t, CallPop), go, go, go, go]
  }

  lemma {:induction false} RunConcat<T>(s: State<T>, a: seq<Event<T>>, b: seq<Event<T>>)
    requires Runs(s, a) && Runs(Run(s, a), b)
    ensures Runs(s, a + b) && Run(s, a + b) == Run(Run(s, a), b)
    decreases |a|
  {
    if a == [] {
      assert a + b == b;
    } else {
      assert (a + b)[1..] == a[1..] + b;
      RunConcat(Apply(s, a[0].tid, a[0].act), a[1..], b);
    }
  }

  lemma RunStep<T>(s: State<T>, e: Event<T>, rest: seq<Event<T>>)
    requires Enabled(s, e.tid, e.act) && Runs(Apply(s, e.tid, e.act), rest)
    ensures Runs(s, [e] + rest) && Run(s, [e] + rest) == Run(Apply(s, e.tid, e.act), rest)
  {
    assert ([e] + rest)[1..] == rest;
  }

  /** A MultiplePush that runs without interruption while no other push is under way. */
  lemma PushUncontended<T>(s: State<T>, t: Tid, v: T)
    requires s.pushMode.Multiple? && t in s.pc && s.pc[t].Idle?
    requires s.write == s.back < |s.data| && Succ(s.write, |s.data|) != s.front
    ensures Runs(s, PushCall(t, v))
    ensures Run(s, PushCall(t, v)) ==
            s.(data := s.data[s.write := v], write := Succ(s.write, |s.data|), back := Succ(s.write, |s.data|),
               claimed := s.claimed + [v], claimers := s.claimers + [t], pushed := s.pushed + [v])
  {
    var go: Event<T> := Event(t, Advance);
    var s1 := Apply(s, t, CallPush(v));
    var s2 := AdvanceThread(s1, t);
    var s3 := AdvanceThread(s2, t);
    var s4 := AdvanceThread(s3, t);
    var s5 := AdvanceThread(s4, t);
    var s6 := AdvanceThread(s5, t);
    assert s6.pc == s.pc;
    RunStep(s5, go, []);
    RunStep(s4, go, [go]);
    RunStep(s3, go, [go, go]);
    RunStep(s2, go, [go, go, go]);
    RunStep(s1, go, [go, go, go, go]);
    RunStep(s, Event(t, CallPush(v)), [go, go, go, go, go]);
    assert [go] + [go] == [go, go];
    assert [go] + [go, go] == [go, go, go];
    assert [go] + [go, go, go] == [go, go, go, go];
    assert [go] + [go, go, go, go] == [go, go, go, go, go];
    assert [Event(t, CallPush(v))] + [go, go, go, go, go] == PushCall(t, v);
  }

  /** A MultiplePop that runs without interruption on a queue that is not empty. */
  lemma PopUncontended<T>(s: State<T>, t: Tid)
    requires s.popMode.Multiple? && t in s.pc && s.pc[t].Idle?
    requires s.front != s.back && s.front < |s.data|
    ensures Runs(s, PopCall(t))
    ensures Run(s, PopCall(t)) ==
            s.(front := Succ(s.front, |s.data|), popped := s.popped + [s.data[s.front]])
  {
    var go: Event<T> := Event(t, Advance);
    var s1 := Apply(s, t, CallPop);
    var s2 := AdvanceThread(s1, t);
    var s3 := AdvanceThread(s2, t);
    var s4 := AdvanceThread(s3, t);
    var s5 := AdvanceThread(s4, t);
    assert s5.pc == s.pc;
    RunStep(s4, go, []);
    RunStep(s3, go, [go]);
    RunStep(s2, go, [go, go]);
    RunStep(s1, go, [go, go, go]);
    RunStep(s, Event(t, CallPop), [go, go, go, go]);
    assert [go] + [go] == [go, go];
    assert [go] + [go, go] == [go, go, go];
    assert [go] + [go, go, go] == [go, go, go, go];
    assert [Event<T>.Event(t, CallPop)] + [go, go, go, go] == PopCall(t);
  }

  function Refusal<T>(t: Tid, call: Action<T>): seq<Event<T>> { [Event(t, call), Event(t, Advance), Event(t, Advance)] }

  /** A MultiplePush on a full ring returns after its test and changes nothing. */
  lemma PushRefused<T>(s: State<T>, t: Tid, v: T)
    requires s.pushMode.Multiple? && t in s.pc && s.pc[t].Idle? && |s.data| > 0 && Succ(s.write, |s.data|) == s.front
    ensures Runs(s, Refusal(t, CallPush(v))) && Run(s, Refusal(t, CallPush(v))) == s
  {
    var s1 := Apply(s, t, CallPush(v));
    var s2 := AdvanceThread(s1, t);
    ThreeSteps(s, t, CallPush(v), s1, s2);
    assert AdvanceThread(s2, t).pc == s.pc;
  }

  /** A MultiplePop on an empty ring returns after its test and changes nothing. */
  lemma PopRefused<T>(s: State<T>, t: Tid)
    requires s.popMode.Multiple? && t in s.pc && s.pc[t].Idle? && |s.data| > 0 && s.front == s.back
    ensures Runs(s, Refusal(t, CallPop)) && Run(s, Refusal(t, CallPop)) == s
  {
    var s1 := Apply(s, t, CallPop);
    var s2 := AdvanceThread(s1, t);
    ThreeSteps(s, t, CallPop, s1, s2);
    assert AdvanceThread(s2, t).pc == s.pc;
  }

  lemma ThreeSteps<T>(s: State<T>, t: Tid, call: Action<T>, s1: State<T>, s2: State<T>)
    requires Enabled(s, t, call) && s1 == Apply(s, t, call)
    requires Enabled(s1, t, Advance) && s2 == Apply(s1, t, Advance) && Enabled(s2, t, Advance)
    ensures Runs(s, Refusal(t, call)) && Run(s, Refusal(t, call)) == Apply(s2, t, Advance)
  {
    hide Apply, Enabled;
    var go: Event<T> := Event(t, Advance);
    RunStep(s2, go, []);
    RunStep(s1, go, [go]);
    RunStep(s, Event(t, call), [go, go]);
    assert [go] + [go] == [go, go];
    assert [Event(t, call)] + [go, go] == Refusal(t, call);
  }

  function ReadCall<T>(t: Tid): seq<Event<T>> {
    [Event(t, CallPop), Event(t, Advance), Event(t, Advance), Event(t, Advance)]
  }

  /** A MultiplePop that has read its slot and is about to swap. */
  lemma PopUpToRead<T>(s: State<T>, t: Tid)
    requires t in s.pc && s.pc[t].Idle? && s.popMode.Multiple?
    requires s.front != s.back && s.front < |s.data|
    ensures Runs(s, ReadCall(t))
    ensures Run(s, ReadCall(t)) == s.(pc := s.pc[t := PopRead(s.data[s.front], s.front, |s.popped|)])
  {
    var go: Event<T> := Event(t, Advance);
    var s1 := Apply(s, t, CallPop);
    var s2 := AdvanceThread(s1, t);
    var s3 := AdvanceThread(s2, t);
    RunStep(s3, go, []);
    RunStep(s2, go, [go]);
    RunStep(s1, go, [go, go]);
    RunStep(s, Event(t, CallPop), [go, go, go]);
    assert [go] + [go] == [go, go];
    assert [go] + [go, go] == [go, go, go];
    assert [Event<T>.Event(t, CallPop)] + [go, go, go] == ReadCall(t);
  }

  function Lap(t: Tid): seq<Event<nat>> {
    PopCall(t) + (PushCall(t, 20) + (PopCall(t) + PushCall(t, 30)))
  }

  lemma LapRun(b: State<nat>, t: Tid)
    requires b.pushMode.Multiple? && b.popMode.Multiple? && t in b.pc && b.pc[t].Idle?
    requires |b.data| == 2 && b.front == 0 && b.back == b.write == 1
    ensures Runs(b, Lap(t))
    ensures Run(b, Lap(t)).front == 0 && Run(b, Lap(t)).pc == b.pc && |Run(b, Lap(t)).data| == 2
    ensures Run(b, Lap(t)).popMode == b.popMode
    ensures Run(b, Lap(t)).popped == b.popped + [b.data[0], 20]
    ensures Run(b, Lap(t)).pushed == b.pushed + [20, 30]
  {
    PopUncontended(b, t);
    var c := Run(b, PopCall(t));
    PushUncontended(c, t, 20);
    var d := Run(c, PushCall(t, 20));
    PopUncontended(d, t);
    var e := Run(d, PopCall(t));
    PushUncontended(e, t, 30);
    RunConcat(d, PopCall(t), PushCall(t, 30));
    RunConcat(c, PushCall(t, 20), PopCall(t) + PushCall(t, 30));
    RunConcat(b, PopCall(t), PushCall(t, 20) + (PopCall(t) + PushCall(t, 30)));
  }

  lemma Chain<T>(s: State<T>, a: seq<Event<T>>, b: seq<Event<T>>, c: seq<Event<T>>, d: seq<Event<T>>)
    requires Runs(s, a) && Runs(Run(s, a), b) && Runs(Run(Run(s, a), b), c)
    requires Runs(Run(Run(Run(s, a), b), c), d)
    ensures Runs(s, a + (b + (c + d)))
    ensures Run(s, a + (b + (c + d))) == Run(Run(Run(Run(s, a), b), c), d)
  {
    RunConcat(Run(Run(s, a), b), c, d);
    RunConcat(Run(s, a), b, c + d);
    RunConcat(s, a, b + (c + d));
  }

  /** A run that is not first in, first out, or that overfills the ring, has a swap outside the window bound. */
  lemma BadRunIsLate<T>(s: State<T>, sched: seq<Event<T>>)
    requires Init(s) && Runs(s, sched)
    requires var e := Run(s, sched); !(e.popped <= e.pushed) || |e.claimed| > |e.popped| + |e.data| - 1
    ensures !TimelyRun(s, sched)
  {
    if TimelyRun(s, sched) { FifoOverRuns(s, sched); }
  }

  lemma LapFrom(s: State<nat>, fast: Tid, slow: Tid) returns (sched: seq<Event<nat>>)
    requires Init(s) && |s.data| == 2 && s.pushMode.Multiple? && s.popMode.Multiple?
    requires fast in s.pc && slow in s.pc && fast != slow
    ensures Runs(s, sched)
    ensures Run(s, sched).popped == [10, 20, 10] && Run(s, sched).pushed == [10, 20, 30]
  {
    hide Apply, Run, Runs, Enabled, Lap, PushCall, ReadCall;
    var one, read, lap := PushCall(fast, 10), ReadCall(slow), Lap(fast);
    PushUncontended(s, fast, 10);
    var a := Run(s, one);
    PopUpToRead(a, slow);
    var b := Run(a, read);
    LapRun(b, fast);
    var f := Run(b, lap);
    var swap := SwapStale(f, slow, 10);
    Chain(s, one, read, lap, swap);
    sched := one + (read + (lap + swap));
  }

  /** The swap of a consumer that has read slot 0 succeeds whenever the front index is 0 again. */
  lemma SwapStale(f: State<nat>, slow: Tid, v: nat) returns (swap: seq<Event<nat>>)
    requires slow in f.pc && f.pc[slow] == PopRead(v, 0, 0) && f.front == 0 && |f.data| == 2 && f.popMode.Multiple?
    ensures Runs(f, swap) && Run(f, swap).popped == f.popped + [v] && Run(f, swap).pushed == f.pushed
  {
    swap := [Event(slow, Advance)];
    RunStep(f, Event(slow, Advance), []);
    assert [Event<nat>.Event(slow, Advance)] + [] == swap;
  }

  /** The window bound is needed. With two slots, a consumer that reads slot 0 and then sleeps while
      the ring goes once around wakes up to a swap that succeeds on the wrong ticket: it returns a
      value that another consumer already has. */
  lemma LapBreaksFifo() returns (s: State<nat>, sched: seq<Event<nat>>)
    ensures Init(s) && Runs(s, sched) && !TimelyRun(s, sched)
    ensures Run(s, sched).popped == [10, 20, 10] && Run(s, sched).pushed == [10, 20, 30]
  {
    s := State(Multiple, Multiple, 0, 0, [0, 0], 0, 0, 0, [], [], [], [], map[0 := Idle, 1 := Idle]);
    sched := LapFrom(s, 1, 0);
    assert Run(s, sched).popped[2] != Run(s, sched).pushed[2];
    BadRunIsLate(s, sched);
  }

  /** A MultiplePush that has passed the full test and is about to swap. */
  lemma PushUpToSwap<T>(s: State<T>, t: Tid, v: T)
    requires t in s.pc && s.pc[t].Idle? && s.pushMode.Multiple? && |s.data| > 0 && Succ(s.write, |s.data|) != s.front
    ensures Runs(s, Refusal(t, CallPush(v)))
    ensures Run(s, Refusal(t, CallPush(v))) == s.(pc := s.pc[t := PushChecked(v, s.write, |s.claimed|)])
  {
    var s1 := Apply(s, t, CallPush(v));
    var s2 := AdvanceThread(s1, t);
    ThreeSteps(s, t, CallPush(v), s1, s2);
    assert AdvanceThread(s2, t).pc == s.pc[t := PushChecked(v, s.write, |s.claimed|)];
  }

  function SwapStorePublish<T>(t: Tid): seq<Event<T>> { [Event(t, Advance), Event(t, Advance), Event(t, Advance)] }

  /** The rest of a push whose index is current again although its ticket is not. */
  lemma StaleClaim(f: State<nat>, t: Tid, v: nat)
    requires t in f.pc && f.pc[t] == PushChecked(v, 0, 0) && |f.data| == 2 && f.pushMode.Multiple? && f.write == f.back == 0
    ensures Runs(f, SwapStorePublish(t))
    ensures var r := Run(f, SwapStorePublish(t));
            && r.claimed == f.claimed + [v] && r.pushed == f.pushed + [v] && r.popped == f.popped
            && r.front == f.front && r.back == 1 && |r.data| == 2
  {
    var go: Event<nat> := Event(t, Advance);
    var s1 := AdvanceThread(f, t);
    var s2 := AdvanceThread(s1, t);
    RunStep(s2, go, []);
    RunStep(s1, go, [go]);
    RunStep(f, go, [go, go]);
    assert [go] + [go] == [go, go];
    assert [go] + [go, go] == SwapStorePublish(t);
  }

  /** The bound is needed for `write_` as well. With two slots, a producer that sleeps between its full test and
      its swap while the ring goes once around claims a slot of a full ring; when it has published, the ring
      holds two values and looks empty. */
  lemma LapOverfills() returns (s: State<nat>, sched: seq<Event<nat>>)
    ensures Init(s) && Runs(s, sched) && !TimelyRun(s, sched)
    ensures var r := Run(s, sched);
            && r.popped == [10] && r.pushed == r.claimed == [10, 20, 30] && |r.claimed| > |r.popped| + |r.data| - 1
            && r.front == r.back
  {
    s := State(Multiple, Multiple, 0, 0, [0, 0], 0, 0, 0, [], [], [], [], map[0 := Idle, 1 := Idle]);
    var start, lap, rest := Refusal(0, CallPush(30)), PushCall(1, 10) + (PopCall(1) + PushCall(1, 20)), SwapStorePublish(0);
    PushUpToSwap(s, 0, 30);
    var a := Run(s, start);
    hide Apply, Run, Runs, Enabled, PushCall, PopCall, Refusal, SwapStorePublish;
    PushPopPush(a, 1);
    var b := Run(a, lap);
    StaleClaim(b, 0, 30);
    RunConcat(a, lap, rest);
    RunConcat(s, start, lap + rest);
    sched := start + (lap + rest);
    BadRunIsLate(s, sched);
  }

  /** A push, a pop and a push, after which the write index of two slots is what it was. */
  lemma PushPopPush(a: State<nat>, t: Tid)
    requires a.pushMode.Multiple? && a.popMode.Multiple? && t in a.pc && a.pc[t].Idle?
    requires |a.data| == 2 && a.front == a.back == a.write == 0 && a.popped == a.pushed == a.claimed == []
    ensures var lap := PushCall(t, 10) + (PopCall(t) + PushCall(t, 20));
            && Runs(a, lap)
            && var r := Run(a, lap);
               && r.popped == [10] && r.pushed == r.claimed == [10, 20] && r.pc == a.pc && |r.data| == 2
               && r.front == 1 && r.write == r.back == 0 && r.pushMode.Multiple?
  {
    hide Apply, Run, Runs, Enabled, PushCall, PopCall;
    PushUncontended(a, t, 10);
    var b := Run(a, PushCall(t, 10));
    PopUncontended(b, t);
    var c := Run(b, PopCall(t));
    PushUncontended(c, t, 20);
    RunConcat(b, PopCall(t), PushCall(t, 20));
    RunConcat(a, PushCall(t, 10), PopCall(t) + PushCall(t, 20));
  }

  // ---------- The ring as a sequence, and the class run by one thread at a time ----------

  function RingLength(front: nat, back: nat, n: nat): nat
    requires front < n && back < n
  {
    if front <= back then back - front else back + n - front
  }

  /** The values between `front_` and `back_`, going around the ring. */
  function Ring<T>(data: seq<T>, front: nat, back: nat): seq<T>
    requires front < |data| && back < |data|
  {
    seq(RingLength(front, back, |data|), i requires 0 <= i < RingLength(front, back, |data|) =>
      data[if front + i < |data| then front + i else front + i - |data|])
  }

  /** The residue of a ticket less than a ring after `f`. */
  lemma ResidueAfter(f: nat, a: nat, n: nat)
    requires n > 0 && f <= a < f + n
    ensures a % n == if f % n + (a - f) < n then f % n + (a - f) else f % n + (a - f) - n
  {
    assert f == (f / n) * n + f % n;
    if f % n + (a - f) < n {
      ModUnique(a, f / n, f % n + (a - f), n);
    } else {
      assert a == (f / n + 1) * n + (f % n + (a - f) - n);
      ModUnique(a, f / n + 1, f % n + (a - f) - n, n);
    }
  }

  /** In every reachable state of the protocol the ring is the published, unpopped values. */
  lemma RingHoldsItems<T>(s: State<T>)
    requires Inv(s)
    ensures Ring(s.data, s.front, s.back) == s.Items()
  {
    var n, f, b := |s.data|, |s.popped|, |s.pushed|;
    InRing(s);
    ResidueAfter(f, b, n);
    hide Inv;
    assert RingLength(s.front, s.back, n) == b - f;
    forall i | 0 <= i < b - f ensures Ring(s.data, s.front, s.back)[i] == s.Items()[i] {
      ResidueAfter(f, f + i, n);
      SlotHolds(s, f + i);
    }
  }

  lemma InRing<T>(s: State<T>)
    requires Inv(s)
    ensures 0 < |s.data| && |s.popped| <= |s.pushed| < |s.popped| + |s.data|
    ensures s.front == |s.popped| % |s.data| && s.back == |s.pushed| % |s.data|
  {
  }

  lemma SlotHolds<T>(s: State<T>, k: nat)
    requires Inv(s) && |s.popped| <= k < |s.pushed|
    ensures s.data[k % |s.data|] == s.pushed[k]
  {
    assert s.data[k % |s.data|] == s.claimed[k];
  }

  lemma SuccIs(slot: nat, n: nat)
    requires slot < n
    ensures Succ(slot, n) == if slot + 1 == n then 0 else slot + 1
  {
  }

  class Queue<T(0)> {
    const capacity: nat
    const pushMode: Mode
    const data: array<T>
    var front: nat
    var back: nat
    var write: nat

    ghost predicate Valid()
      reads this
    {
      && 0 < capacity == data.Length
      && front < capacity && back < capacity
      && (pushMode.Multiple? ==> write == back)
    }

    ghost function Contents(): seq<T>
      requires Valid()
      reads this, data
    {
      Ring(data[..], front, back)
    }

    constructor (capacity: nat, mode: Mode)
      requires capacity > 0
      ensures Valid() && this.capacity == capacity && pushMode == mode && Contents() == [] && fresh(data)
    {
      this.capacity, pushMode := capacity, mode;
      data := new T[capacity];
      front, back, write := 0, 0, 0;
    }

    method MultiplePush(val: T) returns (ok: bool)
      requires Valid() && pushMode.Multiple?
      modifies this`write, this`back, data
      ensures Valid()
      ensures ok == (|old(Contents())| < capacity - 1)
      ensures Contents() == if ok then old(Contents()) + [val] else old(Contents())
    {
      var w := write;
      SuccIs(back, capacity);
      var swapped := false;
      while !swapped
        invariant back == old(back) && data[..] == old(data[..])
        invariant !swapped ==> write == old(write)
        invariant swapped ==> w == old(write) && write == Succ(w, capacity) && write != front
        decreases !swapped
      {
        w := write;
        if (w + 1) % capacity == front { return false; }
        if write == w { write, swapped := (w + 1) % capacity, true; }
      }
      data[w] := val;
      swapped := false;
      while !swapped
        invariant write == Succ(w, capacity) && data[..] == old(data[..])[w := val]
        invariant back == if swapped then Succ(w, capacity) else w
        decreases !swapped
      {
        var expected := w;
        if back == expected { back, swapped := (w + 1) % capacity, true; }
      }
      return true;
    }

    method MultiplePop(fallback: T) returns (ok: bool, val: T)
      requires Valid()
      modifies this`front
      ensures Valid()
      ensures ok == (old(Contents()) != [])
      ensures ok ==> [val] + Contents() == old(Contents())
      ensures !ok ==> Contents() == old(Contents()) && val == fallback
    {
      val := fallback;
      SuccIs(front, capacity);
      var swapped := false;
      while !swapped
        invariant !swapped ==> front == old(front) && val == fallback
        invariant swapped ==> old(front) != back && front == Succ(old(front), capacity) && val == data[old(front)]
        decreases !swapped
      {
        var f := front;
        if f == back { return false, val; }
        val := data[f];
        if front == f { front, swapped := (f + 1) % capacity, true; }
      }
      return true, val;
    }

    method SinglePush(val: T) returns (ok: bool)
      requires Valid() && pushMode.Single?
      modifies this`back, data
      ensures Valid()
      ensures ok == (|old(Contents())| < capacity - 1)
      ensures Contents() == if ok then old(Contents()) + [val] else old(Contents())
    {
      SuccIs(back, capacity);
      var b := back;
      if (b + 1) % capacity == front { return false; }
      data[b] := val;
      back := (b + 1) % capacity;
      return true;
    }

    method SinglePop(fallback: T) returns (ok: bool, val: T)
      requires Valid()
      modifies this`front
      ensures Valid()
      ensures ok == (old(Contents()) != [])
      ensures ok ==> [val] + Contents() == old(Contents())
      ensures !ok ==> Contents() == old(Contents()) && val == fallback
    {
      SuccIs(front, capacity);
      var f := front;
      if f == back { return false, fallback; }
      val := data[f];
      front := (f + 1) % capacity;
      return true, val;
    }
  }
}
