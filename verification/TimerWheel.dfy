/** The timing wheel: a clock of several digits, lowest first, that start at -1, and the slots of the
    lowest digit, from which timers are taken when the clock moves over them. */
module TimerWheel {
  import opened Arithmetic
  import opened Sequences

  // ---------- The clock ----------

  function Power(w: nat, n: nat): (p: nat)
    ensures w > 0 ==> p > 0
  {
    if n == 0 then 1 else w * Power(w, n - 1)
  }

  /** The number the digits spell. */
  function Value(w: nat, steps: seq<int>): int { if steps == [] then 0 else steps[0] + w * Value(w, steps[1..]) }

  predicate InRange(w: nat, steps: seq<int>) { forall i | 0 <= i < |steps| :: -1 <= steps[i] < w }

  /** The remainder as C++ computes it: it has the sign of the dividend. */
  function Rem(a: int, w: nat): int
    requires w > 0
  {
    if a >= 0 then a % w else -((-a) % w)
  }

  /** The digits some ticks later; `carry` comes from the digit below. */
  function Advanced(w: nat, steps: seq<int>, ticks: nat, carry: nat): (r: seq<int>)
    requires w > 0
    ensures |r| == |steps|
  {
    if steps == [] then []
    else
      var sum := steps[0] + ticks % w + carry;
      [Rem(sum, w)] + Advanced(w, steps[1..], ticks / w, if sum > w - 1 then 1 else 0)
  }

  /** What is lost at the highest digit. */
  function Overflow(w: nat, steps: seq<int>, ticks: nat, carry: nat): nat
    requires w > 0
  {
    if steps == [] then ticks + carry
    else Overflow(w, steps[1..], ticks / w, if steps[0] + ticks % w + carry > w - 1 then 1 else 0)
  }

  lemma DigitSum(w: nat, step: int, ticks: nat, carry: nat)
    requires w > 1 && -1 <= step < w && carry <= 1
    ensures var sum := step + ticks % w + carry;
            -1 <= Rem(sum, w) < w && sum == Rem(sum, w) + (if sum > w - 1 then w else 0)
  {
    RemOf(w, step + ticks % w + carry);
  }

  lemma RemOf(w: nat, sum: int)
    requires w > 1 && -1 <= sum < 2 * w
    ensures Rem(sum, w) == if sum > w - 1 then sum - w else sum
  {
    if sum > w - 1 {
      ModAdd(sum - w, w);
      assert (sum - w) + w == sum;
    } else if sum < 0 {
      SmallMod(1, w);
    } else {
      SmallMod(sum, w);
    }
  }

  lemma ModAdd(x: nat, w: nat)
    requires x < w
    ensures (x + w) % w == x
  {
    assert (x + w) / w == 1;
  }

  /** A rotation adds the elapsed ticks to the clock, up to what the highest digit loses; no digit ever leaves
      its range, although the clock starts with every digit at -1. */
  lemma {:induction false} ClockAdds(w: nat, steps: seq<int>, ticks: nat, carry: nat)
    requires w > 1 && InRange(w, steps) && carry <= 1
    ensures var r := Advanced(w, steps, ticks, carry);
            InRange(w, r) &&
            Value(w, r) + Overflow(w, steps, ticks, carry) * Power(w, |steps|) == Value(w, steps) + ticks + carry
    decreases |steps|
  {
    if steps != [] {
      var sum := steps[0] + ticks % w + carry;
      var c := if sum > w - 1 then 1 else 0;
      DigitSum(w, steps[0], ticks, carry);
      ClockAdds(w, steps[1..], ticks / w, c);
      var rest, k := Advanced(w, steps[1..], ticks / w, c), Overflow(w, steps[1..], ticks / w, c);
      var r := Advanced(w, steps, ticks, carry);
      assert r[1..] == rest;
      ValueStep(w, r[0], Value(w, rest), k, Power(w, |steps| - 1), Value(w, steps[1..]), ticks, c);
    }
  }

  lemma ValueStep(w: nat, d: int, v: int, k: nat, p: nat, u: int, ticks: nat, c: nat)
    requires w > 1 && v + k * p == u + ticks / w + c
    ensures d + w * v + k * (w * p) == d + w * c + ticks - ticks % w + w * u
  {
    assert k * (w * p) == w * (k * p);
    assert w * (v + k * p) == w * v + w * (k * p);
    assert w * (u + ticks / w + c) == w * u + w * (ticks / w) + w * c;
  }

  /** Once no digit is -1 the clock counts the ticks modulo its range. */
  lemma ClockCounts(w: nat, steps: seq<int>, ticks: nat)
    requires w > 1 && InRange(w, steps) && forall i | 0 <= i < |steps| :: steps[i] >= 0
    ensures var r := Advanced(w, steps, ticks, 0);
            (forall i | 0 <= i < |r| :: r[i] >= 0) && Value(w, r) == (Value(w, steps) + ticks) % Power(w, |steps|)
  {
    ClockAdds(w, steps, ticks, 0);
    var r := Advanced(w, steps, ticks, 0);
    StaysPositive(w, steps, ticks, 0);
    ValueBelow(w, r);
    var n := Power(w, |steps|);
    ModUnique(Value(w, steps) + ticks, Overflow(w, steps, ticks, 0), Value(w, r), n);
  }

  lemma {:induction false} StaysPositive(w: nat, steps: seq<int>, ticks: nat, carry: nat)
    requires w > 1 && forall i | 0 <= i < |steps| :: steps[i] >= 0
    ensures forall i | 0 <= i < |steps| :: Advanced(w, steps, ticks, carry)[i] >= 0
    decreases |steps|
  {
    if steps != [] {
      StaysPositive(w, steps[1..], ticks / w, if steps[0] + ticks % w + carry > w - 1 then 1 else 0);
    }
  }

  lemma {:induction false} ValueBelow(w: nat, steps: seq<int>)
    requires forall i | 0 <= i < |steps| :: 0 <= steps[i] < w
    ensures 0 <= Value(w, steps) < Power(w, |steps|)
    decreases |steps|
  {
    if steps != [] {
      ValueBelow(w, steps[1..]);
      DigitBelow(w, steps[0], Value(w, steps[1..]), Power(w, |steps| - 1));
    }
  }

  lemma DigitBelow(w: nat, d: int, v: int, p: nat)
    requires 0 <= d < w && 0 <= v < p
    ensures 0 <= d + w * v < w * p
  {
    assert w * v <= w * (p - 1);
  }

  // ---------- The slots of the lowest digit ----------

  type Timer = int

  /** The lowest digit, -1 before the first tick, and the timers in its slots. */
  datatype Layer = Layer(digit: int, slots: seq<seq<Timer>>)

  ghost predicate Ok(l: Layer) { |l.slots| > 1 && -1 <= l.digit < |l.slots| }

  /** The number of the slot for a timer that is due in `r` ticks. */
  function SlotFor(l: Layer, r: nat): int
    requires Ok(l)
  {
    Rem(l.digit + r, |l.slots|)
  }

  /** The slot exists. */
  ghost predicate Placeable(l: Layer, r: nat)
    requires Ok(l)
  {
    0 <= SlotFor(l, r) < |l.slots|
  }

  /** A fresh wheel of two slots and a timer that is due at once: its slot would be number -1. */
  lemma EarlyTimer()
    ensures var l := Layer(-1, [[], []]); Ok(l) && SlotFor(l, 0) == -1 && !Placeable(l, 0)
  {
    SmallMod(1, 2);
  }

  function Place(l: Layer, t: Timer, r: nat): Layer
    requires Ok(l) && Placeable(l, r)
  {
    l.(slots := l.slots[SlotFor(l, r) := l.slots[SlotFor(l, r)] + [t]])
  }

  /** How many ticks after the digit a slot comes. */
  function Offset(l: Layer, j: nat): nat
    requires Ok(l) && j < |l.slots|
  {
    if j >= l.digit then j - l.digit else j + |l.slots| - l.digit
  }

  /** The slots from the digit to the one `ticks` further on, both included. */
  predicate Swept(l: Layer, ticks: nat, j: nat)
    requires Ok(l) && j < |l.slots|
  {
    Offset(l, j) <= ticks
  }

  function Turned(l: Layer, ticks: nat): Layer
    requires Ok(l)
  {
    Layer(Rem(l.digit + ticks, |l.slots|),
          seq(|l.slots|, j requires 0 <= j < |l.slots| => if Swept(l, ticks, j) then [] else l.slots[j]))
  }

  /** Where a timer is: in the slot that comes `r` ticks after the digit, and nowhere else. */
  ghost predicate DueIn(l: Layer, t: Timer, r: nat)
    requires Ok(l)
  {
    forall j | 0 <= j < |l.slots| :: t in l.slots[j] <==> Offset(l, j) == r
  }

  /** What happens to the wheel: another timer is added, due in `r` ticks, or it turns. */
  datatype Event = Add(timer: Timer, r: nat) | Turn(ticks: nat)

  /** What a rotation does to the lowest digit and its slots: whole laps are lost. */
  function Lap(l: Layer, ticks: nat): nat
    requires Ok(l)
  {
    ticks % |l.slots|
  }

  ghost predicate Legal(l: Layer, e: Event, t: Timer)
    requires Ok(l)
  {
    match e case Add(u, r) => u != t && r < |l.slots| && Placeable(l, r) case Turn(_) => true
  }

  function Apply(l: Layer, e: Event): Layer
    requires Ok(l) && (e.Add? ==> Placeable(l, e.r))
  {
    match e case Add(u, r) => Place(l, u, r) case Turn(n) => Turned(l, Lap(l, n))
  }

  /** Every event is legal when it happens. */
  ghost predicate LegalRun(l: Layer, events: seq<Event>, t: Timer)
    requires Ok(l)
    decreases |events|
  {
    events == [] ||
    (Legal(l, events[0], t) && (ApplyOk(l, events[0]); LegalRun(Apply(l, events[0]), events[1..], t)))
  }

  lemma ApplyOk(l: Layer, e: Event)
    requires Ok(l) && (e.Add? ==> Placeable(l, e.r))
    ensures Ok(Apply(l, e)) && |Apply(l, e).slots| == |l.slots|
  {
    if e.Turn? { NewDigit(l.digit, Lap(l, e.ticks), |l.slots|); }
  }

  /** There is a slot for a timer unless the clock has not ticked yet and the timer is due at once: then the
      number of the slot is -1. */
  lemma SlotExists(l: Layer, r: nat)
    requires Ok(l) && r < |l.slots|
    ensures Placeable(l, r) <==> l.digit >= 0 || r >= 1
    ensures !Placeable(l, r) ==> SlotFor(l, r) == -1
  {
    NewDigit(l.digit, r, |l.slots|);
  }

  predicate Takes(l: Layer, e: Event, t: Timer)
    requires Ok(l)
  {
    e.Turn? && exists j | 0 <= j < |l.slots| :: Swept(l, Lap(l, e.ticks), j) && t in l.slots[j]
  }

  lemma PlacedDue(l: Layer, t: Timer, r: nat)
    requires Ok(l) && r < |l.slots| && Placeable(l, r) && forall j | 0 <= j < |l.slots| :: t !in l.slots[j]
    ensures DueIn(Place(l, t, r), t, r)
  {
    var m := Place(l, t, r);
    SlotOffset(l, r);
    forall j | 0 <= j < |l.slots| ensures t in m.slots[j] <==> Offset(m, j) == r {
      if Offset(l, j) == r { SameOffset(l, j, SlotFor(l, r)); }
    }
  }

  lemma SlotOffset(l: Layer, r: nat)
    requires Ok(l) && r < |l.slots| && Placeable(l, r)
    ensures Offset(l, SlotFor(l, r)) == r
  {
    NewDigit(l.digit, r, |l.slots|);
  }

  lemma SameOffset(l: Layer, i: nat, j: nat)
    requires Ok(l) && i < |l.slots| && j < |l.slots| && Offset(l, i) == Offset(l, j)
    ensures i == j
  {
  }

  /** The offset of a slot that is not swept goes down by the ticks. */
  lemma OffsetTurns(l: Layer, ticks: nat, j: nat)
    requires Ok(l) && j < |l.slots| && ticks < |l.slots| && ticks < Offset(l, j)
    ensures Offset(Turned(l, ticks), j) == Offset(l, j) - ticks
  {
    NewDigit(l.digit, ticks, |l.slots|);
    var d := l.digit + ticks;
    assert Turned(l, ticks).digit == if d >= |l.slots| then d - |l.slots| else d;
  }

  /** A rotation takes a timer that is due in `r` ticks exactly if what is left of the rotation after whole laps
      reaches `r`; otherwise the timer is that much nearer. */
  lemma TurnDue(l: Layer, n: nat, t: Timer, r: nat)
    requires Ok(l) && r < |l.slots| && Placeable(l, r) && DueIn(l, t, r)
    ensures var k := Lap(l, n); var m := Apply(l, Turn(n));
            && Ok(m) && |m.slots| == |l.slots|
            && (Takes(l, Turn(n), t) <==> r <= k)
            && (r > k ==> Placeable(m, r - k) && DueIn(m, t, r - k))
  {
    var k := Lap(l, n);
    SlotOffset(l, r);
    ApplyOk(l, Turn(n));
    var s, m := SlotFor(l, r), Turned(l, k);
    assert t in l.slots[s];
    if r <= k {
      assert Swept(l, k, s);
    } else {
      SlotExists(m, r - k);
      forall j | 0 <= j < |m.slots| ensures t in m.slots[j] <==> Offset(m, j) == r - k {
        if Offset(l, j) > k {
          OffsetTurns(l, k, j);
        } else {
          OffsetTurns(l, k, s);
          if Offset(m, j) == r - k { SameOffset(m, j, s); }
        }
      }
    }
  }

  lemma AddDue(l: Layer, u: Timer, q: nat, t: Timer, r: nat)
    requires Ok(l) && Placeable(l, q) && Placeable(l, r) && DueIn(l, t, r) && u != t
    ensures var m := Apply(l, Add(u, q)); Ok(m) && DueIn(m, t, r) && Placeable(m, r) && !Takes(l, Add(u, q), t)
  {
  }

  lemma LapWithin(l: Layer, n: nat)
    requires Ok(l)
    ensures n < |l.slots| ==> Lap(l, n) == n
  {
    if n < |l.slots| { SmallMod(n, |l.slots|); }
  }

  /** A timer that is due is left in the wheel exactly by a rotation of a whole wheel or more whose rest after
      whole laps falls short of it. */
  lemma LateExact(l: Layer, n: nat, t: Timer, r: nat)
    requires Ok(l) && r < |l.slots| && Placeable(l, r) && DueIn(l, t, r)
    ensures r <= n && !Takes(l, Turn(n), t) <==> n >= |l.slots| && n % |l.slots| < r
  {
    TurnDue(l, n, t, r);
    LapWithin(l, n);
  }

  /** Two slots, a timer that is due in one tick, and a rotation by two: it is left in the wheel. */
  lemma LateTimer(t: Timer)
    ensures var l := Layer(0, [[], [t]]); DueIn(l, t, 1) && Ok(l) && !Takes(l, Turn(2), t)
  {
    var l := Layer(0, [[], [t]]);
    assert t in l.slots[1];
    assert SlotFor(l, 1) == 1;
    TurnDue(l, 2, t, 1);
  }

  /** A timer that is due in `r` ticks is taken by the first rotation that brings the ticks since then, whole
      laps of single rotations left out, to `r`, and by none before, whatever other timers are added. */
  lemma {:induction false} FiresOnTime(l: Layer, t: Timer, r: nat, events: seq<Event>)
    requires Ok(l) && r < |l.slots| && Placeable(l, r) && DueIn(l, t, r) && LegalRun(l, events, t)
    ensures Fires(l, t, r, events)
    decreases |events|
  {
    hide DueIn, Placeable, Takes, Apply, Lap;
    if events != [] {
      var e := events[0];
      ApplyOk(l, e);
      match e
      case Add(u, q) =>
        AddDue(l, u, q, t, r);
        FiresOnTime(Apply(l, e), t, r, events[1..]);
      case Turn(n) =>
        TurnDue(l, n, t, r);
        LapWithin(l, n);
        if r > Lap(l, n) { FiresOnTime(Apply(l, e), t, r - Lap(l, n), events[1..]); }
    }
  }

  /** A timer is placed where it fires on time whenever there is a slot for it, before the first tick as well. */
  lemma PlacedFires(l: Layer, t: Timer, r: nat, events: seq<Event>)
    requires Ok(l) && r < |l.slots| && Placeable(l, r) && forall j | 0 <= j < |l.slots| :: t !in l.slots[j]
    requires LegalRun(Place(l, t, r), events, t)
    ensures Fires(Place(l, t, r), t, r, events)
  {
    PlacedDue(l, t, r);
    FiresOnTime(Place(l, t, r), t, r, events);
  }

  /** Event by event until the timer is taken: a rotation takes it exactly if it completes the `r` ticks. A
      rotation by less than a whole wheel counts in full. */
  ghost predicate Fires(l: Layer, t: Timer, r: nat, events: seq<Event>)
    requires Ok(l) && LegalRun(l, events, t)
    decreases |events|
  {
    events == [] ||
    (ApplyOk(l, events[0]);
     match events[0]
     case Add(_, _) => !Takes(l, events[0], t) && Fires(Apply(l, events[0]), t, r, events[1..])
     case Turn(n) =>
       var k := if n < |l.slots| then n else Lap(l, n);
       if r <= k then Takes(l, events[0], t)
       else !Takes(l, events[0], t) && Fires(Apply(l, events[0]), t, r - k, events[1..]))
  }

  // ---------- The wheel as an object ----------

  class TimerWheelManager {
    const wheelSize: nat
    const tickms: nat
    var steps: seq<int>
    /** The slots of the lowest layer; the timers in them run once and are not cancelled. */
    var slots: seq<seq<Timer>>

    ghost predicate Valid()
      reads this
    {
      wheelSize > 1 && tickms > 0 && steps != [] && InRange(wheelSize, steps) && |slots| == wheelSize
    }

    constructor (tickms: nat, wheelSize: nat, layers: nat)
      requires wheelSize > 1 && tickms > 0 && layers > 0
      ensures Valid() && this.wheelSize == wheelSize && |steps| == layers && forall i | 0 <= i < layers :: steps[i] == -1
    {
      this.tickms, this.wheelSize := tickms, wheelSize;
      steps := seq(layers, _ => -1);
      slots := seq(wheelSize, _ => []);
    }

    /** The lowest layer. */
    ghost function Lowest(): Layer
      requires Valid()
      reads this
    {
      Layer(steps[0], slots)
    }

    /** Adds a timer that is due within the lowest layer; before the first tick, not within it. */
    method AddTimer(t: Timer, interval: nat)
      requires Valid() && interval < tickms * wheelSize && (steps[0] >= 0 || interval >= tickms)
      modifies this`slots
      ensures Valid() && interval / tickms < wheelSize
      ensures Placeable(old(Lowest()), interval / tickms) && Lowest() == Place(old(Lowest()), t, interval / tickms)
    {
      WithinWheel(interval, tickms, wheelSize);
      AtLeastOne(interval, tickms);
      SlotExists(Lowest(), interval / tickms);
      var step := Rem(steps[0] + interval / tickms, wheelSize);
      slots := slots[step := slots[step] + [t]];
    }

    /** The digits of the elapsed ticks. */
    method Digits(ticks: nat) returns (ds: array<int>, ghost q: seq<nat>)
      requires Valid()
      ensures fresh(ds) && ds.Length == |steps| && |q| == |steps| + 1 && q[0] == ticks
      ensures forall i | 0 <= i < |steps| :: ds[i] == q[i] % wheelSize && q[i + 1] == q[i] / wheelSize
    {
      ds := new int[|steps|];
      var step := ticks;
      q := [step];
      for i := 0 to |steps|
        invariant |q| == i + 1 && q[0] == ticks && step == q[i]
        invariant forall k | 0 <= k < i :: ds[k] == q[k] % wheelSize && q[k + 1] == q[k] / wheelSize
      {
        DivMod(step, wheelSize);
        ds[i] := step - step / wheelSize * wheelSize;
        step := step / wheelSize;
        q := q + [step];
      }
    }

    /** The digits after a rotation. */
    method AdvanceSteps(ticks: nat) returns (r: seq<int>)
      requires Valid()
      ensures r == Advanced(wheelSize, steps, ticks, 0)
    {
      hide Advanced, Rem;
      var ds, q := Digits(ticks);
      ghost var carry := 0;
      ghost var rest := Advanced(wheelSize, steps, ticks, 0);
      r := [];
      assert steps[0..] == steps && r + rest == rest;
      for i := 0 to |steps|
        invariant |r| == i && ds.Length == |steps| && 0 <= carry <= 1
        invariant forall k | i <= k < |steps| :: ds[k] == q[k] % wheelSize + if k == i then carry else 0
        invariant rest == Advanced(wheelSize, steps[i..], q[i], carry)
        invariant r + rest == Advanced(wheelSize, steps, ticks, 0)
      {
        AdvanceOne(wheelSize, steps, i, q[i], carry);
        ds[i] := ds[i] + steps[i];
        var over := ds[i] > wheelSize - 1;
        if i < |steps| - 1 {
          if over { ds[i + 1] := ds[i + 1] + 1; }
        }
        carry := if over then 1 else 0;
        ds[i] := Rem(ds[i], wheelSize);
        ghost var more := Advanced(wheelSize, steps[i + 1..], q[i + 1], carry);
        Regroup(r, [ds[i]], more);
        r, rest := r + [ds[i]], more;
      }
      assert rest == [] && r + [] == r;
    }

    /** Takes the timers out of the slots that the lowest digit moves over. */
    method PopTimers(first: nat, last: int) returns (timeouts: seq<Timer>)
      requires Valid() && first < wheelSize && last < first + wheelSize
      modifies this`slots
      ensures Valid()
      ensures forall j | 0 <= j < wheelSize :: slots[j] == if Passed(first, last, j, wheelSize) then [] else old(slots)[j]
      ensures forall t :: t in timeouts <==> exists j | 0 <= j < wheelSize :: Passed(first, last, j, wheelSize) && t in old(slots)[j]
    {
      timeouts := [];
      var i := first;
      ghost var was := slots;
      while i <= last
        invariant first <= i && (i <= last + 1 || i == first)
        invariant Valid()
        invariant forall j | 0 <= j < wheelSize :: slots[j] == if Passed(first, i - 1, j, wheelSize) then [] else was[j]
        invariant forall t :: t in timeouts <==> exists j | 0 <= j < wheelSize :: Passed(first, i - 1, j, wheelSize) && t in was[j]
      {
        PassedNext(first, i, wheelSize);
        var j := i % wheelSize;
        assert slots[j] == was[j];
        timeouts := timeouts + slots[j];
        slots := slots[j := []];
        i := i + 1;
      }
    }

    /** A rotation: the clock moves by the elapsed time, and the timers of the slots it moves over are taken. */
    method Rotate(interval: nat) returns (timeouts: seq<Timer>)
      requires Valid()
      modifies this
      ensures Valid() && steps == Advanced(wheelSize, old(steps), interval / tickms, 0)
      ensures Lowest() == Apply(old(Lowest()), Turn(interval / tickms))
      ensures forall t :: t in timeouts <==> Takes(old(Lowest()), Turn(interval / tickms), t)
    {
      var ticks := interval / tickms;
      var next := AdvanceSteps(ticks);
      ClockAdds(wheelSize, steps, ticks, 0);
      var first := if steps[0] < 0 then steps[0] + 1 else steps[0];
      var last := if next[0] < steps[0] then next[0] + wheelSize else next[0];
      timeouts := PopTimers(first, last);
      SweptPassed(old(Lowest()), ticks % wheelSize, next[0]);
      steps := next;
    }
  }

  lemma WithinWheel(x: nat, k: nat, w: nat)
    requires k > 0 && x < k * w
    ensures x / k < w
  {
    var q := x / k;
    assert x == k * q + x % k;
    MultipleAtLeast(q - w, k);
    assert k * q - k * w == (q - w) * k;
  }

  lemma AtLeastOne(x: nat, k: nat)
    requires k > 0
    ensures x / k >= 1 <==> x >= k
  {
    assert x == x / k * k + x % k;
    MultipleAtLeast(x / k, k);
  }

  lemma DivMod(x: nat, w: nat)
    requires w > 0
    ensures x - x / w * w == x % w
  {
  }

  lemma AdvanceOne(w: nat, steps: seq<int>, i: nat, ticks: nat, carry: nat)
    requires w > 0 && i < |steps|
    ensures var sum := steps[i] + ticks % w + carry;
            Advanced(w, steps[i..], ticks, carry) ==
            [Rem(sum, w)] + Advanced(w, steps[i + 1..], ticks / w, if sum > w - 1 then 1 else 0)
  {
    assert steps[i..][0] == steps[i] && steps[i..][1..] == steps[i + 1..];
  }

  /** The slots from `first` to `last`, counted round the wheel. */
  predicate Passed(first: nat, last: int, j: nat, w: nat)
    requires j < w
  {
    (first <= j <= last) || (first <= j + w <= last)
  }

  lemma PassedNext(first: nat, i: nat, w: nat)
    requires w > 0 && first < w && first <= i < first + w
    ensures i % w < w && forall j | 0 <= j < w :: Passed(first, i, j, w) <==> Passed(first, i - 1, j, w) || j == i % w
    ensures !Passed(first, i - 1, i % w, w)
  {
    hide Passed;
    var k := if i >= w then i - w else i;
    if i >= w { ModAdd(k, w); } else { SmallMod(i, w); }
    forall j | 0 <= j < w ensures Passed(first, i, j, w) <==> Passed(first, i - 1, j, w) || j == k {
      PassedOne(first, i, j, w, k);
    }
    PassedOne(first, i, k, w, k);
  }

  lemma PassedOne(first: nat, i: nat, j: nat, w: nat, k: nat)
    requires first < w && first <= i < first + w && j < w && k < w && (i == k || i == k + w)
    ensures Passed(first, i, j, w) <==> Passed(first, i - 1, j, w) || j == k
    ensures !Passed(first, i - 1, k, w)
  {
  }

  lemma SweptPassed(l: Layer, ticks: nat, next: int)
    requires Ok(l) && ticks < |l.slots| && next == Rem(l.digit + ticks, |l.slots|)
    ensures next == Turned(l, ticks).digit
    ensures var first, last := if l.digit < 0 then 0 else l.digit, if next < l.digit then next + |l.slots| else next;
            last < first + |l.slots| && forall j | 0 <= j < |l.slots| :: Swept(l, ticks, j) <==> Passed(first, last, j, |l.slots|)
  {
    NewDigit(l.digit, ticks, |l.slots|);
    var d := l.digit + ticks;
    hide Rem;
    assert Turned(l, ticks).digit == if d >= |l.slots| then d - |l.slots| else d;
  }

  lemma NewDigit(digit: int, ticks: nat, n: nat)
    requires n > 1 && -1 <= digit < n && ticks < n
    ensures var d := digit + ticks;
            ticks % n == ticks && Rem(d, n) == if d >= n then d - n else d
  {
    SmallMod(ticks, n);
    var d := digit + ticks;
    if d < 0 {
      SmallMod(1, n);
    } else if d >= n {
      ModAdd(d - n, n);
      assert (d - n) + n == d;
    } else {
      SmallMod(d, n);
    }
  }

  lemma SmallMod(x: nat, n: nat)
    requires x < n
    ensures x % n == x
  {
  }
}
