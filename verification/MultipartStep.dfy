/** The multipart parser one byte at a time, and the parser object, which reads names, values and data in
    bulk. Callbacks return 0. What the callbacks see is one stream of signals and bytes. */
module MultipartStep {
  import opened Sequences

  datatype State =
    | Preamble | PreambleHy | FirstBoundary
    | FieldStart | Field | ValueStart | Value | ValueCr | HeadersDone
    | Data | DataCr | DataCrLf | DataCrLfHy
    | BoundaryStart | Boundary | BoundaryDone | BoundaryDoneCrLf | BoundaryDoneHyHy
    | Epilogue

  datatype Kind = FieldByte | ValueByte | DataByte
  datatype Signal = BodyBegin | PartBegin | HeadersComplete | PartEnd | BodyEnd
  datatype Event = Byte(kind: Kind, c: char) | Notify(signal: Signal)

  type Log = seq<Event>

  /** The parser between two bytes. */
  datatype Mode = Mode(state: State, index: nat)

  datatype Step = Next(m: Mode, events: Log) | Error

  /** The events of a piece that is reported in one call. */
  function Bytes(kind: Kind, piece: string): Log {
    if piece == [] then [] else [Byte(kind, piece[0])] + Bytes(kind, piece[1..])
  }

  lemma {:induction false} BytesConcat(kind: Kind, a: string, b: string)
    ensures Bytes(kind, a + b) == Bytes(kind, a) + Bytes(kind, b)
  {
    if a == [] {
      assert a + b == b;
    } else {
      assert (a + b)[1..] == a[1..] + b;
      BytesConcat(kind, a[1..], b);
    }
  }

  predicate IsFieldChar(c: char) {
    'a' <= c <= 'z' || 'A' <= c <= 'Z' || '0' <= c <= '9' ||
    c == '!' || c == '#' || c == '$' || c == '%' || c == '&' || c == '\'' || c == '*' || c == '+' ||
    c == '-' || c == '.' || c == '^' || c == '_' || c == '`' || c == '|' || c == '~'
  }

  /** A byte from 128 on never matches: the boundary's plain characters are signed, the byte is not. */
  predicate Matches(boundary: string, index: nat, c: char) {
    index < |boundary| && boundary[index] == c && c as int < 128
  }

  function To(state: State, index: nat): Step { Next(Mode(state, index), []) }

  function Expect(c: char, want: char, state: State, index: nat, events: Log): Step {
    if c == want then Next(Mode(state, index), events) else Error
  }

  function FieldStep(index: nat, c: char): Step {
    if IsFieldChar(c) then Next(Mode(Field, index), [Byte(FieldByte, c)])
    else if c == ':' then To(ValueStart, index)
    else Error
  }

  function ValueStep(index: nat, c: char): Step {
    if c == '\r' then To(ValueCr, index) else Next(Mode(Value, index), [Byte(ValueByte, c)])
  }

  function DataStep(index: nat, c: char): Step {
    if c == '\r' then To(DataCr, index) else Next(Mode(Data, index), [Byte(DataByte, c)])
  }

  /** The byte is not the one the delimiter goes on with: what was held back becomes data, and the byte is
      looked at again. */
  function GiveUp(held: string, index: nat, c: char): Step {
    var d := DataStep(index, c);
    if d.Error? then d else Next(d.m, Bytes(DataByte, held) + d.events)
  }

  function BoundaryDoneStep(index: nat, c: char): Step {
    if c == '\r' then To(BoundaryDoneCrLf, index)
    else if c == '-' then To(BoundaryDoneHyHy, index)
    else Error
  }

  function BoundaryStep(boundary: string, index: nat, c: char): Step {
    if index == |boundary| then BoundaryDoneStep(0, c)
    else if Matches(boundary, index, c) then To(Boundary, index + 1)
    else GiveUp(boundary[..if index < |boundary| then index else |boundary|], index, c)
  }

  function FirstBoundaryStep(boundary: string, index: nat, c: char): Step {
    if index == |boundary| then Expect(c, '\r', FirstBoundary, index + 1, [])
    else if index == |boundary| + 1 then Expect(c, '\n', FieldStart, 0, [Notify(BodyBegin), Notify(PartBegin)])
    else if Matches(boundary, index, c) then To(FirstBoundary, index + 1)
    else Error
  }

  /** What one byte does. */
  function ByteStep(boundary: string, m: Mode, c: char): Step {
    var i := m.index;
    match m.state
    case Preamble => To(if c == '-' then PreambleHy else Preamble, i)
    case PreambleHy => To(if c == '-' then FirstBoundary else Preamble, i)
    case FirstBoundary => FirstBoundaryStep(boundary, i, c)
    case FieldStart => if c == '\r' then To(HeadersDone, i) else FieldStep(i, c)
    case Field => FieldStep(i, c)
    case ValueStart => if c == ' ' || c == '\t' then To(ValueStart, i) else ValueStep(i, c)
    case Value => ValueStep(i, c)
    case ValueCr => Expect(c, '\n', FieldStart, i, [])
    case HeadersDone => Expect(c, '\n', Data, i, [Notify(HeadersComplete)])
    case Data => DataStep(i, c)
    case DataCr => if c == '\n' then To(DataCrLf, i) else GiveUp("\r", i, c)
    case DataCrLf => if c == '-' then To(DataCrLfHy, i) else GiveUp("\r\n", i, c)
    case DataCrLfHy => if c == '-' then To(BoundaryStart, i) else GiveUp("\r\n-", i, c)
    case BoundaryStart => BoundaryStep(boundary, 0, c)
    case Boundary => BoundaryStep(boundary, i, c)
    case BoundaryDone => BoundaryDoneStep(i, c)
    case BoundaryDoneCrLf => Expect(c, '\n', FieldStart, i, [Notify(PartEnd), Notify(PartBegin)])
    case BoundaryDoneHyHy => Expect(c, '-', Epilogue, i, [Notify(PartEnd), Notify(BodyEnd)])
    case Epilogue => To(Epilogue, i)
  }

  /** The fate of some input: taken whole, or wrong at one byte. */
  datatype Outcome = Done(m: Mode, events: Log) | Fault(events: Log, at: nat)

  function After(n: nat, events: Log, r: Outcome): Outcome {
    match r
    case Done(m, e) => Done(m, events + e)
    case Fault(e, at) => Fault(events + e, n + at)
  }

  function Run(boundary: string, m: Mode, data: string): Outcome
    decreases |data|
  {
    if data == [] then Done(m, [])
    else
      match ByteStep(boundary, m, data[0])
      case Error => Fault([], 0)
      case Next(n, events) => After(1, events, Run(boundary, n, data[1..]))
  }

  /** The input may be cut anywhere: the second part goes on where the first ended. */
  lemma {:induction false} RunConcat(boundary: string, m: Mode, a: string, b: string)
    ensures var r := Run(boundary, m, a);
            Run(boundary, m, a + b) == if r.Done? then After(|a|, r.events, Run(boundary, r.m, b)) else r
    decreases |a|
  {
    hide ByteStep;
    if a == [] {
      assert a + b == b;
      AfterNothing(Run(boundary, m, b));
    } else {
      assert (a + b)[1..] == a[1..] + b;
      var s := ByteStep(boundary, m, a[0]);
      if s.Next? {
        RunConcat(boundary, s.m, a[1..], b);
        var r := Run(boundary, s.m, a[1..]);
        if r.Done? { AfterAfter(1, s.events, |a| - 1, r.events, Run(boundary, r.m, b)); }
      }
    }
  }

  lemma AfterNothing(r: Outcome)
    ensures After(0, [], r) == r
  {
    assert [] + r.events == r.events;
  }

  lemma AfterAfter(n: nat, e: Log, k: nat, f: Log, r: Outcome)
    ensures After(n, e, After(k, f, r)) == After(n + k, e + f, r)
  {
    assert e + (f + r.events) == (e + f) + r.events;
  }

  lemma RunOne(boundary: string, m: Mode, c: char)
    ensures var s := ByteStep(boundary, m, c);
            Run(boundary, m, [c]) == if s.Error? then Fault([], 0) else Done(s.m, s.events)
  {
    hide ByteStep;
    var s := ByteStep(boundary, m, c);
    assert [c][1..] == [];
    if s.Next? { assert s.events + [] == s.events; }
  }

  // ---------- The calls ----------

  /** A callback: a piece of a name, a value or data, or a signal. */
  datatype Call = Piece(kind: Kind, text: string) | Signal(signal: Signal)

  /** The calls of one buffer so far; `open` while the last one is a piece whose run is still going on. */
  datatype Seen = Seen(calls: seq<Call>, open: bool)

  /** The bytes a state will still report as data if the delimiter does not go on. */
  function Held(boundary: string, m: Mode): string {
    match m.state
    case DataCr => "\r"
    case DataCrLf => "\r\n"
    case DataCrLfHy => "\r\n-"
    case Boundary => boundary[..if m.index < |boundary| then m.index else |boundary|]
    case _ => ""
  }

  /** The delimiter that has begun does not go on with this byte. */
  predicate GivesUp(boundary: string, m: Mode, c: char) {
    match m.state
    case DataCr => c != '\n'
    case DataCrLf => c != '-'
    case DataCrLfHy => c != '-'
    case BoundaryStart => boundary != [] && !Matches(boundary, 0, c)
    case Boundary => m.index != |boundary| && !Matches(boundary, m.index, c)
    case _ => false
  }

  predicate Running(state: State) { state == Field || state == Value || state == Data }

  function RunKind(state: State): Kind { if state == Field then FieldByte else if state == Value then ValueByte else DataByte }

  function SignalsOf(events: Log): seq<Call> {
    if events == [] then []
    else (if events[0].Notify? then [Call.Signal(events[0].signal)] else []) + SignalsOf(events[1..])
  }

  /** What one byte adds to the calls: what was held back is reported in a call of its own, and a byte that
      belongs to a name, a value or data goes to the piece of its run. */
  function See(s: Seen, boundary: string, m: Mode, c: char): Seen {
    var step := ByteStep(boundary, m, c);
    if step.Error? then s.(open := false)
    else
      var gives := GivesUp(boundary, m, c);
      var calls := if gives then s.calls + [Piece(DataByte, Held(boundary, m))] else s.calls;
      if Running(step.m.state) && m.state != HeadersDone then
        if s.open && !gives then Seen(Extended(calls, c), true)
        else Seen(calls + [Piece(RunKind(step.m.state), [c])], true)
      else Seen(if gives then calls else calls + SignalsOf(step.events), false)
  }

  /** The last piece is a byte longer. */
  function Extended(calls: seq<Call>, c: char): seq<Call> {
    if calls == [] || calls[|calls| - 1].Signal? then calls
    else
      var last := calls[|calls| - 1];
      calls[..|calls| - 1] + [Piece(last.kind, last.text + [c])]
  }

  function SeeAll(s: Seen, boundary: string, m: Mode, data: string): Seen
    decreases |data|
  {
    if data == [] then s
    else
      var step := ByteStep(boundary, m, data[0]);
      var next := See(s, boundary, m, data[0]);
      if step.Error? then next else SeeAll(next, boundary, step.m, data[1..])
  }

  lemma {:induction false} SeeConcat(s: Seen, boundary: string, m: Mode, a: string, b: string)
    ensures var r := Run(boundary, m, a);
            SeeAll(s, boundary, m, a + b) ==
            if r.Done? then SeeAll(SeeAll(s, boundary, m, a), boundary, r.m, b) else SeeAll(s, boundary, m, a)
    decreases |a|
  {
    hide ByteStep, See;
    if a == [] {
      assert a + b == b;
    } else {
      assert (a + b)[1..] == a[1..] + b;
      var step := ByteStep(boundary, m, a[0]);
      if step.Next? { SeeConcat(See(s, boundary, m, a[0]), boundary, step.m, a[1..], b); }
    }
  }

  lemma SeeOne(s: Seen, boundary: string, m: Mode, c: char)
    ensures SeeAll(s, boundary, m, [c]) == See(s, boundary, m, c)
  {
    hide ByteStep, See;
    assert [c][1..] == [];
  }

  function CallEvents(call: Call): Log {
    match call case Piece(kind, text) => Bytes(kind, text) case Signal(signal) => [Notify(signal)]
  }

  /** What the calls report, byte by byte. */
  function Flat(calls: seq<Call>): Log {
    if calls == [] then [] else Flat(calls[..|calls| - 1]) + CallEvents(calls[|calls| - 1])
  }

  lemma FlatSnoc(calls: seq<Call>, call: Call)
    ensures Flat(calls + [call]) == Flat(calls) + CallEvents(call)
  {
    assert (calls + [call])[..|calls|] == calls;
  }

  /** An open piece belongs to the run of the state. */
  ghost predicate OpenOk(s: Seen, m: Mode) {
    s.open ==> Running(m.state) && s.calls != [] && s.calls[|s.calls| - 1].Piece? && s.calls[|s.calls| - 1].kind == RunKind(m.state)
  }

  lemma FlatExtended(calls: seq<Call>, c: char)
    requires calls != [] && calls[|calls| - 1].Piece?
    ensures Flat(Extended(calls, c)) == Flat(calls) + [Byte(calls[|calls| - 1].kind, c)]
  {
    hide Flat, Bytes;
    var init, last := calls[..|calls| - 1], calls[|calls| - 1];
    FlatSnoc(init, Piece(last.kind, last.text + [c]));
    FlatSnoc(init, last);
    assert init + [last] == calls;
    BytesConcat(last.kind, last.text, [c]);
    OneByteOf(last.kind, c);
    Regroup(Flat(init), Bytes(last.kind, last.text), [Byte(last.kind, c)]);
  }

  lemma {:induction false} FlatSignals(calls: seq<Call>, events: Log)
    requires forall i | 0 <= i < |events| :: events[i].Notify?
    ensures Flat(calls + SignalsOf(events)) == Flat(calls) + events
    decreases |events|
  {
    if events == [] {
      assert calls + SignalsOf(events) == calls;
    } else {
      var first := Call.Signal(events[0].signal);
      FlatSnoc(calls, first);
      FlatSignals(calls + [first], events[1..]);
      assert SignalsOf(events) == [first] + SignalsOf(events[1..]);
      hide Flat, SignalsOf;
      Regroup(calls, [first], SignalsOf(events[1..]));
      Regroup(Flat(calls), [events[0]], events[1..]);
      assert events == [events[0]] + events[1..];
    }
  }

  /** The events of a byte: what was held back, the byte of a run, or signals. */
  lemma StepEvents(boundary: string, m: Mode, c: char)
    ensures var step := ByteStep(boundary, m, c);
            step.Next? ==>
              var held := if GivesUp(boundary, m, c) then Bytes(DataByte, Held(boundary, m)) else [];
              if Running(step.m.state) && m.state != HeadersDone then step.events == held + [Byte(RunKind(step.m.state), c)]
              else if GivesUp(boundary, m, c) then step.events == held
              else forall i | 0 <= i < |step.events| :: step.events[i].Notify?
    ensures var step := ByteStep(boundary, m, c);
            step.Next? && Running(m.state) && Running(step.m.state) ==> step.m.state == m.state
  {
    hide Bytes;
    if GivesUp(boundary, m, c) {
      GivenUp(boundary, m, c);
      var held := Bytes(DataByte, Held(boundary, m));
      assert held + [] == held;
    }
  }

  lemma GivenUp(boundary: string, m: Mode, c: char)
    requires GivesUp(boundary, m, c)
    ensures ByteStep(boundary, m, c) == GiveUp(Held(boundary, m), if m.state == BoundaryStart then 0 else m.index, c)
  {
    hide Bytes, GiveUp, Matches;
  }

  lemma SeeFlat(s: Seen, boundary: string, m: Mode, c: char)
    requires OpenOk(s, m)
    ensures var step, t := ByteStep(boundary, m, c), See(s, boundary, m, c);
            step.Next? ==> OpenOk(t, step.m) && Flat(t.calls) == Flat(s.calls) + step.events
    ensures ByteStep(boundary, m, c).Error? ==> See(s, boundary, m, c).calls == s.calls
  {
    hide ByteStep, Bytes, Flat, Held;
    StepEvents(boundary, m, c);
    var step := ByteStep(boundary, m, c);
    if step.Next? {
      var held := Piece(DataByte, Held(boundary, m));
      var gives := GivesUp(boundary, m, c);
      var calls := if gives then s.calls + [held] else s.calls;
      FlatSnoc(s.calls, held);
      if Running(step.m.state) && m.state != HeadersDone {
        var kind := RunKind(step.m.state);
        FlatSnoc(calls, Piece(kind, [c]));
        assert Bytes(kind, [c]) == [Byte(kind, c)] by { OneByteOf(kind, c); }
        if s.open && !gives { FlatExtended(calls, c); }
        assert Flat(s.calls) + ([] + [Byte(kind, c)]) == Flat(s.calls) + [Byte(kind, c)];
        assert Flat(s.calls) + (CallEvents(held) + [Byte(kind, c)]) == Flat(s.calls) + CallEvents(held) + [Byte(kind, c)];
      } else if !gives {
        FlatSignals(s.calls, step.events);
      }
    }
  }

  lemma OneByteOf(kind: Kind, c: char)
    ensures Bytes(kind, [c]) == [Byte(kind, c)]
  {
    assert [c][1..] == [];
  }

  /** The calls of a buffer report what its bytes mean one by one. */
  lemma {:induction false} CallsReport(s: Seen, boundary: string, m: Mode, data: string)
    requires OpenOk(s, m)
    ensures Flat(SeeAll(s, boundary, m, data).calls) == Flat(s.calls) + Run(boundary, m, data).events
    decreases |data|
  {
    hide ByteStep, See, Flat, OpenOk;
    if data == [] {
      assert Flat(s.calls) + [] == Flat(s.calls);
    } else {
      SeeFlat(s, boundary, m, data[0]);
      var step := ByteStep(boundary, m, data[0]);
      if step.Error? {
        assert Flat(s.calls) + [] == Flat(s.calls);
      } else {
        CallsReport(See(s, boundary, m, data[0]), boundary, step.m, data[1..]);
        var rest := Run(boundary, step.m, data[1..]).events;
        assert Flat(s.calls) + step.events + rest == Flat(s.calls) + (step.events + rest);
      }
    }
  }

  // ---------- The parser object ----------

  const BOUNDARY_SIZE: nat := 70

  /** Where the indices of a parser that started with `Init` can be. */
  ghost predicate IndexOk(boundary: string, m: Mode) {
    && (m.state == FirstBoundary || m.state == Preamble || m.state == PreambleHy ==> m.index <= |boundary| + 1)
    && (m.state == Boundary ==> m.index <= |boundary|)
  }

  /** A boundary as the parser stores it: shorter than its buffer and ended by the first 0 byte. */
  ghost predicate Storable(boundary: string) {
    |boundary| < BOUNDARY_SIZE && forall i | 0 <= i < |boundary| :: boundary[i] != 0 as char
  }

  class Parser {
    var boundary: string
    var state: State
    var index: nat
    /** The callbacks that have been called. */
    var calls: seq<Call>

    ghost predicate Valid()
      reads this
    {
      IndexOk(boundary, View())
    }

    function View(): Mode
      reads this
    {
      Mode(state, index)
    }

    constructor (boundary: string)
      requires Storable(boundary)
      ensures Valid() && View() == Mode(Preamble, 0) && this.boundary == boundary && calls == []
    {
      this.boundary, state, index, calls := boundary, Preamble, 0, [];
    }

    method CallbackData(kind: Kind, piece: string)
      modifies this`calls
      ensures calls == old(calls) + [Piece(kind, piece)]
    {
      calls := calls + [Piece(kind, piece)];
    }

    method CallbackNotify(signal: Signal)
      modifies this`calls
      ensures calls == old(calls) + [Call.Signal(signal)]
    {
      calls := calls + [Call.Signal(signal)];
    }

    /** The end of a run of name bytes; `c` is the last byte looked at. */
    method ScanField(data: string, start: nat) returns (p: nat, c: char)
      requires start < |data|
      ensures start <= p <= |data| && forall i | start <= i < p :: IsFieldChar(data[i])
      ensures p < |data| ==> c == data[p] && !IsFieldChar(c)
    {
      p, c := start, data[start];
      while p != |data|
        invariant start <= p <= |data| && forall i | start <= i < p :: IsFieldChar(data[i])
      {
        c := data[p];
        if !IsFieldChar(c) { break; }
        p := p + 1;
      }
    }

    /** The end of a run of bytes without CR. */
    method ScanToCr(data: string, start: nat) returns (p: nat)
      requires start < |data|
      ensures start <= p <= |data| && (forall i | start <= i < p :: data[i] != '\r') && (p < |data| ==> data[p] == '\r')
    {
      p := start;
      while p != |data|
        invariant start <= p <= |data| && forall i | start <= i < p :: data[i] != '\r'
      {
        if data[p] == '\r' { break; }
        p := p + 1;
      }
    }

    /** The states that read a name: the whole run is reported at once. */
    method RunField(data: string, start: nat) returns (p: nat, ok: bool)
      requires Valid() && start < |data| && state == Field
      modifies this`state, this`calls
      ensures Valid() && Took(boundary, old(View()), old(calls), View(), calls, data, start, p, ok)
    {
      hide Run, SeeAll, See;
      var c;
      p, c := ScanField(data, start);
      FieldPiece(boundary, index, data[start..p]);
      PieceSeen(calls, boundary, View(), data[start..p]);
      LastByte(boundary, View(), Bytes(FieldByte, data[start..p]), data, start, p, calls);
      if p > start { CallbackData(FieldByte, data[start..p]); }
      if p == |data| { return p, true; }
      ok := c == ':';
      if ok { state := ValueStart; }
    }

    /** The states that read a value. */
    method RunValue(data: string, start: nat) returns (p: nat)
      requires Valid() && start < |data| && state == Value
      modifies this`state, this`calls
      ensures Valid() && Took(boundary, old(View()), old(calls), View(), calls, data, start, p, true)
    {
      hide Run, SeeAll, See;
      p := ScanToCr(data, start);
      ValuePiece(boundary, index, data[start..p]);
      PieceSeen(calls, boundary, View(), data[start..p]);
      LastByte(boundary, View(), Bytes(ValueByte, data[start..p]), data, start, p, calls);
      if p < |data| { state := ValueCr; }
      if p > start { CallbackData(ValueByte, data[start..p]); }
    }

    /** The state that reads data. */
    method RunData(data: string, start: nat) returns (p: nat)
      requires Valid() && start < |data| && state == Data
      modifies this`state, this`calls
      ensures Valid() && Took(boundary, old(View()), old(calls), View(), calls, data, start, p, true)
    {
      hide Run, SeeAll, See;
      p := ScanToCr(data, start);
      DataPiece(boundary, index, data[start..p]);
      PieceSeen(calls, boundary, View(), data[start..p]);
      LastByte(boundary, View(), Bytes(DataByte, data[start..p]), data, start, p, calls);
      if p < |data| { state := DataCr; }
      if p > start { CallbackData(DataByte, data[start..p]); }
    }

    /** Reports bytes that were held back and looks at the byte again as data. */
    method Reexecute(held: string, data: string, start: nat) returns (p: nat)
      requires Valid() && start < |data|
      requires state != BoundaryStart && GivesUp(boundary, View(), data[start]) && held == Held(boundary, View())
      modifies this`state, this`calls
      ensures Valid() && Took(boundary, old(View()), old(calls), View(), calls, data, start, p, true)
    {
      hide ByteStep, Run, Took, IndexOk, GivesUp, Held;
      ghost var m, before := View(), calls;
      CallbackData(DataByte, held);
      state := Data;
      StateOk(boundary, Data, index);
      p := RunData(data, start);
      HeldBack(boundary, m, before, View(), calls, data, start, p);
    }

    /** The first boundary and the bytes around it. */
    method PassFirstBoundary(c: char) returns (ok: bool)
      requires Valid() && state == FirstBoundary
      modifies this
      ensures Valid() && boundary == old(boundary)
      ensures var s := ByteStep(boundary, old(View()), c);
              ok == s.Next? && (ok ==> View() == s.m && calls == old(calls) + SignalsOf(s.events))
      ensures !ok ==> calls == old(calls)
    {
      if index == |boundary| {
        if c != '\r' { return false; }
        index := index + 1;
        return true;
      }
      if index == |boundary| + 1 {
        if c != '\n' { return false; }
        CallbackNotify(BodyBegin);
        CallbackNotify(PartBegin);
        index := 0;
        state := FieldStart;
        return true;
      }
      ok := Matches(boundary, index, c);
      if ok { index := index + 1; }
    }

    /** The states in which a byte only moves the parser on, or is wrong. */
    method PassByte(c: char) returns (ok: bool)
      requires Valid() && SingleByte(View(), c)
      modifies this
      ensures Valid() && boundary == old(boundary)
      ensures var s := ByteStep(boundary, old(View()), c);
              ok == s.Next? && (ok ==> View() == s.m && calls == old(calls) + SignalsOf(s.events))
      ensures !ok ==> calls == old(calls)
    {
      ok := true;
      match state {
        case Preamble => if c == '-' { state := PreambleHy; }
        case PreambleHy => state := if c == '-' then FirstBoundary else Preamble;
        case FirstBoundary => ok := PassFirstBoundary(c);
        case FieldStart => state := HeadersDone;
        case ValueStart =>
        case ValueCr =>
          ok := c == '\n';
          if ok { state := FieldStart; }
        case HeadersDone =>
          ok := c == '\n';
          if ok {
            CallbackNotify(HeadersComplete);
            state := Data;
          }
        case DataCr => state := DataCrLf;
        case DataCrLf => state := DataCrLfHy;
        case DataCrLfHy => state := BoundaryStart;
        case BoundaryDone => ok := PassBoundaryDone(c);
        case BoundaryDoneCrLf =>
          ok := c == '\n';
          if ok {
            CallbackNotify(PartEnd);
            CallbackNotify(PartBegin);
            state := FieldStart;
          }
        case BoundaryDoneHyHy =>
          ok := c == '-';
          if ok {
            CallbackNotify(PartEnd);
            CallbackNotify(BodyEnd);
            state := Epilogue;
          }
        case _ =>
      }
    }

    method PassBoundaryDone(c: char) returns (ok: bool)
      modifies this`state
      ensures var s := BoundaryDoneStep(index, c);
              ok == s.Next? && (if ok then View() == s.m && s.events == [] else state == old(state))
    {
      ok := c == '\r' || c == '-';
      if c == '\r' { state := BoundaryDoneCrLf; }
      if c == '-' { state := BoundaryDoneHyHy; }
    }

    /** The states inside a delimiter that is being matched. */
    method PassBoundary(data: string, start: nat) returns (p: nat, ok: bool)
      requires Valid() && start < |data| && (state == BoundaryStart || state == Boundary)
      modifies this
      ensures Valid() && boundary == old(boundary)
      ensures Took(boundary, old(View()), old(calls), View(), calls, data, start, p, ok)
    {
      hide Run;
      var c := data[start];
      ghost var m := View();
      p, ok := start, true;
      if state == BoundaryStart {
        index := 0;
        state := Boundary;
      }
      if index == |boundary| {
        index := 0;
        state := BoundaryDone;
        ok := PassBoundaryDone(c);
        OneByte(boundary, m, calls, View(), calls, data, start, ok);
      } else if Matches(boundary, index, c) {
        index := index + 1;
        OneByte(boundary, m, calls, View(), calls, data, start, ok);
      } else {
        ghost var before, m' := calls, View();
        SameByte(boundary, m, m', data, start);
        p := Reexecute(boundary[..index], data, start);
        SameTook(boundary, m, m', before, View(), calls, data, start, p, true);
      }
    }

    /** One pass of the loop. */
    method Pass(data: string, start: nat) returns (p: nat, ok: bool)
      requires Valid() && start < |data|
      modifies this
      ensures Valid() && boundary == old(boundary)
      ensures Took(boundary, old(View()), old(calls), View(), calls, data, start, p, ok)
    {
      hide Run, Took, IndexOk, BoundaryStep;
      var c := data[start];
      ghost var m, before := View(), calls;
      if state == BoundaryStart || state == Boundary {
        p, ok := PassBoundary(data, start);
      } else if SingleByte(View(), c) {
        p := start;
        ok := PassByte(c);
        OneByte(boundary, m, before, View(), calls, data, start, ok);
      } else if state == FieldStart || state == Field {
        state := Field;
        StateOk(boundary, Field, index);
        SameByte(boundary, m, View(), data, start);
        p, ok := RunField(data, start);
        SameTook(boundary, m, Mode(Field, m.index), before, View(), calls, data, start, p, ok);
      } else if state == ValueStart || state == Value {
        state := Value;
        StateOk(boundary, Value, index);
        SameByte(boundary, m, View(), data, start);
        p := RunValue(data, start);
        ok := true;
        SameTook(boundary, m, Mode(Value, m.index), before, View(), calls, data, start, p, true);
      } else if state == Data {
        p := RunData(data, start);
        ok := true;
      } else {
        p := Reexecute(if state == DataCr then "\r" else if state == DataCrLf then "\r\n" else "\r\n-", data, start);
        ok := true;
      }
    }

    /** The parser as it is called: the whole input is taken, or the position of the wrong byte is returned;
        the callbacks are called with the pieces that the bytes make, and report what the bytes mean one by one. */
    method Execute(data: string) returns (n: nat)
      requires Valid()
      modifies this
      ensures Valid() && boundary == old(boundary)
      ensures calls == SeeAll(Seen(old(calls), false), boundary, old(View()), data).calls
      ensures Flat(calls) == Flat(old(calls)) + Run(boundary, old(View()), data).events
      ensures match Run(boundary, old(View()), data)
              case Done(m, _) => n == |data| && View() == m
              case Fault(_, at) => n == at < |data|
    {
      hide Run, IndexOk, SeeAll, Flat, See;
      ghost var m := View();
      ghost var s := Seen(calls, false);
      CallsReport(s, boundary, m, data);
      var p := 0;
      NoneTaken(boundary, m, data, s);
      while p < |data|
        invariant Valid() && boundary == old(boundary) && 0 <= p
        invariant var k := if p < |data| then p else |data|;
                  var r, t := Run(boundary, m, data[..k]), SeeAll(s, boundary, m, data[..k]);
                  r.Done? && r.m == View() && t.calls == calls && (p < |data| ==> !t.open)
        decreases |data| - p
      {
        ghost var v, before := View(), calls;
        var q, ok := Pass(data, p);
        Joined(boundary, m, v, s, before, View(), calls, data, p, q, ok);
        if !ok { return q; }
        p := q + 1;
      }
      assert data[..|data|] == data;
      n := |data|;
    }
  }

  /** The pairs of state and byte that have no loop and do not look at the byte twice. */
  predicate SingleByte(m: Mode, c: char) {
    match m.state
    case FieldStart => c == '\r'
    case Field => false
    case ValueStart => c == ' ' || c == '\t'
    case Value => false
    case Data => false
    case DataCr => c == '\n'
    case DataCrLf => c == '-'
    case DataCrLfHy => c == '-'
    case BoundaryStart => false
    case Boundary => false
    case _ => true
  }

  lemma OneByte(boundary: string, m: Mode, calls: seq<Call>, m': Mode, calls': seq<Call>, data: string, p: nat, ok: bool)
    requires p < |data| && !GivesUp(boundary, m, data[p])
    requires var s := ByteStep(boundary, m, data[p]);
             ok == s.Next? && if ok then m' == s.m && calls' == calls + SignalsOf(s.events) else calls' == calls
    requires var s := ByteStep(boundary, m, data[p]); s.Next? ==> !Running(s.m.state) || m.state == HeadersDone
    ensures Took(boundary, m, calls, m', calls', data, p, p, ok)
  {
    hide ByteStep, Run, SeeAll, GivesUp;
    assert data[p..p + 1] == [data[p]];
    RunOne(boundary, m, data[p]);
    SeeOne(Seen(calls, false), boundary, m, data[p]);
  }

  /** Two modes that do the same with the byte when no piece is open. */
  ghost predicate SameStep(boundary: string, m: Mode, k: Mode, c: char) {
    ByteStep(boundary, m, c) == ByteStep(boundary, k, c) && Held(boundary, m) == Held(boundary, k) &&
    GivesUp(boundary, m, c) == GivesUp(boundary, k, c) && m.state != HeadersDone && k.state != HeadersDone
  }

  lemma SameByte(boundary: string, m: Mode, k: Mode, data: string, p: nat)
    requires p < |data| && if m.state == BoundaryStart then k == Mode(Boundary, 0) else m.index == k.index
    requires m == k || !SingleByte(m, data[p])
    requires k.state == Field ==> m.state == FieldStart || m == k
    requires k.state == Value ==> m.state == ValueStart || m == k
    requires k.state == Field || k.state == Value || k.state == Boundary
    requires k.state == Boundary ==> m.state == BoundaryStart || m == k
    ensures SameStep(boundary, m, k, data[p])
  {
  }

  lemma SameTook(boundary: string, m: Mode, k: Mode, calls: seq<Call>, m': Mode, calls': seq<Call>, data: string, p: nat, q: nat, ok: bool)
    requires p < |data| && Took(boundary, k, calls, m', calls', data, p, q, ok) && SameStep(boundary, m, k, data[p])
    ensures Took(boundary, m, calls, m', calls', data, p, q, ok)
  {
    hide ByteStep, GivesUp, Held;
    var end := if q < |data| then q + 1 else q;
    var s := Seen(calls, false);
    assert data[p..end] != [] && data[p..end][0] == data[p];
    assert See(s, boundary, m, data[p]) == See(s, boundary, k, data[p]);
  }

  lemma NoneTaken(boundary: string, m: Mode, data: string, s: Seen)
    ensures Run(boundary, m, data[..0]) == Done(m, []) && SeeAll(s, boundary, m, data[..0]) == s
  {
  }

  /** A pass joined to the passes before it. */
  lemma Joined(boundary: string, m: Mode, v: Mode, s: Seen, calls: seq<Call>, v': Mode, calls': seq<Call>, data: string, p: nat, q: nat, ok: bool)
    requires p < |data| && Took(boundary, v, calls, v', calls', data, p, q, ok)
    requires var r := Run(boundary, m, data[..p]); r.Done? && r.m == v
    requires SeeAll(s, boundary, m, data[..p]) == Seen(calls, false)
    ensures var end := if q < |data| then q + 1 else q;
            var r, t := Run(boundary, m, data[..end]), SeeAll(s, boundary, m, data[..end]);
            ok ==> r.Done? && r.m == v' && t.calls == calls' && (q < |data| ==> !t.open)
    ensures var r := Run(boundary, m, data);
            !ok ==> r.Fault? && r.at == q && SeeAll(s, boundary, m, data).calls == calls'
  {
    hide Run, SeeAll;
    var end := if q < |data| then q + 1 else q;
    assert data[..end] == data[..p] + data[p..end];
    RunConcat(boundary, m, data[..p], data[p..end]);
    SeeConcat(s, boundary, m, data[..p], data[p..end]);
    assert data == data[..end] + data[end..];
    RunConcat(boundary, m, data[..end], data[end..]);
    SeeConcat(s, boundary, m, data[..end], data[end..]);
  }

  /** What one pass of the loop leaves behind: it took the bytes from `p` to `q`, or, without `ok`, it
      stopped at the wrong byte `q`. No piece goes on after it. */
  ghost predicate Took(boundary: string, m: Mode, calls: seq<Call>, m': Mode, calls': seq<Call>, data: string, p: nat, q: nat, ok: bool) {
    && p <= q <= |data| && p < |data| && (q < |data| || ok)
    && var end := if q < |data| then q + 1 else q;
       var r, s := Run(boundary, m, data[p..end]), SeeAll(Seen(calls, false), boundary, m, data[p..end]);
       && calls' == s.calls && (q < |data| ==> !s.open)
       && if ok then r.Done? && r.m == m' else r.Fault? && r.at == q - p
  }

  lemma StateOk(boundary: string, state: State, index: nat)
    requires state == Field || state == Value || state == Data
    ensures IndexOk(boundary, Mode(state, index))
  {
  }

  lemma {:induction false} FieldPiece(boundary: string, i: nat, piece: string)
    requires forall k | 0 <= k < |piece| :: IsFieldChar(piece[k])
    ensures Run(boundary, Mode(Field, i), piece) == Done(Mode(Field, i), Bytes(FieldByte, piece))
    decreases |piece|
  {
    if piece != [] { FieldPiece(boundary, i, piece[1..]); }
  }

  lemma {:induction false} ValuePiece(boundary: string, i: nat, piece: string)
    requires forall k | 0 <= k < |piece| :: piece[k] != '\r'
    ensures Run(boundary, Mode(Value, i), piece) == Done(Mode(Value, i), Bytes(ValueByte, piece))
    decreases |piece|
  {
    if piece != [] { ValuePiece(boundary, i, piece[1..]); }
  }

  lemma {:induction false} DataPiece(boundary: string, i: nat, piece: string)
    requires forall k | 0 <= k < |piece| :: piece[k] != '\r'
    ensures Run(boundary, Mode(Data, i), piece) == Done(Mode(Data, i), Bytes(DataByte, piece))
    decreases |piece|
  {
    if piece != [] { DataPiece(boundary, i, piece[1..]); }
  }

  /** The bytes of a run make one piece. */
  lemma PieceSeen(calls: seq<Call>, boundary: string, m: Mode, piece: string)
    requires Running(m.state) && forall k | 0 <= k < |piece| :: InRun(boundary, m, piece[k])
    ensures SeeAll(Seen(calls, false), boundary, m, piece) == WithPiece(calls, RunKind(m.state), piece)
  {
    if piece != [] {
      hide SeeAll;
      var c := piece[0];
      SeeOne(Seen(calls, false), boundary, m, c);
      RunOne(boundary, m, c);
      SeeConcat(Seen(calls, false), boundary, m, [c], piece[1..]);
      assert [c] + piece[1..] == piece;
      PieceGrows(calls, boundary, m, [c], piece[1..]);
    }
  }

  /** The byte goes on with the run of the state. */
  ghost predicate InRun(boundary: string, m: Mode, c: char) {
    ByteStep(boundary, m, c) == Next(m, [Byte(RunKind(m.state), c)])
  }

  function WithPiece(calls: seq<Call>, kind: Kind, piece: string): Seen {
    if piece == [] then Seen(calls, false) else Seen(calls + [Piece(kind, piece)], true)
  }

  lemma {:induction false} PieceGrows(calls: seq<Call>, boundary: string, m: Mode, piece: string, more: string)
    requires Running(m.state) && piece != [] && forall k | 0 <= k < |more| :: InRun(boundary, m, more[k])
    ensures SeeAll(WithPiece(calls, RunKind(m.state), piece), boundary, m, more) == WithPiece(calls, RunKind(m.state), piece + more)
    decreases |more|
  {
    if more == [] {
      assert piece + more == piece;
    } else {
      assert InRun(boundary, m, more[0]);
      assert ByteStep(boundary, m, more[0]).Next? && ByteStep(boundary, m, more[0]).m == m;
      hide ByteStep, See, WithPiece, SeeAll, Run, InRun;
      var s := WithPiece(calls, RunKind(m.state), piece);
      OneMore(calls, boundary, m, piece, more[0]);
      SeeOne(s, boundary, m, more[0]);
      RunOne(boundary, m, more[0]);
      SeeConcat(s, boundary, m, [more[0]], more[1..]);
      PieceGrows(calls, boundary, m, piece + [more[0]], more[1..]);
      assert [more[0]] + more[1..] == more;
      Regroup(piece, [more[0]], more[1..]);
    }
  }

  lemma OneMore(calls: seq<Call>, boundary: string, m: Mode, piece: string, c: char)
    requires Running(m.state) && piece != [] && InRun(boundary, m, c)
    ensures See(WithPiece(calls, RunKind(m.state), piece), boundary, m, c) == WithPiece(calls, RunKind(m.state), piece + [c])
  {
    hide ByteStep, GivesUp;
    NeverGivesUp(boundary, m, c);
    var s := WithPiece(calls, RunKind(m.state), piece);
    assert s.calls[..|s.calls| - 1] == calls;
  }

  /** A run of bytes and the byte that ends it, if there is one. */
  lemma LastByte(boundary: string, m: Mode, events: Log, data: string, p: nat, q: nat, calls: seq<Call>)
    requires p <= q <= |data| && Running(m.state) && Run(boundary, m, data[p..q]) == Done(m, events)
    requires SeeAll(Seen(calls, false), boundary, m, data[p..q]) == WithPiece(calls, RunKind(m.state), data[p..q])
    ensures q < |data| ==>
              var s := ByteStep(boundary, m, data[q]);
              s.Error? || (s.events == [] && !Running(s.m.state)) ==>
                && Run(boundary, m, data[p..q + 1]) == (if s.Error? then Fault(events, q - p) else Done(s.m, events))
                && SeeAll(Seen(calls, false), boundary, m, data[p..q + 1]) ==
                   Seen(WithPiece(calls, RunKind(m.state), data[p..q]).calls, false)
  {
    hide ByteStep, Run, SeeAll, GivesUp;
    if q < |data| {
      SliceSnoc(data, p, q);
      RunConcat(boundary, m, data[p..q], [data[q]]);
      RunOne(boundary, m, data[q]);
      SeeConcat(Seen(calls, false), boundary, m, data[p..q], [data[q]]);
      SeeOne(WithPiece(calls, RunKind(m.state), data[p..q]), boundary, m, data[q]);
      NeverGivesUp(boundary, m, data[q]);
      assert events + [] == events;
      assert WithPiece(calls, RunKind(m.state), data[p..q]).calls + [] == WithPiece(calls, RunKind(m.state), data[p..q]).calls;
    }
  }

  lemma NeverGivesUp(boundary: string, m: Mode, c: char)
    requires Running(m.state)
    ensures !GivesUp(boundary, m, c)
  {
  }

  /** Reporting what was held back and looking at the byte again as data. */
  lemma HeldBack(boundary: string, m: Mode, calls: seq<Call>, m': Mode, calls': seq<Call>, data: string, p: nat, q: nat)
    requires p < |data| && GivesUp(boundary, m, data[p]) && m.state != BoundaryStart
    requires Took(boundary, Mode(Data, m.index), calls + [Piece(DataByte, Held(boundary, m))], m', calls', data, p, q, true)
    ensures Took(boundary, m, calls, m', calls', data, p, q, true)
  {
    hide ByteStep, GivesUp, Held, See;
    var end := if q < |data| then q + 1 else q;
    assert data[p..end] != [] && data[p..end][0] == data[p];
    SeenAgain(calls, boundary, m, data[p]);
  }

  lemma SeenAgain(calls: seq<Call>, boundary: string, m: Mode, c: char)
    requires GivesUp(boundary, m, c) && m.state != BoundaryStart
    ensures ByteStep(boundary, m, c).Next? && ByteStep(boundary, Mode(Data, m.index), c).Next?
    ensures ByteStep(boundary, m, c).m == ByteStep(boundary, Mode(Data, m.index), c).m
    ensures See(Seen(calls, false), boundary, m, c) ==
            See(Seen(calls + [Piece(DataByte, Held(boundary, m))], false), boundary, Mode(Data, m.index), c)
  {
    hide Bytes;
    var again := calls + [Piece(DataByte, Held(boundary, m))];
    assert again + [] == again;
  }
}
