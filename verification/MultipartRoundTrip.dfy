/** Which data the multipart parser keeps, and which parts the printer's text can give back. */
module MultipartRoundTrip {
  import opened Sequences
  import opened MultipartStep
  import opened MultipartTrip

  // ---------- Data ----------

  predicate StopsAt(d: string, i: nat) {
    i + 4 <= |d| && d[i] == '\r' && d[i + 1] == '\n' && d[i + 2] == '-' && d[i + 3] == '-'
  }

  /** The data never contains the four bytes that every delimiter starts with. */
  ghost predicate Free(d: string) {
    forall i: nat | i < |d| :: !StopsAt(d, i)
  }

  /** How far into a delimiter the end of the data gets. */
  function Waiting(d: string): State {
    var n := |d|;
    if n >= 1 && d[n - 1] == '\r' then DataCr
    else if n >= 2 && d[n - 2] == '\r' && d[n - 1] == '\n' then DataCrLf
    else if n >= 3 && d[n - 3] == '\r' && d[n - 2] == '\n' && d[n - 1] == '-' then DataCrLfHy
    else Data
  }

  lemma FreePrefix(d: string, c: char)
    requires Free(d + [c])
    ensures Free(d) && !(c == '-' && Waiting(d) == DataCrLfHy)
  {
    forall i: nat | i < |d| ensures !StopsAt(d, i) {
      assert !StopsAt(d + [c], i);
    }
    if c == '-' && Waiting(d) == DataCrLfHy {
      StopsAtEnd(d);
    }
  }

  lemma StopsAtEnd(d: string)
    requires Waiting(d) == DataCrLfHy
    ensures |d| >= 3 && StopsAt(d + ['-'], |d| - 3)
  {
  }

  lemma WaitingNext(d: string, c: char)
    ensures Waiting(d + [c]) == NextWaiting(Waiting(d), c)
  {
  }

  function NextWaiting(st: State, c: char): State {
    if c == '\r' then DataCr
    else if c == '\n' && st == DataCr then DataCrLf
    else if c == '-' && st == DataCrLf then DataCrLfHy
    else Data
  }

  /** One more byte in one of the data states: what was reported and what is held back grows by the byte. */
  lemma DataNext(b: string, st: State, c: char)
    requires st == Data || st == DataCr || st == DataCrLf || (st == DataCrLfHy && c != '-')
    ensures var s := ByteStep(b, Mode(st, 0), c);
            && s.Next? && s.m == Mode(NextWaiting(st, c), 0)
            && s.events + Bytes(DataByte, Held(b, s.m)) == Bytes(DataByte, Held(b, Mode(st, 0)) + [c])
  {
    hide Bytes;
    var held := Held(b, Mode(st, 0));
    BytesConcat(DataByte, held, [c]);
    ShortBytes(c);
    NothingHeld(DataStep(0, c));
    var s := ByteStep(b, Mode(st, 0), c);
    if NextWaiting(st, c) == DataCrLf || NextWaiting(st, c) == DataCrLfHy {
      assert Held(b, s.m) == held + [c] && s.events == [];
    } else {
      assert s.events == Bytes(DataByte, held) + DataStep(0, c).events;
      assert s.events + Bytes(DataByte, Held(b, s.m)) == Bytes(DataByte, held) + Bytes(DataByte, [c]);
    }
  }

  lemma NothingHeld(s: Step)
    ensures s.Next? ==> Next(s.m, Bytes(DataByte, "") + s.events) == s
  {
  }

  lemma ShortBytes(c: char)
    ensures Bytes(DataByte, "") == [] && Bytes(DataByte, [c]) == [Byte(DataByte, c)]
    ensures Bytes(DataByte, "\r") == [Byte(DataByte, '\r')]
  {
    assert "\r"[1..] == "" == [c][1..];
  }

  /** Data without the start of a delimiter: everything is reported except what is held back. */
  lemma {:induction false} DataRun(b: string, d: string)
    requires Free(d)
    ensures var r := Run(b, Mode(Data, 0), d);
            && r.Done? && r.m == Mode(Waiting(d), 0)
            && r.events + Bytes(DataByte, Held(b, r.m)) == Bytes(DataByte, d)
    decreases |d|
  {
    hide ByteStep, Held, Waiting, NextWaiting;
    if d == [] {
      NoData(b);
    } else {
      hide Run, Free, Bytes;
      var init, c := d[..|d| - 1], d[|d| - 1];
      assert d == init + [c];
      FreePrefix(init, c);
      DataRun(b, init);
      WaitingNext(init, c);
      WaitingKinds(init);
      DataNext(b, Waiting(init), c);
      RunConcat(b, Mode(Data, 0), init, [c]);
      RunOne(b, Mode(Waiting(init), 0), c);
      var r, s := Run(b, Mode(Data, 0), init), ByteStep(b, Mode(Waiting(init), 0), c);
      var held, held' := Held(b, r.m), Held(b, s.m);
      BytesConcat(DataByte, held, [c]);
      BytesConcat(DataByte, init, [c]);
      Carry(r.events, s.events, Bytes(DataByte, held), Bytes(DataByte, held'), Bytes(DataByte, [c]), Bytes(DataByte, init));
    }
  }

  lemma Carry(e: Log, f: Log, x: Log, y: Log, one: Log, whole: Log)
    requires e + x == whole && f + y == x + one
    ensures (e + f) + y == whole + one
  {
    assert (e + f) + y == e + (f + y);
    assert e + (x + one) == (e + x) + one;
  }

  lemma NoData(b: string)
    ensures Run(b, Mode(Data, 0), []) == Done(Mode(Waiting([]), 0), []) && Bytes(DataByte, Held(b, Mode(Waiting([]), 0))) == []
    ensures [] + Bytes(DataByte, Held(b, Mode(Waiting([]), 0))) == Bytes(DataByte, [])
  {
  }

  lemma WaitingKinds(d: string)
    ensures Waiting(d) == Data || Waiting(d) == DataCr || Waiting(d) == DataCrLf || Waiting(d) == DataCrLfHy
  {
  }

  // ---------- Exactly when data is kept ----------

  function Count(events: Log): nat {
    if events == [] then 0 else (if events[0].Byte? && events[0].kind == DataByte then 1 else 0) + Count(events[1..])
  }

  lemma {:induction false} CountConcat(a: Log, b: Log)
    ensures Count(a + b) == Count(a) + Count(b)
  {
    if a == [] {
      assert a + b == b;
    } else {
      assert (a + b)[1..] == a[1..] + b;
      CountConcat(a[1..], b);
    }
  }

  lemma {:induction false} CountBytes(d: string)
    ensures Count(Bytes(DataByte, d)) == |d|
  {
    if d != [] {
      assert Bytes(DataByte, d)[1..] == Bytes(DataByte, d[1..]);
      CountBytes(d[1..]);
    }
  }

  lemma CountShort(e: Event, f: Event)
    ensures Count([e]) <= 1 && Count([]) == 0
    ensures e.Notify? && f.Notify? ==> Count([e]) == 0 && Count([e, f]) == 0
  {
    assert [e][1..] == [] && [e, f][1..] == [f] && [f][1..] == [];
  }

  /** A byte adds at most itself to what is reported or held back. */
  lemma CountStep(b: string, m: Mode, c: char)
    ensures var s := ByteStep(b, m, c); s.Next? ==> Count(s.events) + |Held(b, s.m)| <= 1 + |Held(b, m)|
    ensures m.state == DataCrLfHy && c == '-' ==> ByteStep(b, m, c) == Next(Mode(BoundaryStart, m.index), [])
  {
    hide Count, Bytes;
    CountShort(Notify(BodyBegin), Notify(PartBegin)); CountShort(Notify(PartEnd), Notify(PartBegin));
    CountShort(Notify(PartEnd), Notify(BodyEnd)); CountShort(Notify(HeadersComplete), Notify(BodyEnd));
    CountShort(Byte(FieldByte, c), Byte(DataByte, c)); CountShort(Byte(ValueByte, c), Byte(DataByte, c));
    CountShort(Byte(DataByte, c), Byte(DataByte, c));
    var index := if m.state == BoundaryStart then 0 else m.index;
    var held := if m.state == BoundaryStart then "" else Held(b, m);
    CountGiveUp(held, index, c);
  }

  lemma CountGiveUp(held: string, i: nat, c: char)
    ensures var s := GiveUp(held, i, c);
            Count(s.events) + (if c == '\r' then 1 else 0) == |held| + 1 && (s.m.state == DataCr || s.m.state == Data)
    ensures GiveUp(held, i, c).m.state == DataCr <==> c == '\r'
  {
    CountBytes(held);
    CountConcat(Bytes(DataByte, held), DataStep(i, c).events);
    assert [Byte(DataByte, c)][1..] == [];
  }

  lemma {:induction false} CountRun(b: string, m: Mode, d: string)
    ensures var r := Run(b, m, d); r.Done? ==> Count(r.events) + |Held(b, r.m)| <= |d| + |Held(b, m)|
    decreases |d|
  {
    hide ByteStep, Held, Count;
    if d == [] {
      CountShort(Notify(BodyEnd), Notify(BodyEnd));
    } else {
      var s := ByteStep(b, m, d[0]);
      CountStep(b, m, d[0]);
      if s.Next? {
        CountRun(b, s.m, d[1..]);
        CountConcat(s.events, Run(b, s.m, d[1..]).events);
      }
    }
  }

  /** The parser keeps data (reported, or still held back as the possible start of a delimiter) if and only if
      the data does not contain CR LF and two hyphens, whatever the boundary is: those four bytes are never
      given back, even when the boundary does not follow. */
  lemma DataKept(b: string, d: string)
    ensures var r := Run(b, Mode(Data, 0), d);
            (r.Done? && r.events + Bytes(DataByte, Held(b, r.m)) == Bytes(DataByte, d)) <==> Free(d)
  {
    if Free(d) {
      DataRun(b, d);
    } else {
      DataLost(b, d);
    }
  }

  /** The boundary "b" and data in which four bytes start like a delimiter: only the byte behind them is kept. */
  lemma FourBytesLost()
    ensures Run("b", Mode(Data, 0), "\r\n--x") == Done(Mode(Data, 0), [Byte(DataByte, 'x')])
    ensures Bytes(DataByte, "\r\n--x") != [Byte(DataByte, 'x')]
  {
    hide Run, ByteStep, Bytes, Count;
    var x := Byte(DataByte, 'x');
    assert "" + ['\r'] == "\r" && "\r" + ['\n'] == "\r\n" && "\r\n" + ['-'] == "\r\n-" && "\r\n-" + ['-'] == "\r\n--";
    assert "\r\n--" + "x" == "\r\n--x" && [] + [x] == [x];
    LostSteps();
    Lost("", Mode(Data, 0), '\r', Mode(DataCr, 0));
    Lost("\r", Mode(DataCr, 0), '\n', Mode(DataCrLf, 0));
    Lost("\r\n", Mode(DataCrLf, 0), '-', Mode(DataCrLfHy, 0));
    Lost("\r\n-", Mode(DataCrLfHy, 0), '-', Mode(BoundaryStart, 0));
    assert ['x'] == "x";
    RunOne("b", Mode(BoundaryStart, 0), 'x');
    RunConcat("b", Mode(Data, 0), "\r\n--", "x");
    CountBytes("\r\n--x");
    CountShort(x, x);
  }

  lemma LostSteps()
    ensures Run("b", Mode(Data, 0), "") == Done(Mode(Data, 0), [])
    ensures ByteStep("b", Mode(Data, 0), '\r') == Next(Mode(DataCr, 0), [])
    ensures ByteStep("b", Mode(DataCr, 0), '\n') == Next(Mode(DataCrLf, 0), [])
    ensures ByteStep("b", Mode(DataCrLf, 0), '-') == Next(Mode(DataCrLfHy, 0), [])
    ensures ByteStep("b", Mode(DataCrLfHy, 0), '-') == Next(Mode(BoundaryStart, 0), [])
    ensures ByteStep("b", Mode(BoundaryStart, 0), 'x') == Next(Mode(Data, 0), [Byte(DataByte, 'x')])
  {
    ShortBytes('x');
  }

  lemma Lost(x: string, m: Mode, c: char, k: Mode)
    requires Run("b", Mode(Data, 0), x) == Done(m, []) && ByteStep("b", m, c) == Next(k, [])
    ensures Run("b", Mode(Data, 0), x + [c]) == Done(k, [])
  {
    hide Run, ByteStep;
    RunOne("b", m, c);
    RunConcat("b", Mode(Data, 0), x, [c]);
  }

  lemma FirstStop(d: string) returns (i: nat)
    requires !Free(d)
    ensures i < |d| && StopsAt(d, i) && Free(d[..i + 3]) && Waiting(d[..i + 3]) == DataCrLfHy
    ensures i + 4 <= |d| && d == d[..i + 3] + ['-'] + d[i + 4..]
  {
    i :| i < |d| && StopsAt(d, i);
    while exists j: nat :: j < i && StopsAt(d, j)
      invariant i < |d| && StopsAt(d, i)
      decreases i
    {
      var j: nat :| j < i && StopsAt(d, j);
      i := j;
    }
    var x := d[..i + 3];
    forall j: nat | j < |x| ensures !StopsAt(x, j) {
      if StopsAt(x, j) { assert StopsAt(d, j); }
    }
  }

  lemma DataLost(b: string, d: string)
    requires !Free(d)
    ensures var r := Run(b, Mode(Data, 0), d);
            r.Done? ==> r.events + Bytes(DataByte, Held(b, r.m)) != Bytes(DataByte, d)
  {
    var i := FirstStop(d);
    hide ByteStep, Run, Bytes, Count, Free, Waiting, Held;
    var x, y := d[..i + 3], d[i + 4..];
    var r1 := Run(b, Mode(Data, 0), x);
    StopRun(b, x);
    RunConcat(b, Mode(Data, 0), x + ['-'], y);
    CountRun(b, Mode(BoundaryStart, 0), y);
    CountConcat(r1.events, Run(b, Mode(BoundaryStart, 0), y).events);
    CountBytes(d);
    var r := Run(b, Mode(Data, 0), d);
    if r.Done? {
      CountBytes(Held(b, r.m));
      CountConcat(r.events, Bytes(DataByte, Held(b, r.m)));
    }
  }

  /** The second hyphen of a delimiter: nothing is held back any more, and the three bytes before it are gone. */
  lemma StopRun(b: string, x: string)
    requires Free(x) && Waiting(x) == DataCrLfHy
    ensures var r1, r2 := Run(b, Mode(Data, 0), x), Run(b, Mode(Data, 0), x + ['-']);
            && r1.Done? && r2 == Done(Mode(BoundaryStart, 0), r1.events)
            && Count(r1.events) + |Held(b, r1.m)| == |x|
            && |Held(b, Mode(BoundaryStart, 0))| == 0
  {
    hide ByteStep, Run, Bytes, Count, Free, Waiting;
    DataRun(b, x);
    var r1 := Run(b, Mode(Data, 0), x);
    CountStep(b, r1.m, '-');
    RunOne(b, r1.m, '-');
    RunConcat(b, Mode(Data, 0), x, ['-']);
    CountConcat(r1.events, Bytes(DataByte, Held(b, r1.m)));
    CountBytes(x); CountBytes(Held(b, r1.m));
    assert r1.events + [] == r1.events;
  }

  // ---------- Delimiters ----------

  /** The boundaries that printer and parser agree on. */
  predicate Ascii(b: string) { forall i | 0 <= i < |b| :: b[i] as int < 128 }

  /** A delimiter has been matched up to its boundary. */
  function AtEnd(b: string): Mode { if b == [] then Mode(BoundaryStart, 0) else Mode(Boundary, |b|) }

  // ---------- Headers ----------

  predicate Printable(h: Header) {
    && h.name != [] && (forall i | 0 <= i < |h.name| :: IsFieldChar(h.name[i]))
    && h.value != [] && h.value[0] != ' ' && h.value[0] != '\t'
    && forall i | 0 <= i < |h.value| :: h.value[i] != '\r'
  }

  function HeaderEvents(h: Header): Log { Bytes(FieldByte, h.name) + Bytes(ValueByte, h.value) }

  function HeadersEvents(hs: seq<Header>): Log {
    if hs == [] then [Notify(HeadersComplete)] else HeaderEvents(hs[0]) + HeadersEvents(hs[1..])
  }

  // ---------- Parts ----------

  /** What follows the delimiter before a part: its text without that delimiter. */
  function Inner(b: string, parts: seq<Part>): string
    requires parts != []
  {
    HeaderText(parts[0].headers) + (parts[0].data + PartsText(b, parts[1..]))
  }

  lemma BodyText(b: string, parts: seq<Part>)
    requires parts != []
    ensures Body(b, parts) == "--" + b + CRLF + Inner(b, parts)
  {
    var inner := Inner(b, parts);
    assert PartsText(b, parts) == CRLF + "--" + b + CRLF + inner;
    hide PartsText, Inner;
    assert CRLF + "--" + b + CRLF + inner == CRLF + ("--" + b + CRLF + inner);
  }
}
