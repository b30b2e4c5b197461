/** The body of a multipart request: the callbacks that one call of the parser makes for a printed body, and
    what the handlers keep of them. */
module MultipartBody {
  import opened Sequences
  import opened MultipartStep
  import opened MultipartTrip
  import opened MultipartRoundTrip

  // ---------- The callbacks for some data ----------

  /** How many bytes of the data, which begins with CR, are held back together. */
  function HeldLength(d: string): (n: nat)
    requires d != [] && d[0] == '\r'
    ensures 1 <= n <= 3 && n <= |d|
  {
    if |d| < 2 || d[1] != '\n' then 1 else if |d| < 3 || d[2] != '-' then 2 else 3
  }

  /** How many bytes come before the first CR. */
  function PlainLength(d: string): (n: nat)
    ensures n <= |d| && (forall i | 0 <= i < n :: d[i] != '\r') && (n < |d| ==> d[n] == '\r')
  {
    if d == [] || d[0] == '\r' then 0 else 1 + PlainLength(d[1..])
  }

  /** How far a text goes along with the boundary. */
  function Common(b: string, s: string): (k: nat)
    ensures k <= |b| && k <= |s| && b[..k] == s[..k] && (forall i | 0 <= i < k :: b[i] as int < 128)
    ensures k < |b| && k < |s| ==> !(b[k] == s[k] && b[k] as int < 128)
  {
    if b == [] || s == [] || b[0] != s[0] || b[0] as int >= 128 then 0
    else
      var k := 1 + Common(b[1..], s[1..]);
      assert b[..k] == [b[0]] + b[1..][..k - 1] && s[..k] == [s[0]] + s[1..][..k - 1];
      k
  }

  /** How many bytes at the start of the data are taken together: a run without CR, what was held back as the possible
      start of a delimiter, or CR LF, two hyphens and as much of the boundary as follows. */
  function Taken(b: string, d: string): (n: nat)
    requires d != []
    ensures 0 < n <= |d| && (StopsAt(d, 0) ==> n >= 4)
  {
    if StopsAt(d, 0) then 4 + Common(b, d[4..]) else if d[0] == '\r' then HeldLength(d) else PlainLength(d)
  }

  /** What is reported of them: of a failed match only the part of the boundary that was there. */
  function Shown(b: string, d: string): string
    requires d != []
  {
    d[if StopsAt(d, 0) then 4 else 0..Taken(b, d)]
  }

  /** The boundary does not follow; at the end of the data it does not go on with CR. */
  predicate Fails(b: string, d: string)
    requires StopsAt(d, 0)
  {
    var k := Common(b, d[4..]);
    k < |b| && (4 + k == |d| ==> b[k] != '\r')
  }

  /** Data in which no delimiter is complete. */
  ghost predicate Readable(b: string, d: string)
    decreases |d|
  {
    d == [] || ((StopsAt(d, 0) ==> Fails(b, d)) && Readable(b, d[Taken(b, d)..]))
  }

  /** The data without the four bytes of every failed match. */
  function Stripped(b: string, d: string): string
    decreases |d|
  {
    if d == [] then [] else Shown(b, d) + Stripped(b, d[Taken(b, d)..])
  }

  /** The parts whose text can be parsed back: headers with a name and a value, and data that does not end early. */
  ghost predicate Clean(b: string, p: Part) {
    (forall i | 0 <= i < |p.headers| :: Printable(p.headers[i])) && Readable(b, p.data)
  }

  /** The pieces in which data is reported. */
  function Cut(b: string, d: string): seq<string>
    decreases |d|
  {
    if d == [] then [] else [Shown(b, d)] + Cut(b, d[Taken(b, d)..])
  }

  function DataCalls(b: string, d: string): seq<Call> { Pieces(Cut(b, d)) }

  function Pieces(texts: seq<string>): seq<Call> {
    if texts == [] then [] else [Piece(DataByte, texts[0])] + Pieces(texts[1..])
  }

  lemma {:induction false} PlainLengthConcat(x: string, y: string)
    requires forall i | 0 <= i < |x| :: x[i] != '\r'
    ensures PlainLength(x + y) == |x| + PlainLength(y)
    decreases |x|
  {
    if x == [] {
      assert x + y == y;
    } else {
      assert (x + y)[1..] == x[1..] + y;
      PlainLengthConcat(x[1..], y);
    }
  }

  /** One piece of some data. */
  lemma StrippedStep(b: string, d: string)
    requires d != []
    ensures Stripped(b, d) == Shown(b, d) + Stripped(b, d[Taken(b, d)..])
    ensures Readable(b, d) <==> Readable(b, d[Taken(b, d)..]) && (StopsAt(d, 0) ==> Fails(b, d))
    ensures StopsAt(d, 0) && Fails(b, d) ==> Common(b, d[4..]) < |b|
  {
    hide Shown, Taken, Common, StopsAt;
  }

  lemma PlainStep(b: string, d: string)
    requires d != [] && d[0] != '\r'
    ensures !StopsAt(d, 0) && Taken(b, d) == PlainLength(d) && Shown(b, d) == d[..PlainLength(d)]
  {
  }

  /** Bytes without CR are reported as they are, whatever follows. */
  lemma PlainSplit(b: string, x: string, y: string)
    requires forall i | 0 <= i < |x| :: x[i] != '\r'
    ensures (Readable(b, x + y) <==> Readable(b, y)) && Stripped(b, x + y) == x + Stripped(b, y)
  {
    hide Readable, Stripped, Taken, Shown, StopsAt, PlainLength, Fails;
    var s := x + y;
    if x == [] {
      assert s == y;
    } else {
      PlainLengthConcat(x, y);
      var m := PlainLength(y);
      PlainStep(b, s);
      StrippedStep(b, s);
      Behind(x, y, m);
      if m > 0 {
        PlainStep(b, y);
        StrippedStep(b, y);
        Regroup(x, y[..m], Stripped(b, y[m..]));
      } else {
        assert y[0..] == y && x + [] == x;
      }
    }
  }

  lemma Behind(x: string, y: string, m: nat)
    requires m <= |y|
    ensures (x + y)[|x| + m..] == y[m..] && (x + y)[..|x| + m] == x + y[..m]
  {
  }

  /** Byte by byte: unless CR LF and two hyphens begin here, one byte more is reported; of a failed match the part of
      the boundary that was there. */
  lemma StrippedByte(b: string, d: string)
    requires d != [] && Readable(b, d)
    ensures !StopsAt(d, 0) ==> Readable(b, d[1..]) && Stripped(b, d) == [d[0]] + Stripped(b, d[1..])
    ensures StopsAt(d, 0) ==>
              var k := Common(b, d[4..]);
              k < |b| && Readable(b, d[4 + k..]) && Stripped(b, d) == b[..k] + Stripped(b, d[4 + k..])
  {
    hide Readable, Stripped, Taken;
    if StopsAt(d, 0) { FailedStripped(b, d); } else { PlainStripped(b, d); }
  }

  lemma FailedStripped(b: string, d: string)
    requires d != [] && Readable(b, d) && StopsAt(d, 0)
    ensures var k := Common(b, d[4..]);
            k < |b| && Readable(b, d[4 + k..]) && Stripped(b, d) == b[..k] + Stripped(b, d[4 + k..])
  {
    StrippedStep(b, d);
    FailedShown(b, d);
    hide *;
  }

  lemma FailedShown(b: string, d: string)
    requires d != [] && StopsAt(d, 0)
    ensures var k := Common(b, d[4..]); Taken(b, d) == 4 + k && Shown(b, d) == b[..k]
  {
    hide Common;
    var k := Common(b, d[4..]);
    assert d[4..4 + k] == d[4..][..k];
  }

  lemma PlainStripped(b: string, d: string)
    requires d != [] && Readable(b, d) && !StopsAt(d, 0)
    ensures Readable(b, d[1..]) && Stripped(b, d) == [d[0]] + Stripped(b, d[1..])
  {
    StrippedStep(b, d);
    PlainShown(b, d);
    var n := Taken(b, d);
    hide *;
    SliceParts(d, 1, n);
    PlainSplit(b, d[1..n], d[n..]);
    Regroup([d[0]], d[1..n], Stripped(b, d[n..]));
  }

  lemma PlainShown(b: string, d: string)
    requires d != [] && !StopsAt(d, 0)
    ensures var n := Taken(b, d); Shown(b, d) == [d[0]] + d[1..n] && forall i | 0 <= i < n - 1 :: d[1..n][i] != '\r'
  {
    var n := Taken(b, d);
    assert d[0..n] == [d[0]] + d[1..n];
  }

  /** Data is reported as it is exactly if CR LF and two hyphens are not in it. */
  lemma {:induction false} StrippedExact(b: string, d: string)
    requires Readable(b, d)
    ensures |Stripped(b, d)| <= |d| && (Stripped(b, d) == d <==> Free(d))
    decreases |d|
  {
    if d != [] {
      StrippedByte(b, d);
      hide Stripped, Readable, Taken;
      if StopsAt(d, 0) {
        var k := Common(b, d[4..]);
        StrippedExact(b, d[4 + k..]);
        assert !Free(d);
      } else {
        StrippedExact(b, d[1..]);
        assert d == [d[0]] + d[1..];
        FreeFirst(d);
      }
    }
  }

  lemma FreeFirst(d: string)
    requires d != [] && !StopsAt(d, 0)
    ensures Free(d) <==> Free(d[1..])
  {
    if Free(d) { forall i: nat | i < |d[1..]| ensures !StopsAt(d[1..], i) { assert !StopsAt(d, i + 1); } }
    if Free(d[1..]) { forall i: nat | i < |d| ensures !StopsAt(d, i) { if i > 0 { assert !StopsAt(d[1..], i - 1); } } }
  }

  /** Data without those four bytes never ends early. */
  lemma {:induction false} FreeReadable(b: string, d: string)
    requires Free(d)
    ensures Readable(b, d)
    decreases |d|
  {
    if d != [] {
      assert !StopsAt(d, 0);
      var n := Taken(b, d);
      forall i: nat | i < |d[n..]| ensures !StopsAt(d[n..], i) { assert !StopsAt(d, n + i); }
      FreeReadable(b, d[n..]);
    }
  }

  /** What the parser sees from a mode on, with these calls before. */
  ghost predicate Says(b: string, calls: seq<Call>, m: Mode, x: string, k: Mode, calls': seq<Call>) {
    var r := Run(b, m, x);
    r.Done? && r.m == k && SeeAll(Seen(calls, false), b, m, x) == Seen(calls', false)
  }

  lemma SaysThen(b: string, calls: seq<Call>, m: Mode, x: string, k: Mode, calls': seq<Call>, y: string, n: Mode, calls'': seq<Call>)
    requires Says(b, calls, m, x, k, calls') && Says(b, calls', k, y, n, calls'')
    ensures Says(b, calls, m, x + y, n, calls'')
  {
    hide Run, SeeAll;
    RunConcat(b, m, x, y);
    SeeConcat(Seen(calls, false), b, m, x, y);
  }

  /** A byte that is not part of a run. */
  lemma SaysOne(b: string, calls: seq<Call>, m: Mode, c: char, k: Mode, events: Log)
    requires ByteStep(b, m, c) == Next(k, events) && !GivesUp(b, m, c) && (!Running(k.state) || m.state == HeadersDone)
    ensures Says(b, calls, m, [c], k, calls + SignalsOf(events))
  {
    hide ByteStep, Run, SeeAll, GivesUp;
    RunOne(b, m, c);
    SeeOne(Seen(calls, false), b, m, c);
  }

  /** Two such bytes, the second of which may be signalled. */
  lemma SaysTwo(b: string, calls: seq<Call>, m: Mode, c: char, k: Mode, d: char, n: Mode, events: Log)
    requires ByteStep(b, m, c) == Next(k, []) && !GivesUp(b, m, c) && !Running(k.state)
    requires ByteStep(b, k, d) == Next(n, events) && !GivesUp(b, k, d) && (!Running(n.state) || k.state == HeadersDone)
    ensures Says(b, calls, m, [c, d], n, calls + SignalsOf(events))
  {
    hide ByteStep, Says, GivesUp;
    SaysOne(b, calls, m, c, k, []);
    assert calls + SignalsOf([]) == calls;
    SaysOne(b, calls, k, d, n, events);
    SaysThen(b, calls, m, [c], k, calls, [d], n, calls + SignalsOf(events));
    assert [c] + [d] == [c, d];
  }

  /** A run and the byte that ends it. */
  lemma SaysRun(b: string, calls: seq<Call>, m: Mode, piece: string, c: char, k: Mode)
    requires Running(m.state) && piece != [] && forall i | 0 <= i < |piece| :: InRun(b, m, piece[i])
    requires Run(b, m, piece).Done? && Run(b, m, piece).m == m
    requires ByteStep(b, m, c) == Next(k, []) && !Running(k.state)
    ensures Says(b, calls, m, piece + [c], k, calls + [Piece(RunKind(m.state), piece)])
  {
    hide ByteStep, Run, SeeAll;
    PieceSeen(calls, b, m, piece);
    var data := piece + [c];
    assert data[0..|piece|] == piece && data[0..|piece| + 1] == data;
    LastByte(b, m, Run(b, m, piece).events, data, 0, |piece|, calls);
  }

  // ---------- Data and its delimiter ----------

  /** What was held back is reported when the delimiter does not go on; then the byte is looked at as data. */
  lemma SaysHeld(b: string, calls: seq<Call>, m: Mode, x: string, k: Mode, calls': seq<Call>)
    requires m.state != BoundaryStart && x != [] && GivesUp(b, m, x[0])
    requires Says(b, calls + [Piece(DataByte, Held(b, m))], Mode(Data, m.index), x, k, calls')
    ensures Says(b, calls, m, x, k, calls')
  {
    hide ByteStep, GivesUp, Held, See;
    SeenAgain(calls, b, m, x[0]);
  }

  /** The held bytes after data and before a byte with which no delimiter goes on. */
  lemma HeldBytes(b: string, calls: seq<Call>, i: nat, n: nat)
    requires 1 <= n <= 3
    ensures var st := if n == 1 then DataCr else if n == 2 then DataCrLf else DataCrLfHy;
            Says(b, calls, Mode(Data, i), "\r\n-"[..n], Mode(st, i), calls) && Held(b, Mode(st, i)) == "\r\n-"[..n]
  {
    hide Says, SeeAll, Run;
    assert calls + SignalsOf([]) == calls;
    SaysOne(b, calls, Mode(Data, i), '\r', Mode(DataCr, i), []);
    assert "\r\n-"[..1] == ['\r'] && "\r\n-"[..2] == ['\r', '\n'] && "\r\n-"[..3] == ['\r', '\n'] + ['-'];
    if n >= 2 { SaysTwo(b, calls, Mode(Data, i), '\r', Mode(DataCr, i), '\n', Mode(DataCrLf, i), []); }
    if n == 3 {
      SaysOne(b, calls, Mode(DataCrLf, i), '-', Mode(DataCrLfHy, i), []);
      SaysThen(b, calls, Mode(Data, i), ['\r', '\n'], Mode(DataCrLf, i), calls, ['-'], Mode(DataCrLfHy, i), calls);
    }
  }

  /** A delimiter right after a piece or at the start of the data. */
  lemma DelimiterSeen(b: string, calls: seq<Call>, i: nat)
    requires Ascii(b) && (b == [] ==> i == 0)
    ensures Says(b, calls, Mode(Data, i), Delimiter(b), AtEnd(b), calls)
  {
    hide Says, ByteStep, GivesUp;
    assert calls + SignalsOf([]) == calls;
    Opens(b, calls, i);
    BoundarySeen(b, calls, i, |b|);
    assert b[..|b|] == b;
    SaysThen(b, calls, Mode(Data, i), CRLF + "--", Mode(BoundaryStart, i), calls, b, AtEnd(b), calls);
  }

  lemma Opens(b: string, calls: seq<Call>, i: nat)
    ensures Says(b, calls, Mode(Data, i), CRLF + "--", Mode(BoundaryStart, i), calls)
  {
    hide Says;
    assert calls + SignalsOf([]) == calls;
    SaysTwo(b, calls, Mode(Data, i), '\r', Mode(DataCr, i), '\n', Mode(DataCrLf, i), []);
    SaysTwo(b, calls, Mode(DataCrLf, i), '-', Mode(DataCrLfHy, i), '-', Mode(BoundaryStart, i), []);
    SaysThen(b, calls, Mode(Data, i), CRLF, Mode(DataCrLf, i), calls, "--", Mode(BoundaryStart, i), calls);
  }

  /** In the boundary, `k` bytes of which have matched. */
  function InBoundary(i: nat, k: nat): Mode { if k == 0 then Mode(BoundaryStart, i) else Mode(Boundary, k) }

  lemma {:induction false} BoundarySeen(b: string, calls: seq<Call>, i: nat, k: nat)
    requires k <= |b| && forall j | 0 <= j < k :: b[j] as int < 128
    ensures Says(b, calls, Mode(BoundaryStart, i), b[..k], InBoundary(i, k), calls)
    decreases k
  {
    if k > 0 {
      hide Says;
      BoundarySeen(b, calls, i, k - 1);
      SliceSnoc(b, 0, k - 1);
      assert b[..k] == b[..k - 1] + [b[k - 1]];
      var m := InBoundary(i, k - 1);
      assert calls + SignalsOf([]) == calls;
      SaysOne(b, calls, m, b[k - 1], Mode(Boundary, k), []);
      SaysThen(b, calls, Mode(BoundaryStart, i), b[..k - 1], m, calls, [b[k - 1]], Mode(Boundary, k), calls);
    }
  }

  /** A boundary match that fails at its byte `k`: what is reported is the part of the boundary that was there, and the
      byte at which it fails is looked at as data. */
  lemma MatchFails(b: string, calls: seq<Call>, i: nat, k: nat, x: string, n: Mode, calls': seq<Call>)
    requires k < |b| && (forall j | 0 <= j < k :: b[j] as int < 128) && x != [] && !(b[k] == x[0] && b[k] as int < 128)
    requires Says(b, calls + [Piece(DataByte, b[..k])], Mode(Data, k), x, n, calls')
    ensures Says(b, calls, Mode(Data, i), (CRLF + "--") + (b[..k] + x), n, calls')
  {
    var m := Mode(Boundary, k);
    assert GivesUp(b, m, x[0]) && Held(b, m) == b[..k];
    if k == 0 { assert SameStep(b, Mode(BoundaryStart, i), m, x[0]); }
    hide Says, ByteStep, GivesUp, Held, SameStep;
    SaysHeld(b, calls, m, x, n, calls');
    if k == 0 { SaysFirst(b, calls, Mode(BoundaryStart, i), m, x, n, calls'); }
    Opens(b, calls, i);
    BoundarySeen(b, calls, i, k);
    SaysThen(b, calls, Mode(BoundaryStart, i), b[..k], InBoundary(i, k), calls, x, n, calls');
    SaysThen(b, calls, Mode(Data, i), CRLF + "--", Mode(BoundaryStart, i), calls, b[..k] + x, n, calls');
  }

  /** For every boundary, every number of its bytes and every byte that does not go on with it: these bytes are
      reported, in one callback, and the byte is data. */
  lemma FailedMatch(b: string, k: nat, c: char)
    requires k < |b| && (forall j | 0 <= j < k :: b[j] as int < 128) && !(b[k] == c && c as int < 128)
    ensures var d := CRLF + "--" + b[..k] + [c];
            var r, s := Run(b, Mode(Data, 0), d), SeeAll(Seen([], false), b, Mode(Data, 0), d);
            && r.Done? && r.m.state == (if c == '\r' then DataCr else Data)
            && r.events == Bytes(DataByte, if c == '\r' then b[..k] else b[..k] + [c])
            && s.calls == [Piece(DataByte, b[..k])] + if c == '\r' then [] else [Piece(DataByte, [c])]
  {
    var d := CRLF + "--" + b[..k] + [c];
    assert d == (CRLF + "--") + (b[..k] + [c]);
    var m := Mode(Boundary, k);
    hide ByteStep, GivesUp, Held, SameStep, See, Run, SeeAll, Bytes, Says;
    FailingStep(b, k, c);
    var none: seq<Call> := [];
    Opens(b, none, 0);
    BoundarySeen(b, none, 0, k);
    SaysThen(b, none, Mode(Data, 0), CRLF + "--", Mode(BoundaryStart, 0), none, b[..k], InBoundary(0, k), none);
    LastStep(b, none, CRLF + "--" + b[..k], InBoundary(0, k), m, c);
    CallsReport(Seen([], false), b, Mode(Data, 0), d);
    FlatCalls(b[..k], c);
    assert Flat([]) == [];
  }

  lemma FailingStep(b: string, k: nat, c: char)
    requires k < |b| && !(b[k] == c && c as int < 128)
    ensures var m := Mode(Boundary, k);
            var step := ByteStep(b, m, c);
            && (k == 0 ==> SameStep(b, Mode(BoundaryStart, 0), m, c))
            && step.Next? && step.m.state == (if c == '\r' then DataCr else Data)
            && See(Seen([], false), b, m, c).calls == [Piece(DataByte, b[..k])] + if c == '\r' then [] else [Piece(DataByte, [c])]
  {
    hide Bytes, SignalsOf;
    var none: seq<Call> := [];
    assert none + [Piece(DataByte, b[..k])] == [Piece(DataByte, b[..k])];
  }

  lemma FlatCalls(held: string, c: char)
    ensures Flat([Piece(DataByte, held)] + if c == '\r' then [] else [Piece(DataByte, [c])]) ==
            Bytes(DataByte, if c == '\r' then held else held + [c])
  {
    hide Flat, Bytes;
    var one := [Piece(DataByte, held)];
    FlatOne(Piece(DataByte, held));
    if c == '\r' {
      assert one + [] == one;
    } else {
      FlatTwo(Piece(DataByte, held), Piece(DataByte, [c]));
      assert one + [Piece(DataByte, [c])] == [Piece(DataByte, held), Piece(DataByte, [c])];
      BytesConcat(DataByte, held, [c]);
    }
  }

  lemma LastStep(b: string, calls: seq<Call>, x: string, m: Mode, k: Mode, c: char)
    requires Says(b, calls, Mode(Data, 0), x, m, calls) && (m == k || SameStep(b, m, k, c)) && ByteStep(b, k, c).Next?
    ensures var r, s := Run(b, Mode(Data, 0), x + [c]), SeeAll(Seen(calls, false), b, Mode(Data, 0), x + [c]);
            r.Done? && r.m == ByteStep(b, k, c).m && s == See(Seen(calls, false), b, k, c)
  {
    hide ByteStep, GivesUp, Held, Run, SeeAll;
    RunConcat(b, Mode(Data, 0), x, [c]);
    SeeConcat(Seen(calls, false), b, Mode(Data, 0), x, [c]);
    RunOne(b, m, c);
    SeeOne(Seen(calls, false), b, m, c);
    assert See(Seen(calls, false), b, m, c) == See(Seen(calls, false), b, k, c);
  }

  lemma PlainRun(b: string, index: nat, piece: string)
    requires forall i | 0 <= i < |piece| :: piece[i] != '\r'
    ensures forall i | 0 <= i < |piece| :: InRun(b, Mode(Data, index), piece[i])
  {
  }

  /** The data of a part and the delimiter after it: one call for every piece. */
  lemma {:induction false} DataSeen(b: string, calls: seq<Call>, i: nat, d: string)
    requires Readable(b, d) && Ascii(b) && (b == [] ==> i == 0)
    ensures Says(b, calls, Mode(Data, i), d + Delimiter(b), AtEnd(b), calls + DataCalls(b, d))
    decreases |d|
  {
    hide Says, ByteStep, GivesUp, Held, Ascii, DataCalls, Delimiter, Taken, Shown, Fails, Common;
    var rest := d + Delimiter(b);
    if d == [] {
      DelimiterSeen(b, calls, i);
      NoCalls(b, d);
      assert rest == Delimiter(b) && calls + [] == calls;
    } else {
      var n := Taken(b, d);
      var tail := d[n..];
      var piece := Piece(DataByte, Shown(b, d));
      CutStep(b, d, Delimiter(b));
      Regroup(calls, [piece], DataCalls(b, tail));
      if StopsAt(d, 0) {
        SomeBoundary(b, d);
        DataSeen(b, calls + [piece], n - 4, tail);
        SaysFailed(b, calls, i, d, calls + DataCalls(b, d));
      } else {
        DataSeen(b, calls + [piece], i, tail);
        if d[0] == '\r' { SaysHeldPiece(b, calls, i, d, calls + DataCalls(b, d)); } else { SaysPlainPiece(b, calls, i, d, calls + DataCalls(b, d)); }
      }
    }
  }

  lemma SomeBoundary(b: string, d: string)
    requires StopsAt(d, 0) && Fails(b, d)
    ensures b != []
  {
  }

  lemma NoCalls(b: string, d: string)
    requires d == []
    ensures DataCalls(b, d) == []
  {
  }

  lemma CutStep(b: string, d: string, after: string)
    requires d != []
    ensures var n := Taken(b, d);
            && 0 < n <= |d| && Cut(b, d) == [Shown(b, d)] + Cut(b, d[n..])
            && DataCalls(b, d) == [Piece(DataByte, Shown(b, d))] + DataCalls(b, d[n..])
            && Stripped(b, d) == Shown(b, d) + Stripped(b, d[n..])
            && d + after == d[..n] + (d[n..] + after)
  {
    hide Cut, Pieces, Stripped, Shown, Taken;
    CutFirst(b, d);
    PiecesCons(Shown(b, d), Cut(b, d[Taken(b, d)..]));
    var n := Taken(b, d);
    assert d == d[..n] + d[n..];
    Regroup(d[..n], d[n..], after);
  }

  lemma CutFirst(b: string, d: string)
    requires d != []
    ensures var n := Taken(b, d);
            && 0 < n <= |d| && Cut(b, d) == [Shown(b, d)] + Cut(b, d[n..])
            && Stripped(b, d) == Shown(b, d) + Stripped(b, d[n..])
  {
    hide Shown, Taken;
  }

  lemma PiecesCons(text: string, more: seq<string>)
    ensures Pieces([text] + more) == [Piece(DataByte, text)] + Pieces(more)
  {
    assert ([text] + more)[1..] == more;
  }

  lemma SaysFailed(b: string, calls: seq<Call>, i: nat, d: string, calls': seq<Call>)
    requires d != [] && StopsAt(d, 0) && Fails(b, d)
    requires Says(b, calls + [Piece(DataByte, Shown(b, d))], Mode(Data, Taken(b, d) - 4), d[Taken(b, d)..] + Delimiter(b), AtEnd(b), calls')
    ensures Says(b, calls, Mode(Data, i), d[..Taken(b, d)] + (d[Taken(b, d)..] + Delimiter(b)), AtEnd(b), calls')
  {
    var k := Common(b, d[4..]);
    var n := 4 + k;
    var x := d[n..] + Delimiter(b);
    assert n == Taken(b, d);
    assert x[0] == if n < |d| then d[4..][k] else '\r';
    assert d[4..n] == d[4..][..k] == b[..k];
    assert d[..4] == CRLF + "--" && d[..n] == d[..4] + d[4..n];
    hide Says, Common, Delimiter;
    MatchFails(b, calls, i, k, x, AtEnd(b), calls');
    Regroup(d[..4], b[..k], x);
  }

  lemma SaysHeldPiece(b: string, calls: seq<Call>, i: nat, d: string, calls': seq<Call>)
    requires d != [] && d[0] == '\r' && !StopsAt(d, 0)
    requires Says(b, calls + [Piece(DataByte, Shown(b, d))], Mode(Data, i), d[Taken(b, d)..] + Delimiter(b), AtEnd(b), calls')
    ensures Says(b, calls, Mode(Data, i), d[..Taken(b, d)] + (d[Taken(b, d)..] + Delimiter(b)), AtEnd(b), calls')
  {
    var n := HeldLength(d);
    assert n == Taken(b, d) && Shown(b, d) == d[..n];
    hide Says, ByteStep;
    var st := if n == 1 then DataCr else if n == 2 then DataCrLf else DataCrLfHy;
    var after := d[n..] + Delimiter(b);
    assert d[..n] == "\r\n-"[..n];
    HeldBytes(b, calls, i, n);
    assert after[0] == if n < |d| then d[n] else '\r';
    assert GivesUp(b, Mode(st, i), after[0]);
    SaysHeld(b, calls, Mode(st, i), after, AtEnd(b), calls');
    SaysThen(b, calls, Mode(Data, i), d[..n], Mode(st, i), calls, after, AtEnd(b), calls');
  }

  /** A plain piece goes on until the CR after it, which the piece itself does not see. */
  lemma SaysPlainPiece(b: string, calls: seq<Call>, i: nat, d: string, calls': seq<Call>)
    requires d != [] && d[0] != '\r'
    requires Says(b, calls + [Piece(DataByte, Shown(b, d))], Mode(Data, i), d[Taken(b, d)..] + Delimiter(b), AtEnd(b), calls')
    ensures Says(b, calls, Mode(Data, i), d[..Taken(b, d)] + (d[Taken(b, d)..] + Delimiter(b)), AtEnd(b), calls')
  {
    var n := PlainLength(d);
    assert n == Taken(b, d) && Shown(b, d) == d[..n];
    var piece, after := d[..n], d[n..] + Delimiter(b);
    assert n > 0 && after[0] == '\r';
    PlainRun(b, i, piece);
    DataPiece(b, i, piece);
    hide ByteStep, Run, See, InRun;
    PieceSeen(calls, b, Mode(Data, i), piece);
    SeeConcat(Seen(calls, false), b, Mode(Data, i), piece, after);
    RunConcat(b, Mode(Data, i), piece, after);
    ClosedByCr(b, i, calls + [Piece(DataByte, piece)]);
    assert SeeAll(Seen(calls + [Piece(DataByte, piece)], true), b, Mode(Data, i), after) ==
           SeeAll(Seen(calls + [Piece(DataByte, piece)], false), b, Mode(Data, i), after);
  }

  lemma ClosedByCr(b: string, i: nat, calls: seq<Call>)
    ensures See(Seen(calls, true), b, Mode(Data, i), '\r') == See(Seen(calls, false), b, Mode(Data, i), '\r')
  {
  }

  // ---------- Headers ----------

  function HeaderCalls(h: Header): seq<Call> { [Piece(FieldByte, h.name), Piece(ValueByte, h.value)] }

  function HeadersCalls(hs: seq<Header>): seq<Call> {
    if hs == [] then [Call.Signal(HeadersComplete)] else HeaderCalls(hs[0]) + HeadersCalls(hs[1..])
  }

  /** A run that begins in a state before it. */
  lemma SaysFirst(b: string, calls: seq<Call>, m: Mode, k: Mode, x: string, n: Mode, calls': seq<Call>)
    requires x != [] && SameStep(b, m, k, x[0]) && Says(b, calls, k, x, n, calls')
    ensures Says(b, calls, m, x, n, calls')
  {
    hide ByteStep, GivesUp, Held;
    assert See(Seen(calls, false), b, m, x[0]) == See(Seen(calls, false), b, k, x[0]);
  }

  lemma NameSeen(b: string, calls: seq<Call>, name: string)
    requires name != [] && forall i | 0 <= i < |name| :: IsFieldChar(name[i])
    ensures Says(b, calls, Mode(FieldStart, 0), name + [':'], Mode(ValueStart, 0), calls + [Piece(FieldByte, name)])
  {
    forall i | 0 <= i < |name| ensures InRun(b, Mode(Field, 0), name[i]) {}
    FieldPiece(b, 0, name);
    assert ByteStep(b, Mode(Field, 0), ':') == Next(Mode(ValueStart, 0), []);
    assert (name + [':'])[0] == name[0];
    assert SameStep(b, Mode(FieldStart, 0), Mode(Field, 0), name[0]);
    hide Says, ByteStep, Run, InRun, SameStep;
    SaysRun(b, calls, Mode(Field, 0), name, ':', Mode(ValueStart, 0));
    SaysFirst(b, calls, Mode(FieldStart, 0), Mode(Field, 0), name + [':'], Mode(ValueStart, 0), calls + [Piece(FieldByte, name)]);
  }

  lemma ValueSeen(b: string, calls: seq<Call>, value: string)
    requires value != [] && value[0] != ' ' && value[0] != '\t' && forall i | 0 <= i < |value| :: value[i] != '\r'
    ensures Says(b, calls, Mode(ValueStart, 0), value + ['\r'], Mode(ValueCr, 0), calls + [Piece(ValueByte, value)])
  {
    forall i | 0 <= i < |value| ensures InRun(b, Mode(Value, 0), value[i]) {}
    ValuePiece(b, 0, value);
    assert ByteStep(b, Mode(Value, 0), '\r') == Next(Mode(ValueCr, 0), []);
    assert (value + ['\r'])[0] == value[0];
    assert SameStep(b, Mode(ValueStart, 0), Mode(Value, 0), value[0]);
    hide Says, ByteStep, Run, InRun, SameStep;
    SaysRun(b, calls, Mode(Value, 0), value, '\r', Mode(ValueCr, 0));
    SaysFirst(b, calls, Mode(ValueStart, 0), Mode(Value, 0), value + ['\r'], Mode(ValueCr, 0), calls + [Piece(ValueByte, value)]);
  }

  lemma HeaderSeen(b: string, calls: seq<Call>, h: Header)
    requires Printable(h)
    ensures Says(b, calls, Mode(FieldStart, 0), HeaderLine(h), Mode(FieldStart, 0), calls + HeaderCalls(h))
  {
    hide Says;
    var one := calls + [Piece(FieldByte, h.name)];
    var two := one + [Piece(ValueByte, h.value)];
    NameSeen(b, calls, h.name);
    ValueSeen(b, one, h.value);
    assert one + SignalsOf([]) == one && two + SignalsOf([]) == two;
    SaysOne(b, one, Mode(ValueStart, 0), ' ', Mode(ValueStart, 0), []);
    SaysOne(b, two, Mode(ValueCr, 0), '\n', Mode(FieldStart, 0), []);
    SaysThen(b, calls, Mode(FieldStart, 0), h.name + [':'], Mode(ValueStart, 0), one, [' '], Mode(ValueStart, 0), one);
    SaysThen(b, calls, Mode(FieldStart, 0), h.name + [':'] + [' '], Mode(ValueStart, 0), one, h.value + ['\r'], Mode(ValueCr, 0), two);
    SaysThen(b, calls, Mode(FieldStart, 0), h.name + [':'] + [' '] + (h.value + ['\r']), Mode(ValueCr, 0), two, ['\n'], Mode(FieldStart, 0), two);
    assert h.name + [':'] + [' '] + (h.value + ['\r']) + ['\n'] == HeaderLine(h);
    assert two == calls + HeaderCalls(h);
  }

  lemma {:induction false} HeadersSeen(b: string, calls: seq<Call>, hs: seq<Header>)
    requires forall i | 0 <= i < |hs| :: Printable(hs[i])
    ensures Says(b, calls, Mode(FieldStart, 0), HeaderText(hs), Mode(Data, 0), calls + HeadersCalls(hs))
    decreases |hs|
  {
    hide Says, Printable, HeaderLine, HeaderCalls;
    if hs == [] {
      SaysTwo(b, calls, Mode(FieldStart, 0), '\r', Mode(HeadersDone, 0), '\n', Mode(Data, 0), [Notify(HeadersComplete)]);
      assert SignalsOf([Notify(HeadersComplete)]) == [Call.Signal(HeadersComplete)];
      assert HeaderText(hs) == ['\r', '\n'];
    } else {
      hide ByteStep;
      HeaderSeen(b, calls, hs[0]);
      HeadersSeen(b, calls + HeaderCalls(hs[0]), hs[1..]);
      Regroup(calls, HeaderCalls(hs[0]), HeadersCalls(hs[1..]));
      SaysThen(b, calls, Mode(FieldStart, 0), HeaderLine(hs[0]), Mode(FieldStart, 0), calls + HeaderCalls(hs[0]),
               HeaderText(hs[1..]), Mode(Data, 0), calls + HeadersCalls(hs));
    }
  }

  // ---------- Parts ----------

  function PartCalls(b: string, p: Part): seq<Call> { HeadersCalls(p.headers) + DataCalls(b, p.data) }

  /** The callbacks for some parts, after the first has begun. */
  function PartsCalls(b: string, parts: seq<Part>): seq<Call>
    requires parts != []
  {
    if |parts| == 1 then PartCalls(b, parts[0]) + [Call.Signal(PartEnd), Call.Signal(BodyEnd)]
    else PartCalls(b, parts[0]) + [Call.Signal(PartEnd), Call.Signal(PartBegin)] + PartsCalls(b, parts[1..])
  }

  lemma PartSeen(b: string, calls: seq<Call>, p: Part)
    requires Clean(b, p) && Ascii(b)
    ensures Says(b, calls, Mode(FieldStart, 0), HeaderText(p.headers) + (p.data + Delimiter(b)), AtEnd(b), calls + PartCalls(b, p))
  {
    hide Says, HeadersCalls, DataCalls, HeaderText, Delimiter, Readable, Printable, Ascii;
    HeadersSeen(b, calls, p.headers);
    DataSeen(b, calls + HeadersCalls(p.headers), 0, p.data);
    Regroup(calls, HeadersCalls(p.headers), DataCalls(b, p.data));
    SaysThen(b, calls, Mode(FieldStart, 0), HeaderText(p.headers), Mode(Data, 0), calls + HeadersCalls(p.headers),
             p.data + Delimiter(b), AtEnd(b), calls + PartCalls(b, p));
  }

  lemma EndsSeen(b: string, calls: seq<Call>)
    ensures Says(b, calls, AtEnd(b), CRLF, Mode(FieldStart, 0), calls + [Call.Signal(PartEnd), Call.Signal(PartBegin)])
    ensures Says(b, calls, AtEnd(b), "--", Mode(Epilogue, 0), calls + [Call.Signal(PartEnd), Call.Signal(BodyEnd)])
  {
    hide Says;
    TwoSignals(PartEnd, PartBegin);
    TwoSignals(PartEnd, BodyEnd);
    SaysTwo(b, calls, AtEnd(b), '\r', Mode(BoundaryDoneCrLf, 0), '\n', Mode(FieldStart, 0), [Notify(PartEnd), Notify(PartBegin)]);
    SaysTwo(b, calls, AtEnd(b), '-', Mode(BoundaryDoneHyHy, 0), '-', Mode(Epilogue, 0), [Notify(PartEnd), Notify(BodyEnd)]);
  }

  lemma TwoSignals(s: MultipartStep.Signal, t: MultipartStep.Signal)
    ensures SignalsOf([Notify(s), Notify(t)]) == [Call.Signal(s), Call.Signal(t)]
  {
    assert [Notify(s), Notify(t)][1..] == [Notify(t)] && [Notify(t)][1..] == [];
    assert SignalsOf([Notify(t)]) == [Call.Signal(t)];
  }

  lemma {:induction false} PartsSeen(b: string, calls: seq<Call>, parts: seq<Part>)
    requires parts != [] && Ascii(b) && forall i | 0 <= i < |parts| :: Clean(b, parts[i])
    ensures Says(b, calls, Mode(FieldStart, 0), Inner(b, parts), Mode(Epilogue, 0), calls + PartsCalls(b, parts))
    decreases |parts|
  {
    hide Says, PartCalls, HeaderText, Delimiter, Clean, Ascii, ByteStep;
    var p, tail := parts[0], parts[1..];
    PartSeen(b, calls, p);
    var text := HeaderText(p.headers) + (p.data + Delimiter(b));
    var done := calls + PartCalls(b, p);
    EndsSeen(b, done);
    if tail == [] {
      assert Inner(b, parts) == text + "--";
      SaysThen(b, calls, Mode(FieldStart, 0), text, AtEnd(b), done, "--", Mode(Epilogue, 0), done + [Call.Signal(PartEnd), Call.Signal(BodyEnd)]);
      Regroup(calls, PartCalls(b, p), [Call.Signal(PartEnd), Call.Signal(BodyEnd)]);
    } else {
      var ends := [Call.Signal(PartEnd), Call.Signal(PartBegin)];
      SaysThen(b, calls, Mode(FieldStart, 0), text, AtEnd(b), done, CRLF, Mode(FieldStart, 0), done + ends);
      PartsSeen(b, done + ends, tail);
      SaysThen(b, calls, Mode(FieldStart, 0), text + CRLF, Mode(FieldStart, 0), done + ends,
               Inner(b, tail), Mode(Epilogue, 0), done + ends + PartsCalls(b, tail));
      assert Inner(b, parts) == text + CRLF + Inner(b, tail);
      Regroup(calls, PartCalls(b, p), ends);
      Regroup(calls, PartCalls(b, p) + ends, PartsCalls(b, tail));
    }
  }

  lemma {:induction false} FirstBoundarySeen(b: string, calls: seq<Call>, k: nat)
    requires Ascii(b) && k <= |b|
    ensures Says(b, calls, Mode(FirstBoundary, 0), b[..k], Mode(FirstBoundary, k), calls)
    decreases k
  {
    if k > 0 {
      hide Says;
      FirstBoundarySeen(b, calls, k - 1);
      SliceSnoc(b, 0, k - 1);
      assert b[..k] == b[..k - 1] + [b[k - 1]];
      assert calls + SignalsOf([]) == calls;
      SaysOne(b, calls, Mode(FirstBoundary, k - 1), b[k - 1], Mode(FirstBoundary, k), []);
      SaysThen(b, calls, Mode(FirstBoundary, 0), b[..k - 1], Mode(FirstBoundary, k - 1), calls, [b[k - 1]], Mode(FirstBoundary, k), calls);
    }
  }

  function BodyCalls(b: string, parts: seq<Part>): seq<Call>
    requires parts != []
  {
    [Call.Signal(BodyBegin), Call.Signal(PartBegin)] + PartsCalls(b, parts)
  }

  /** The callbacks for a printed body that arrives in one call: a name, a value and the pieces of the data in one
      callback each. */
  lemma BodySeen(b: string, parts: seq<Part>)
    requires parts != [] && Ascii(b) && forall i | 0 <= i < |parts| :: Clean(b, parts[i])
    ensures Says(b, [], Mode(Preamble, 0), Body(b, parts), Mode(Epilogue, 0), BodyCalls(b, parts))
  {
    hide Says, PartsCalls, Inner, Clean, Ascii, Body;
    var start := [Call.Signal(BodyBegin), Call.Signal(PartBegin)];
    FirstSeen(b);
    PartsSeen(b, start, parts);
    SaysThen(b, [], Mode(Preamble, 0), "--" + b + CRLF, Mode(FieldStart, 0), start, Inner(b, parts), Mode(Epilogue, 0), BodyCalls(b, parts));
    BodyText(b, parts);
  }

  lemma FirstSeen(b: string)
    requires Ascii(b)
    ensures Says(b, [], Mode(Preamble, 0), "--" + b + CRLF, Mode(FieldStart, 0), [Call.Signal(BodyBegin), Call.Signal(PartBegin)])
  {
    hide Says, Ascii;
    var none: seq<Call> := [];
    assert none + SignalsOf([]) == none;
    SaysTwo(b, none, Mode(Preamble, 0), '-', Mode(PreambleHy, 0), '-', Mode(FirstBoundary, 0), []);
    FirstBoundarySeen(b, none, |b|);
    assert b[..|b|] == b;
    TwoSignals(BodyBegin, PartBegin);
    SaysTwo(b, none, Mode(FirstBoundary, |b|), '\r', Mode(FirstBoundary, |b| + 1), '\n', Mode(FieldStart, 0),
            [Notify(BodyBegin), Notify(PartBegin)]);
    var start := [Call.Signal(BodyBegin), Call.Signal(PartBegin)];
    assert none + start == start;
    SaysThen(b, none, Mode(Preamble, 0), "--", Mode(FirstBoundary, 0), none, b, Mode(FirstBoundary, |b|), none);
    SaysThen(b, none, Mode(Preamble, 0), "--" + b, Mode(FirstBoundary, |b|), none, CRLF, Mode(FieldStart, 0), start);
  }

  // ---------- The same byte by byte ----------

  lemma {:induction false} FlatConcat(a: seq<Call>, b: seq<Call>)
    ensures Flat(a + b) == Flat(a) + Flat(b)
    decreases |b|
  {
    if b == [] {
      assert a + b == a && Flat(a) + [] == Flat(a);
    } else {
      var init, last := b[..|b| - 1], b[|b| - 1];
      assert b == init + [last] && a + b == (a + init) + [last];
      hide Flat, CallEvents;
      FlatConcat(a, init);
      FlatSnoc(init, last);
      FlatSnoc(a + init, last);
      Regroup(Flat(a), Flat(init), CallEvents(last));
    }
  }

  lemma FlatOne(call: Call)
    ensures Flat([]) == [] && Flat([call]) == CallEvents(call)
  {
    FlatSnoc([], call);
    assert [] + [call] == [call] && [] + CallEvents(call) == CallEvents(call);
  }

  lemma FlatTwo(c: Call, d: Call)
    ensures Flat([c, d]) == CallEvents(c) + CallEvents(d)
  {
    hide Flat, CallEvents;
    FlatOne(c);
    FlatOne(d);
    FlatConcat([c], [d]);
    assert [c] + [d] == [c, d];
  }

  /** What the calls report is what the bytes mean. */
  lemma Reported(b: string, m: Mode, x: string, k: Mode, calls: seq<Call>)
    requires Says(b, [], m, x, k, calls)
    ensures Run(b, m, x) == Done(k, Flat(calls))
  {
    hide Run, SeeAll;
    CallsReport(Seen([], false), b, m, x);
    assert Flat([]) == [];
  }

  function PartEvents(b: string, p: Part): Log { HeadersEvents(p.headers) + Bytes(DataByte, Stripped(b, p.data)) }

  /** What the callbacks see for some parts, after the first has begun. */
  function PartsEvents(b: string, parts: seq<Part>): Log
    requires parts != []
  {
    if |parts| == 1 then PartEvents(b, parts[0]) + [Notify(PartEnd), Notify(BodyEnd)]
    else PartEvents(b, parts[0]) + [Notify(PartEnd), Notify(PartBegin)] + PartsEvents(b, parts[1..])
  }

  lemma {:induction false} DataFlat(b: string, d: string)
    ensures Flat(DataCalls(b, d)) == Bytes(DataByte, Stripped(b, d))
    decreases |d|
  {
    if d == [] {
      NoCalls(b, d);
    } else {
      hide Flat, Bytes, DataCalls, Stripped;
      var n, piece := Taken(b, d), Piece(DataByte, Shown(b, d));
      CutStep(b, d, []);
      DataFlat(b, d[n..]);
      FlatConcat([piece], DataCalls(b, d[n..]));
      FlatOne(piece);
      BytesConcat(DataByte, Shown(b, d), Stripped(b, d[n..]));
    }
  }

  lemma {:induction false} HeadersFlat(hs: seq<Header>)
    ensures Flat(HeadersCalls(hs)) == HeadersEvents(hs)
    decreases |hs|
  {
    hide Flat;
    if hs == [] {
      FlatOne(Call.Signal(HeadersComplete));
    } else {
      HeadersFlat(hs[1..]);
      FlatTwo(Piece(FieldByte, hs[0].name), Piece(ValueByte, hs[0].value));
      FlatConcat(HeaderCalls(hs[0]), HeadersCalls(hs[1..]));
    }
  }

  lemma PartFlat(b: string, p: Part)
    ensures Flat(PartCalls(b, p)) == PartEvents(b, p)
  {
    hide Flat, HeadersCalls, DataCalls;
    HeadersFlat(p.headers);
    DataFlat(b, p.data);
    FlatConcat(HeadersCalls(p.headers), DataCalls(b, p.data));
  }

  lemma {:induction false} PartsFlat(b: string, parts: seq<Part>)
    requires parts != []
    ensures Flat(PartsCalls(b, parts)) == PartsEvents(b, parts)
    decreases |parts|
  {
    hide Flat, PartCalls, PartEvents;
    var ends, more := [Call.Signal(PartEnd), Call.Signal(BodyEnd)], [Call.Signal(PartEnd), Call.Signal(PartBegin)];
    PartFlat(b, parts[0]);
    FlatTwo(ends[0], ends[1]);
    FlatTwo(more[0], more[1]);
    FlatConcat(PartCalls(b, parts[0]), ends);
    FlatConcat(PartCalls(b, parts[0]), more);
    if |parts| > 1 {
      PartsFlat(b, parts[1..]);
      FlatConcat(PartCalls(b, parts[0]) + more, PartsCalls(b, parts[1..]));
    }
  }

  /** Exactly what is reported of the data of a part, whatever it is, when the delimiter follows. */
  lemma PartData(b: string, d: string)
    requires Readable(b, d) && Ascii(b)
    ensures Run(b, Mode(Data, 0), d + Delimiter(b)) == Done(AtEnd(b), Bytes(DataByte, Stripped(b, d)))
  {
    hide Run, Says, Flat, Bytes, DataCalls, Delimiter, Readable;
    DataSeen(b, [], 0, d);
    assert [] + DataCalls(b, d) == DataCalls(b, d);
    Reported(b, Mode(Data, 0), d + Delimiter(b), AtEnd(b), DataCalls(b, d));
    DataFlat(b, d);
  }

  lemma HeadersRun(b: string, hs: seq<Header>)
    requires forall i | 0 <= i < |hs| :: Printable(hs[i])
    ensures Run(b, Mode(FieldStart, 0), HeaderText(hs)) == Done(Mode(Data, 0), HeadersEvents(hs))
  {
    hide Run, Says, Flat, HeadersCalls, HeadersEvents, HeaderText, Printable;
    HeadersSeen(b, [], hs);
    assert [] + HeadersCalls(hs) == HeadersCalls(hs);
    Reported(b, Mode(FieldStart, 0), HeaderText(hs), Mode(Data, 0), HeadersCalls(hs));
    HeadersFlat(hs);
  }

  /** Section 5.1.1 of RFC 2046: the printed body is taken whole and reports every part. */
  lemma BodyRun(b: string, parts: seq<Part>)
    requires parts != [] && Ascii(b) && forall i | 0 <= i < |parts| :: Clean(b, parts[i])
    ensures Run(b, Mode(Preamble, 0), Body(b, parts)) ==
            Done(Mode(Epilogue, 0), [Notify(BodyBegin), Notify(PartBegin)] + PartsEvents(b, parts))
  {
    hide Run, Says, Flat, PartsCalls, PartsEvents, Body, Clean, Ascii;
    var start := [Call.Signal(BodyBegin), Call.Signal(PartBegin)];
    BodySeen(b, parts);
    Reported(b, Mode(Preamble, 0), Body(b, parts), Mode(Epilogue, 0), BodyCalls(b, parts));
    FlatConcat(start, PartsCalls(b, parts));
    FlatTwo(start[0], start[1]);
    PartsFlat(b, parts);
  }

  // ---------- The handlers ----------

  /** A part as a request holds it. */
  datatype FormPart = FormPart(headers: map<string, string>, data: string)

  /** The parts found so far and the name that waits for its value. */
  datatype Form = Form(parts: seq<FormPart>, temp: string)

  function SetLast(f: Form, p: FormPart): Form {
    if f.parts == [] then f else f.(parts := f.parts[..|f.parts| - 1] + [p])
  }

  /** What a handler does. A piece of data replaces the data of the last part. */
  function Handle(f: Form, call: Call): Form {
    var last := if f.parts == [] then FormPart(map[], "") else f.parts[|f.parts| - 1];
    match call
    case Signal(PartBegin) => f.(parts := f.parts + [FormPart(map[], "")])
    case Signal(_) => f
    case Piece(FieldByte, text) => f.(temp := f.temp + text)
    case Piece(ValueByte, text) => SetLast(f, last.(headers := last.headers[f.temp := text])).(temp := "")
    case Piece(DataByte, text) => SetLast(f, last.(data := text))
  }

  function HandleAll(f: Form, calls: seq<Call>): Form
    decreases |calls|
  {
    if calls == [] then f else HandleAll(Handle(f, calls[0]), calls[1..])
  }

  lemma {:induction false} HandleConcat(f: Form, a: seq<Call>, b: seq<Call>)
    ensures HandleAll(f, a + b) == HandleAll(HandleAll(f, a), b)
    decreases |a|
  {
    if a == [] {
      assert a + b == b;
    } else {
      assert (a + b)[1..] == a[1..] + b;
      HandleConcat(Handle(f, a[0]), a[1..], b);
    }
  }

  lemma HandleOne(f: Form, call: Call)
    ensures HandleAll(f, [call]) == Handle(f, call)
  {
    assert [call][1..] == [];
  }

  lemma HandleTwo(f: Form, c: Call, d: Call)
    ensures HandleAll(f, [c, d]) == Handle(Handle(f, c), d)
  {
    assert [c] + [d] == [c, d];
    HandleConcat(f, [c], [d]);
    HandleOne(f, c);
    HandleOne(Handle(f, c), d);
  }

  /** Headers stored by name: a later one of the same name wins. */
  function Stored(m: map<string, string>, hs: seq<Header>): map<string, string>
    decreases |hs|
  {
    if hs == [] then m else Stored(m[hs[0].name := hs[0].value], hs[1..])
  }

  ghost predicate DistinctNames(hs: seq<Header>) { forall i, j | 0 <= i < j < |hs| :: hs[i].name != hs[j].name }

  lemma {:induction false} StoredOther(m: map<string, string>, hs: seq<Header>, name: string)
    requires forall i | 0 <= i < |hs| :: hs[i].name != name
    ensures name in Stored(m, hs) <==> name in m
    ensures name in m ==> Stored(m, hs)[name] == m[name]
    decreases |hs|
  {
    if hs != [] { StoredOther(m[hs[0].name := hs[0].value], hs[1..], name); }
  }

  /** Headers of different names are all kept. */
  lemma {:induction false} StoredExact(m: map<string, string>, hs: seq<Header>, i: nat)
    requires DistinctNames(hs) && i < |hs|
    ensures hs[i].name in Stored(m, hs) && Stored(m, hs)[hs[i].name] == hs[i].value
    decreases |hs|
  {
    var h, tail := hs[0], hs[1..];
    assert forall k | 0 <= k < |tail| :: tail[k] == hs[k + 1];
    if i == 0 { StoredOther(m[h.name := h.value], tail, h.name); } else { StoredExact(m[h.name := h.value], tail, i - 1); }
  }

  /** The data that is left after its callbacks: the last piece. */
  function Kept(b: string, d: string): string { LastOf(Cut(b, d), "") }

  function LastOf(texts: seq<string>, otherwise: string): string { if texts == [] then otherwise else texts[|texts| - 1] }

  function KeptPart(b: string, p: Part): FormPart { FormPart(Stored(map[], p.headers), Kept(b, p.data)) }

  function KeptParts(b: string, parts: seq<Part>): seq<FormPart> {
    seq(|parts|, i requires 0 <= i < |parts| => KeptPart(b, parts[i]))
  }

  /** The parts found so far, the last of which is `p`. */
  function With(done: seq<FormPart>, p: FormPart): Form { Form(done + [p], "") }

  lemma HandleLast(done: seq<FormPart>, p: FormPart, q: FormPart)
    ensures SetLast(With(done, p), q) == With(done, q) && With(done, p).parts[|done|] == p
  {
    assert (done + [p])[..|done|] == done;
  }

  lemma {:induction false} HeadersHandled(done: seq<FormPart>, m: map<string, string>, hs: seq<Header>)
    ensures HandleAll(With(done, FormPart(m, "")), HeadersCalls(hs)) == With(done, FormPart(Stored(m, hs), ""))
    decreases |hs|
  {
    var f := With(done, FormPart(m, ""));
    if hs == [] {
      HandleOne(f, Call.Signal(HeadersComplete));
    } else {
      var m' := m[hs[0].name := hs[0].value];
      HandleLast(done, FormPart(m, ""), FormPart(m', ""));
      HandleTwo(f, Piece(FieldByte, hs[0].name), Piece(ValueByte, hs[0].value));
      assert "" + hs[0].name == hs[0].name;
      assert HandleAll(f, HeaderCalls(hs[0])) == With(done, FormPart(m', ""));
      hide HandleAll, Handle, With, HeaderCalls;
      HandleConcat(f, HeaderCalls(hs[0]), HeadersCalls(hs[1..]));
      HeadersHandled(done, m', hs[1..]);
    }
  }

  lemma {:induction false} DataHandled(done: seq<FormPart>, m: map<string, string>, d: string, texts: seq<string>)
    ensures HandleAll(With(done, FormPart(m, d)), Pieces(texts)) == With(done, FormPart(m, LastOf(texts, d)))
    decreases |texts|
  {
    if texts != [] {
      var f, piece := With(done, FormPart(m, d)), Piece(DataByte, texts[0]);
      HandleLast(done, FormPart(m, d), FormPart(m, texts[0]));
      assert Handle(f, piece) == With(done, FormPart(m, texts[0]));
      hide HandleAll, Handle, With;
      HandleConcat(f, [piece], Pieces(texts[1..]));
      HandleOne(f, piece);
      DataHandled(done, m, texts[0], texts[1..]);
    }
  }

  lemma {:induction false} PartsHandled(b: string, done: seq<FormPart>, parts: seq<Part>)
    requires parts != []
    ensures HandleAll(With(done, FormPart(map[], "")), PartsCalls(b, parts)) == Form(done + KeptParts(b, parts), "")
    decreases |parts|
  {
    hide HandleAll, HeadersCalls, DataCalls, Stored, Cut;
    var f := With(done, FormPart(map[], ""));
    var p, tail := parts[0], parts[1..];
    var g := With(done, KeptPart(b, p));
    PartHandled(b, done, p);
    if tail == [] {
      HandleConcat(f, PartCalls(b, p), [Call.Signal(PartEnd), Call.Signal(BodyEnd)]);
      HandleTwo(g, Call.Signal(PartEnd), Call.Signal(BodyEnd));
      assert KeptParts(b, parts) == [KeptPart(b, p)];
    } else {
      var ends := [Call.Signal(PartEnd), Call.Signal(PartBegin)];
      HandleConcat(f, PartCalls(b, p), ends);
      HandleTwo(g, Call.Signal(PartEnd), Call.Signal(PartBegin));
      HandleConcat(f, PartCalls(b, p) + ends, PartsCalls(b, tail));
      PartsHandled(b, done + [KeptPart(b, p)], tail);
      assert KeptParts(b, parts) == [KeptPart(b, p)] + KeptParts(b, tail);
      Regroup(done, [KeptPart(b, p)], KeptParts(b, tail));
    }
  }

  lemma PartHandled(b: string, done: seq<FormPart>, p: Part)
    ensures HandleAll(With(done, FormPart(map[], "")), PartCalls(b, p)) == With(done, KeptPart(b, p))
  {
    hide HandleAll, HeadersCalls, Stored, Cut, Pieces, With;
    var f := With(done, FormPart(map[], ""));
    HeadersHandled(done, map[], p.headers);
    HandleConcat(f, HeadersCalls(p.headers), DataCalls(b, p.data));
    DataHandled(done, Stored(map[], p.headers), "", Cut(b, p.data));
  }

  // ---------- When data is kept ----------

  /** At most one callback: no CR, or nothing but the beginning of a delimiter. */
  ghost predicate OneCallback(d: string) {
    (forall i | 0 <= i < |d| :: d[i] != '\r') || d == "\r" || d == "\r\n" || d == "\r\n-"
  }

  lemma {:induction false} LastPieceShort(b: string, d: string)
    ensures |LastOf(Cut(b, d), "")| <= |d|
    decreases |d|
  {
    if d != [] {
      hide Cut, Stripped, DataCalls;
      CutStep(b, d, "");
      LastPieceShort(b, d[Taken(b, d)..]);
    } else {
      NoPieces(b, d);
    }
  }

  /** Exactly when the data of a part survives its callbacks. */
  lemma KeptExact(b: string, d: string)
    ensures Kept(b, d) == d <==> OneCallback(d)
  {
    if d != [] {
      var n := Taken(b, d);
      var tail := d[n..];
      hide Cut, Stripped, DataCalls, Taken, OneCallback;
      CutStep(b, d, "");
      NoPieces(b, tail);
      TakenWhole(b, d);
      if tail != [] { LastPieceShort(b, tail); }
    } else {
      NoPieces(b, d);
    }
  }

  lemma NoPieces(b: string, d: string)
    ensures d == [] <==> Cut(b, d) == []
  {
  }

  /** Data that is taken at once and reported as it is. */
  lemma TakenWhole(b: string, d: string)
    requires d != []
    ensures OneCallback(d) <==> Taken(b, d) == |d| && !StopsAt(d, 0)
    ensures Taken(b, d) == |d| ==> d[Taken(b, d)..] == [] && (Shown(b, d) == d <==> !StopsAt(d, 0))
  {
    if Taken(b, d) == |d| {
      assert d[0..|d|] == d;
      if !StopsAt(d, 0) && d[0] == '\r' { assert d == "\r" || d == "\r\n" || d == "\r\n-"; }
    }
  }

  /** Data with a CR in it comes back without what is before: the last callback replaces the others. */
  lemma DataReplaced(b: string)
    ensures Clean(b, Part([], "a\rb")) && Cut(b, "a\rb") == ["a", "\r", "b"] && Kept(b, "a\rb") == "b"
  {
    var d := "a\rb";
    assert PlainLength(d) == 1 by { assert d[1..][0] == '\r'; }
    assert PlainLength("b") == 1 by { assert "b"[1..] == ""; }
    assert d[1..] == "\rb" && d[..1] == d[0..1] == "a";
    assert "\rb"[1..] == "b" && "\rb"[0..1] == "\r" && "b"[1..] == "" && "b"[0..1] == "b";
    assert Taken(b, d) == 1 && Taken(b, "\rb") == 1 && Taken(b, "b") == 1;
    CutStep(b, d, "");
    CutStep(b, "\rb", "");
    CutStep(b, "b", "");
    assert Cut(b, "") == [];
    assert Readable(b, "") && Readable(b, "b") && Readable(b, "\rb");
  }

  /** A printed body that is parsed in one call: every part comes back in order, with its headers by name, and with
      its data if and only if there was at most one callback for it. */
  lemma RoundTrip(b: string, parts: seq<Part>)
    requires parts != [] && Ascii(b) && forall i | 0 <= i < |parts| :: Clean(b, parts[i])
    ensures var r := Run(b, Mode(Preamble, 0), Body(b, parts));
            var f := HandleAll(Form([], ""), SeeAll(Seen([], false), b, Mode(Preamble, 0), Body(b, parts)).calls);
            && r.Done? && r.m.state == Epilogue
            && f == Form(KeptParts(b, parts), "")
            && forall i | 0 <= i < |parts| ::
                 && f.parts[i].headers == Stored(map[], parts[i].headers)
                 && (f.parts[i].data == parts[i].data <==> OneCallback(parts[i].data))
  {
    hide HandleAll, SeeAll, Run, PartsCalls, Clean, Ascii, Body, Stored, Kept, OneCallback;
    BodySeen(b, parts);
    var start := [Call.Signal(BodyBegin), Call.Signal(PartBegin)];
    HandleTwo(Form([], ""), Call.Signal(BodyBegin), Call.Signal(PartBegin));
    HandleConcat(Form([], ""), start, PartsCalls(b, parts));
    PartsHandled(b, [], parts);
    assert [] + KeptParts(b, parts) == KeptParts(b, parts);
    forall i | 0 <= i < |parts| ensures Kept(b, parts[i].data) == parts[i].data <==> OneCallback(parts[i].data) {
      KeptExact(b, parts[i].data);
    }
  }

  // ---------- The body as an object ----------

  class HttpRequestMultipartBody {
    const parser: Parser
    var multiparts: seq<FormPart>
    /** Shared by all bodies in the source. */
    var headerFieldTemp: string

    ghost predicate Valid()
      reads this, parser
    {
      parser.Valid()
    }

    function View(): Form
      reads this
    {
      Form(multiparts, headerFieldTemp)
    }

    constructor (boundary: string)
      requires Storable(boundary)
      ensures Valid() && fresh(parser) && parser.boundary == boundary && parser.View() == Mode(Preamble, 0) && parser.calls == []
      ensures View() == Form([], "")
    {
      parser := new Parser(boundary);
      multiparts, headerFieldTemp := [], "";
    }

    method HandlePartBegin()
      modifies this`multiparts
      ensures View() == Handle(old(View()), Call.Signal(PartBegin))
    {
      multiparts := multiparts + [FormPart(map[], "")];
    }

    method HandleHeaderField(text: string)
      modifies this`headerFieldTemp
      ensures View() == Handle(old(View()), Piece(FieldByte, text))
    {
      headerFieldTemp := headerFieldTemp + text;
    }

    method HandleHeaderValue(text: string)
      modifies this
      ensures View() == Handle(old(View()), Piece(ValueByte, text))
    {
      if multiparts != [] {
        var back := multiparts[|multiparts| - 1];
        multiparts := multiparts[..|multiparts| - 1] + [back.(headers := back.headers[headerFieldTemp := text])];
      }
      headerFieldTemp := "";
    }

    method HandleData(text: string)
      modifies this`multiparts
      ensures View() == Handle(old(View()), Piece(DataByte, text))
    {
      if multiparts != [] {
        multiparts := multiparts[..|multiparts| - 1] + [multiparts[|multiparts| - 1].(data := text)];
      }
    }

    method HandleCall(call: Call)
      modifies this
      ensures View() == Handle(old(View()), call)
    {
      match call {
        case Signal(s) => if s == PartBegin { HandlePartBegin(); }
        case Piece(FieldByte, text) => HandleHeaderField(text);
        case Piece(ValueByte, text) => HandleHeaderValue(text);
        case Piece(DataByte, text) => HandleData(text);
      }
    }

    /** Parses some of a body: the handlers are called in the order of the parser's callbacks. */
    method SetData(data: string) returns (ok: bool)
      requires Valid()
      modifies this, parser
      ensures Valid() && parser.boundary == old(parser.boundary)
      ensures old(parser.boundary) == "" ==> !ok && View() == old(View()) && parser.View() == old(parser.View())
      ensures old(parser.boundary) != "" ==>
                && ok == Run(parser.boundary, old(parser.View()), data).Done?
                && parser.calls == SeeAll(Seen(old(parser.calls), false), parser.boundary, old(parser.View()), data).calls
                && old(parser.calls) <= parser.calls
                && View() == HandleAll(old(View()), parser.calls[|old(parser.calls)|..])
    {
      hide Run, SeeAll, Flat, Handle;
      if |parser.boundary| == 0 { return false; }
      var from := |parser.calls|;
      SeeGrows(parser.calls, Seen(parser.calls, false), parser.boundary, parser.View(), data);
      var n := parser.Execute(data);
      ok := n == |data|;
      ghost var calls := parser.calls;
      assert calls[from..from] == [];
      for i := from to |parser.calls|
        invariant parser.calls == calls && parser.Valid() && parser.boundary == old(parser.boundary)
        invariant View() == HandleAll(old(View()), calls[from..i])
      {
        SliceSnoc(calls, from, i);
        HandleConcat(old(View()), calls[from..i], [calls[i]]);
        HandleOne(View(), calls[i]);
        HandleCall(parser.calls[i]);
      }
      assert calls[from..|calls|] == calls[from..];
    }
  }

  /** Calls of earlier buffers are never touched. */
  lemma {:induction false} SeeGrows(calls: seq<Call>, s: Seen, b: string, m: Mode, data: string)
    requires calls <= s.calls && (s.open ==> |calls| < |s.calls|)
    ensures calls <= SeeAll(s, b, m, data).calls
    decreases |data|
  {
    if data != [] {
      hide ByteStep, GivesUp, Held;
      SeeKeeps(calls, s, b, m, data[0]);
      hide See;
      var step := ByteStep(b, m, data[0]);
      if step.Next? { SeeGrows(calls, See(s, b, m, data[0]), b, step.m, data[1..]); }
    }
  }

  lemma SeeKeeps(calls: seq<Call>, s: Seen, b: string, m: Mode, c: char)
    requires calls <= s.calls && (s.open ==> |calls| < |s.calls|)
    ensures var t := See(s, b, m, c); calls <= t.calls && (t.open ==> |calls| < |t.calls|)
  {
    hide ByteStep, GivesUp, Held, SignalsOf;
  }

  /** Printer, parser and handlers as objects. */
  method Transmit(b: string, parts: seq<MultipartPart>, ghost views: seq<Part>) returns (body: HttpRequestMultipartBody, ok: bool, length: int)
    requires Are(parts, views) && parts != [] && b != "" && Ascii(b) && Storable(b) && forall i | 0 <= i < |views| :: Clean(b, views[i])
    modifies parts
    ensures ok && body.multiparts == KeptParts(b, views) && length == Wrap32(|Body(b, views)|)
  {
    hide Run, Body, Clean, SeeAll, HandleAll, Ascii, Wrap32;
    var packets;
    length, packets := SendMultipart(b, parts, views);
    RoundTrip(b, views);
    var text := Joined(packets);
    assert text[2..] == Body(b, views);
    body := new HttpRequestMultipartBody(b);
    ok := body.SetData(text[2..]);
    assert body.parser.calls[0..] == body.parser.calls;
  }

  /** The bytes of the packets one after the other. */
  method Joined(packets: seq<string>) returns (text: string)
    ensures text == Concat(packets)
  {
    text := "";
    for i := 0 to |packets|
      invariant text == Concat(packets[..i])
    {
      assert packets[..i + 1][..i] == packets[..i];
      text := text + packets[i];
    }
    assert packets[..|packets|] == packets;
  }
}
