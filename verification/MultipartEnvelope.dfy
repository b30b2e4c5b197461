/** What stands around the parts of a multipart body, and what the parser refuses: the text before the first boundary,
    the line of that boundary, header names and line ends, what follows a delimiter, and the text behind the last. */
module MultipartEnvelope {
  import opened Sequences
  import opened MultipartStep
  import opened MultipartTrip
  import opened MultipartRoundTrip
  import opened MultipartBody

  // ---------- Before and behind the parts ----------

  /** A text in which two hyphens never stand side by side, and that does not end in one. */
  predicate NoPair(s: string) { s == [] || (s[|s| - 1] != '-' && forall i | 0 <= i < |s| - 1 :: !(s[i] == '-' && s[i + 1] == '-')) }

  lemma {:induction false} PreambleRun(b: string, m: Mode, s: string)
    requires (m.state == Preamble || (m.state == PreambleHy && s != [] && s[0] != '-')) && NoPair(s)
    ensures Run(b, m, s) == Done(Mode(Preamble, m.index), [])
    decreases |s|
  {
    if s != [] {
      var next := Mode(if m.state == Preamble && s[0] == '-' then PreambleHy else Preamble, m.index);
      assert ByteStep(b, m, s[0]) == Next(next, []);
      hide ByteStep;
      var tail := s[1..];
      assert forall i | 0 <= i < |tail| :: tail[i] == s[i + 1];
      PreambleRun(b, next, tail);
    }
  }

  lemma {:induction false} EpilogueRun(b: string, i: nat, s: string)
    ensures Run(b, Mode(Epilogue, i), s) == Done(Mode(Epilogue, i), [])
    decreases |s|
  {
    if s != [] { EpilogueRun(b, i, s[1..]); }
  }

  /** Section 5.1.1 of RFC 2046: a text before the first boundary without two hyphens side by side, and any text behind
      the last, change nothing. */
  lemma Envelope(b: string, before: string, parts: seq<Part>, behind: string)
    requires NoPair(before) && parts != [] && Ascii(b) && forall i | 0 <= i < |parts| :: Clean(b, parts[i])
    ensures Run(b, Mode(Preamble, 0), before + (Body(b, parts) + behind)) ==
            Done(Mode(Epilogue, 0), [Notify(BodyBegin), Notify(PartBegin)] + PartsEvents(b, parts))
  {
    hide Run, Body, PartsEvents, Clean, Ascii, NoPair;
    PreambleRun(b, Mode(Preamble, 0), before);
    BodyRun(b, parts);
    EpilogueRun(b, 0, behind);
    RunConcat(b, Mode(Preamble, 0), Body(b, parts), behind);
    RunConcat(b, Mode(Preamble, 0), before, Body(b, parts) + behind);
    var events := [Notify(BodyBegin), Notify(PartBegin)] + PartsEvents(b, parts);
    assert events + [] == events && [] + events == events;
  }

  // ---------- The line of the first boundary ----------

  lemma FirstStep(b: string, k: nat, c: char)
    requires Ascii(b) && k < |b| + 2
    ensures var r := ByteStep(b, Mode(FirstBoundary, k), c);
            if c == (b + CRLF)[k] then r.Next? && (k < |b| + 1 ==> r == Next(Mode(FirstBoundary, k + 1), []))
            else r.Error?
  {
    if k < |b| { assert (b + CRLF)[k] == b[k]; }
  }

  lemma {:induction false} FirstFrom(b: string, k: nat, s: string)
    requires Ascii(b) && k + |s| == |b| + 2 && s != []
    ensures Run(b, Mode(FirstBoundary, k), s).Done? <==> s == (b + CRLF)[k..]
    decreases |s|
  {
    hide ByteStep, Ascii;
    var t := b + CRLF;
    FirstStep(b, k, s[0]);
    assert s == [s[0]] + s[1..] && t[k..] == [t[k]] + t[k + 1..];
    if |s| > 1 {
      FirstFrom(b, k + 1, s[1..]);
    } else {
      assert s[1..] == [];
    }
  }

  /** Two hyphens side by side are the start of the first boundary wherever they stand: the boundary and a line end
      must follow at once, and anything else is an error. */
  lemma FirstExact(b: string, before: string, s: string)
    requires Ascii(b) && NoPair(before) && |s| == |b| + 2
    ensures Run(b, Mode(Preamble, 0), before + ("--" + s)).Done? <==> s == b + CRLF
  {
    hide Run, Ascii, NoPair;
    PreambleRun(b, Mode(Preamble, 0), before);
    Hyphens(b);
    FirstFrom(b, 0, s);
    assert (b + CRLF)[0..] == b + CRLF;
    RunConcat(b, Mode(Preamble, 0), "--", s);
    RunConcat(b, Mode(Preamble, 0), before, "--" + s);
  }

  lemma Hyphens(b: string)
    ensures Run(b, Mode(Preamble, 0), "--") == Done(Mode(FirstBoundary, 0), [])
  {
    assert ByteStep(b, Mode(Preamble, 0), '-') == Next(Mode(PreambleHy, 0), []);
    assert ByteStep(b, Mode(PreambleHy, 0), '-') == Next(Mode(FirstBoundary, 0), []);
    hide ByteStep;
    RunOne(b, Mode(Preamble, 0), '-');
    RunOne(b, Mode(PreambleHy, 0), '-');
    RunConcat(b, Mode(Preamble, 0), "-", "-");
    assert "-" + "-" == "--";
  }

  // ---------- Names and line ends ----------

  /** A text up to the colon is taken as a name if and only if its bytes are those of a name; no byte at all will do. */
  lemma {:induction false} NameExact(b: string, m: Mode, s: string)
    requires (m.state == FieldStart && (s == [] || s[0] != '\r')) || m.state == Field
    requires ':' !in s
    ensures var r := Run(b, m, s + ":");
            if forall i | 0 <= i < |s| :: IsFieldChar(s[i]) then r == Done(Mode(ValueStart, m.index), Bytes(FieldByte, s)) else r.Fault?
    decreases |s|
  {
    hide IsFieldChar;
    if s == [] {
      RunOne(b, m, ':');
      assert s + ":" == [':'];
      ColonEnds(b, m);
    } else {
      var tail := s[1..];
      assert s + ":" == [s[0]] + (tail + ":") && (s + ":")[1..] == tail + ":";
      assert forall i | 0 <= i < |tail| :: tail[i] == s[i + 1];
      assert forall i | 0 < i < |s| :: s[i] == tail[i - 1];
      NameByte(b, m, s[0]);
      hide ByteStep;
      NameExact(b, Mode(Field, m.index), tail);
    }
  }

  lemma ColonEnds(b: string, m: Mode)
    requires m.state == FieldStart || m.state == Field
    ensures ByteStep(b, m, ':') == Next(Mode(ValueStart, m.index), [])
  {
  }

  lemma NameByte(b: string, m: Mode, c: char)
    requires (m.state == FieldStart && c != '\r') || m.state == Field
    requires c != ':'
    ensures ByteStep(b, m, c) == if IsFieldChar(c) then Next(Mode(Field, m.index), [Byte(FieldByte, c)]) else Error
  {
    hide IsFieldChar;
  }

  /** Blanks behind the colon are no part of the value. */
  lemma {:induction false} BlanksPassed(b: string, i: nat, s: string)
    requires forall k | 0 <= k < |s| :: s[k] == ' ' || s[k] == '\t'
    ensures Run(b, Mode(ValueStart, i), s) == Done(Mode(ValueStart, i), [])
    decreases |s|
  {
    if s != [] { BlanksPassed(b, i, s[1..]); }
  }

  /** A carriage return in a header is followed by a line feed and nothing else. */
  lemma FeedExact(b: string, m: Mode, c: char)
    requires m.state == ValueCr || m.state == MultipartStep.HeadersDone || m.state == BoundaryDoneCrLf
    ensures ByteStep(b, m, c).Next? <==> c == '\n'
  {
  }

  /** A delimiter that is complete is followed by a line end, before another part, or by two hyphens, before the end;
      anything else is an error. */
  lemma DelimiterExact(b: string, s: string)
    requires |s| == 2
    ensures var r := Run(b, AtEnd(b), s);
            if s == CRLF then r == Done(Mode(FieldStart, 0), [Notify(PartEnd), Notify(PartBegin)])
            else if s == "--" then r == Done(Mode(Epilogue, 0), [Notify(PartEnd), Notify(BodyEnd)])
            else r.Fault?
  {
    hide ByteStep, Run;
    assert [s[0]] + [s[1]] == s;
    RunConcat(b, AtEnd(b), [s[0]], [s[1]]);
    FirstMark(b, s[0]);
    RunOne(b, AtEnd(b), s[0]);
    if s[0] == '\r' || s[0] == '-' {
      var m := Mode(if s[0] == '\r' then BoundaryDoneCrLf else BoundaryDoneHyHy, 0);
      AfterMark(b, m, s[1]);
      RunOne(b, m, s[1]);
      AfterNothing(Run(b, m, [s[1]]));
      assert s == CRLF <==> s[0] == '\r' && s[1] == '\n';
      assert s == "--" <==> s[0] == '-' && s[1] == '-';
    }
  }

  lemma FirstMark(b: string, c: char)
    ensures ByteStep(b, AtEnd(b), c) ==
            if c == '\r' then Next(Mode(BoundaryDoneCrLf, 0), []) else if c == '-' then Next(Mode(BoundaryDoneHyHy, 0), []) else Error
  {
  }

  lemma AfterMark(b: string, m: Mode, c: char)
    requires m == Mode(BoundaryDoneCrLf, 0) || m == Mode(BoundaryDoneHyHy, 0)
    ensures ByteStep(b, m, c) ==
            if m.state == BoundaryDoneCrLf then if c == '\n' then Next(Mode(FieldStart, 0), [Notify(PartEnd), Notify(PartBegin)]) else Error
            else if c == '-' then Next(Mode(Epilogue, 0), [Notify(PartEnd), Notify(BodyEnd)]) else Error
  {
  }
}
