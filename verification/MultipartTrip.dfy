/** The multipart printer and the body it prints. */
module MultipartTrip {
  import opened Sequences
  import opened MultipartStep

  // ---------- The printed body ----------

  datatype Header = Header(name: string, value: string)
  datatype Part = Part(headers: seq<Header>, data: string)


  function HeaderLine(h: Header): string { h.name + ": " + h.value + CRLF }

  function HeaderText(hs: seq<Header>): string {
    if hs == [] then CRLF else HeaderLine(hs[0]) + HeaderText(hs[1..])
  }

  function Delimiter(b: string): string { CRLF + "--" + b }

  function PartsText(b: string, parts: seq<Part>): string {
    if parts == [] then Delimiter(b) + "--"
    else Delimiter(b) + CRLF + (HeaderText(parts[0].headers) + (parts[0].data + PartsText(b, parts[1..])))
  }

  /** The body: the first line break ends the response header. */
  function Body(b: string, parts: seq<Part>): string { PartsText(b, parts)[2..] }

  // ---------- The printer ----------

  /** Two's complement in 32 bits. */
  function Wrap32(x: int): int { (x + 0x8000_0000) % 0x1_0000_0000 - 0x8000_0000 }

  lemma WrapAdd(a: int, b: int)
    ensures Wrap32(Wrap32(a) + b) == Wrap32(a + b)
  {
    var q := (a + 0x8000_0000) / 0x1_0000_0000;
    assert Wrap32(a) == a - q * 0x1_0000_0000;
    assert a + b + 0x8000_0000 == (Wrap32(a) + b + 0x8000_0000) + q * 0x1_0000_0000;
    Periodic(Wrap32(a) + b + 0x8000_0000, q);
  }

  lemma {:induction false} Periodic(x: int, q: int)
    ensures (x + q * 0x1_0000_0000) % 0x1_0000_0000 == x % 0x1_0000_0000
    decreases if q < 0 then -q else q
  {
    if q > 0 { Periodic(x, q - 1); } else if q < 0 { Periodic(x, q + 1); }
  }

  function Concat(packets: seq<string>): string {
    if packets == [] then [] else Concat(packets[..|packets| - 1]) + packets[|packets| - 1]
  }

  class MultipartPart {
    var headers: seq<Header>
    var data: string
    var headerstr: string

    /** The cached header text is empty or right. */
    ghost predicate Valid()
      reads this
    {
      headerstr == "" || headerstr == HeaderText(headers)
    }

    ghost function View(): Part
      reads this
    {
      Part(headers, data)
    }

    constructor (headers: seq<Header>, data: string)
      ensures Valid() && View() == Part(headers, data)
    {
      this.headers, this.data, headerstr := headers, data, "";
    }

    method HeaderStr() returns (text: string)
      requires Valid()
      modifies this`headerstr
      ensures Valid() && text == headerstr == HeaderText(headers)
    {
      if |headerstr| > 0 { return headerstr; }
      assert headers[0..] == headers;
      for i := 0 to |headers|
        invariant headerstr + HeaderText(headers[i..]) == HeaderText(headers)
      {
        hide HeaderText;
        HeaderTextStep(headers, i);
        ghost var before := headerstr;
        headerstr := headerstr + (headers[i].name + ": " + headers[i].value + CRLF);
        Regroup(before, HeaderLine(headers[i]), HeaderText(headers[i + 1..]));
      }
      headerstr := headerstr + CRLF;
      text := headerstr;
    }
  }

  lemma HeaderTextStep(hs: seq<Header>, i: nat)
    requires i < |hs|
    ensures HeaderText(hs[i..]) == HeaderLine(hs[i]) + HeaderText(hs[i + 1..])
  {
    assert hs[i..][0] == hs[i] && hs[i..][1..] == hs[i + 1..];
  }

  ghost predicate Are(parts: seq<MultipartPart>, views: seq<Part>)
    reads parts
  {
    |views| == |parts| && forall i | 0 <= i < |parts| :: parts[i].Valid() && parts[i].View() == views[i]
  }

  lemma PartsStep(b: string, views: seq<Part>, i: nat)
    requires i < |views|
    ensures PartsText(b, views[i..]) ==
            Delimiter(b) + CRLF + (HeaderText(views[i].headers) + (views[i].data + PartsText(b, views[i + 1..])))
  {
    assert views[i..][0] == views[i] && views[i..][1..] == views[i + 1..];
  }

  lemma ConcatSnoc(packets: seq<string>, s: string)
    ensures Concat(packets + [s]) == Concat(packets) + s
  {
    assert (packets + [s])[..|packets|] == packets;
  }

  /** Prints the parts: the value announced as Content-Length, computed in a 32-bit integer, and the packets
      queued for sending after the response header, the first of which begins with the line break that ends
      the header. */
  method SendMultipart(b: string, parts: seq<MultipartPart>, ghost views: seq<Part>)
    returns (length: int, packets: seq<string>)
    requires Are(parts, views)
    modifies parts
    ensures Are(parts, views)
    ensures Concat(packets) == PartsText(b, views) == CRLF + Body(b, views)
    ensures length == Wrap32(|Body(b, views)|)
  {
    hide Wrap32, HeaderText, PartsText, Concat;
    var begin := CRLF + "--" + b + CRLF;
    var end := CRLF + "--" + b + "--";
    var total := 0;
    ghost var text := PartsText(b, views);
    NoParts(b);
    assert views[0..] == views;
    for i := 0 to |parts|
      invariant Are(parts, views)
      invariant total == Wrap32(|text| - |PartsText(b, views[i..])|)
    {
      PartsStep(b, views, i);
      var h := parts[i].HeaderStr();
      var added := |begin| + |h| + |parts[i].data|;
      WrapAdd(|text| - |PartsText(b, views[i..])|, added);
      total := Wrap32(total + added);
    }
    assert views[|parts|..] == [];
    WrapAdd(|text| - |end|, |end| - 2);
    total := Wrap32(total + |end| - 2);

    packets := [];
    for i := 0 to |parts|
      invariant Are(parts, views)
      invariant Concat(packets) + PartsText(b, views[i..]) == text
    {
      PartsStep(b, views, i);
      var h := parts[i].HeaderStr();
      ghost var before := Concat(packets);
      ConcatSnoc(packets, begin); ConcatSnoc(packets + [begin], h); ConcatSnoc(packets + [begin] + [h], parts[i].data);
      packets := packets + [begin] + [h] + [parts[i].data];
      assert Concat(packets) == before + begin + h + parts[i].data;
      RegroupFive(before, begin, h, parts[i].data, PartsText(b, views[i + 1..]));
    }
    ConcatSnoc(packets, end);
    packets := packets + [end];
    length := total;
    LeadingBreak(b, views);
  }

  lemma NoParts(b: string)
    ensures PartsText(b, []) == Delimiter(b) + "--" && Concat([]) == "" && Wrap32(0) == 0
  {
  }

  lemma RegroupFive(a: string, b: string, c: string, d: string, e: string)
    ensures a + b + c + d + e == a + (b + (c + (d + e)))
  {
  }

  lemma LeadingBreak(b: string, views: seq<Part>)
    ensures |PartsText(b, views)| >= 2 && PartsText(b, views) == CRLF + PartsText(b, views)[2..]
  {
    assert Delimiter(b)[..2] == CRLF;
  }
}
