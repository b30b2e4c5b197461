/** When a path is routed to a pattern that matches it, and when the parts of a path are what lies between
    its delimiters. Neither is always so. */
module RouteMatching {
  import opened Wrappers
  import opened RouteTrie

  // ---------- Parts without a delimiter ----------

  ghost predicate NoSlash(part: string) { forall k | 0 <= k < |part| :: part[k] != SLASH }

  ghost predicate AllClean(parts: seq<string>) { forall j | 0 <= j < |parts| :: NoSlash(parts[j]) }

  ghost predicate DoubleSlash(s: string, begin: nat) {
    exists i :: begin <= i < |s| - 1 && s[i] == SLASH && s[i + 1] == SLASH
  }

  lemma {:induction false} CleanFrom(s: string, begin: nat, end: nat)
    requires begin <= end && begin <= |s|
    ensures AllClean(SplitFrom(s, begin, end)) <==>
            NoSlash(s[begin..if end <= |s| then end else |s|]) && !DoubleSlash(s, end)
    decreases |s| + 1 - end, 0
  {
    if end >= |s| {
      assert s[begin..] == s[begin..|s|];
      CleanCons(s[begin..], []);
      assert [s[begin..]] + [] == [s[begin..]];
    } else {
      if s[end] == SLASH {
        CleanFrom(s, end + 1, end + 2);
        var more := SplitFrom(s, end + 1, end + 2);
        assert ([s[begin..end]] + more)[1..] == more;
        CleanCons(s[begin..end], more);
        SlashAt(s, end);
      } else {
        CleanFrom(s, begin, end + 1);
        CleanSnoc(s, begin, end);
        NotDoubled(s, end);
      }
    }
  }

  lemma CleanSnoc(s: string, begin: nat, end: nat)
    requires begin <= end < |s| && s[end] != SLASH
    ensures NoSlash(s[begin..end]) <==> NoSlash(s[begin..end + 1])
  {
    var a, b := s[begin..end], s[begin..end + 1];
    forall k | 0 <= k < |a| ensures a[k] == b[k] {}
    assert b[|a|] == s[end];
  }

  lemma CleanCons(part: string, more: seq<string>)
    ensures AllClean([part] + more) <==> NoSlash(part) && AllClean(more)
  {
    hide NoSlash;
    if AllClean([part] + more) {
      assert ([part] + more)[0] == part;
      forall j | 0 <= j < |more| ensures NoSlash(more[j]) { assert ([part] + more)[j + 1] == more[j]; }
    }
  }

  lemma SlashAt(s: string, end: nat)
    requires end < |s| && s[end] == SLASH
    ensures DoubleSlash(s, end) <==>
            !NoSlash(s[end + 1..if end + 2 <= |s| then end + 2 else |s|]) || DoubleSlash(s, end + 2)
  {
    var next := s[end + 1..if end + 2 <= |s| then end + 2 else |s|];
    if end + 1 < |s| { assert next == [s[end + 1]]; }
    if !NoSlash(next) { assert s[end + 1] == SLASH; }
    if DoubleSlash(s, end) && !DoubleSlash(s, end + 2) {
      assert next[0] == SLASH;
    }
  }

  lemma NotDoubled(s: string, end: nat)
    requires end < |s| && s[end] != SLASH
    ensures DoubleSlash(s, end) <==> DoubleSlash(s, end + 1)
  {
  }

  /** The parts of a split are free of delimiters if and only if, behind the one it may begin with, no delimiter
      follows another. */
  lemma SplitClean(s: string)
    ensures AllClean(Split(s)) <==> !DoubleSlash(s, Start(s))
  {
    CleanFrom(s, Start(s), Start(s));
  }

  lemma DoubledSlash()
    ensures Split("a//b") == ["a", "/b"] && !AllClean(Split("a//b"))
  {
    var s := "a//b";
    assert SplitFrom(s, 2, 4) == [s[2..]];
    assert SplitFrom(s, 2, 3) == SplitFrom(s, 2, 4);
    assert SplitFrom(s, 0, 1) == [s[0..1]] + SplitFrom(s, 2, 3);
    assert s[2..] == "/b" && s[0..1] == "a";
    assert Split(s)[1][0] == SLASH;
  }

  // ---------- Splitting what was joined ----------

  /** Where a part begins to be looked at: the byte after a delimiter is passed. */
  function Skip(depth: nat): nat { if depth == 0 then 0 else 1 }

  ghost predicate PartOk(part: string, depth: nat) { forall k | Skip(depth) <= k < |part| :: part[k] != SLASH }

  /** The parts that a split can have, from some depth on. */
  ghost predicate PartsOk(parts: seq<string>, depth: nat) {
    forall i | 0 <= i < |parts| :: PartOk(parts[i], depth + i) && (depth + i > 0 && i < |parts| - 1 ==> parts[i] != "")
  }

  lemma PartsOkCons(part: string, more: seq<string>, depth: nat)
    requires PartOk(part, depth) && (depth > 0 && more != [] ==> part != "") && PartsOk(more, depth + 1)
    ensures PartsOk([part] + more, depth)
  {
    var all := [part] + more;
    forall i | 0 <= i < |all| ensures PartOk(all[i], depth + i) && (depth + i > 0 && i < |all| - 1 ==> all[i] != "") {
      if i > 0 { assert all[i] == more[i - 1]; }
    }
  }

  lemma PartsOkTail(parts: seq<string>, depth: nat)
    requires PartsOk(parts, depth) && parts != []
    ensures PartOk(parts[0], depth) && (depth > 0 && |parts| > 1 ==> parts[0] != "") && PartsOk(parts[1..], depth + 1)
  {
    var tail := parts[1..];
    forall i | 0 <= i < |tail|
      ensures PartOk(tail[i], depth + 1 + i) && (depth + 1 + i > 0 && i < |tail| - 1 ==> tail[i] != "")
    {
      assert tail[i] == parts[i + 1];
    }
  }

  lemma {:induction false} SplitOk(s: string, begin: nat, end: nat, depth: nat)
    requires begin + Skip(depth) <= end && begin <= |s|
    requires forall k | begin + Skip(depth) <= k < end && k < |s| :: s[k] != SLASH
    ensures PartsOk(SplitFrom(s, begin, end), depth)
    decreases |s| + 1 - end, 0
  {
    if end >= |s| {
      PartsOkCons(s[begin..], [], depth);
    } else if s[end] == SLASH {
      SplitOk(s, end + 1, end + 2, depth + 1);
      PartsOkCons(s[begin..end], SplitFrom(s, end + 1, end + 2), depth);
    } else {
      SplitOk(s, begin, end + 1, depth);
    }
  }

  lemma {:induction false} ScanOver(s: string, begin: nat, end: nat, to: nat)
    requires begin <= end <= to <= |s| && forall k | end <= k < to :: s[k] != SLASH
    ensures SplitFrom(s, begin, end) == SplitFrom(s, begin, to)
    decreases |s| + 1 - end
  {
    if end < to { ScanOver(s, begin, end + 1, to); }
  }

  lemma {:induction false} SplitJoined(s: string, begin: nat, q: seq<string>, depth: nat)
    requires begin <= |s| && s[begin..] == Join(q) && q != [] && PartsOk(q, depth)
    ensures SplitFrom(s, begin, begin + Skip(depth)) == q
    decreases |q|
  {
    PartsOkTail(q, depth);
    if |q| == 1 {
      LastPart(s, begin, q[0], depth);
      assert q == [q[0]];
    } else {
      var n := begin + |q[0]|;
      OnePart(s, begin, q[0], Join(q[1..]), depth);
      SplitJoined(s, n + 1, q[1..], depth + 1);
      assert q == [q[0]] + q[1..];
    }
  }

  lemma LastPart(s: string, begin: nat, part: string, depth: nat)
    requires begin <= |s| && s[begin..] == part && PartOk(part, depth)
    ensures SplitFrom(s, begin, begin + Skip(depth)) == [part]
  {
    forall k | begin + Skip(depth) <= k < |s| ensures s[k] != SLASH { assert s[k] == part[k - begin]; }
    if begin + Skip(depth) <= |s| { ScanOver(s, begin, begin + Skip(depth), |s|); }
  }

  lemma OnePart(s: string, begin: nat, part: string, more: string, depth: nat)
    requires begin <= |s| && s[begin..] == part + [SLASH] + more && PartOk(part, depth) && (depth > 0 ==> part != "")
    ensures var n := begin + |part|;
            && n < |s| && s[n + 1..] == more
            && SplitFrom(s, begin, begin + Skip(depth)) == [part] + SplitFrom(s, n + 1, n + 2)
  {
    var n := begin + |part|;
    var rest := s[begin..];
    assert s[n] == rest[|part|] == SLASH;
    forall k | begin <= k < n ensures s[k] == part[k - begin] { assert s[k] == rest[k - begin]; }
    assert s[begin..n] == part;
    assert s[n + 1..] == rest[|part| + 1..];
    ScanOver(s, begin, begin + Skip(depth), n);
  }

  /** Every list of parts that a split can have is the split of a path. */
  lemma JoinSplit(q: seq<string>)
    requires q != [] && PartsOk(q, 0)
    ensures Split([SLASH] + Join(q)) == q
  {
    var s := [SLASH] + Join(q);
    assert s[1..] == Join(q);
    SplitJoined(s, 1, q, 0);
  }

  // ---------- Patterns that match ----------

  /** Part by part the pattern is equal or matches anything. */
  ghost predicate Fits(pattern: seq<string>, parts: seq<string>) {
    |pattern| == |parts| && forall i | 0 <= i < |pattern| :: pattern[i] == parts[i] || Wild(pattern[i])
  }

  lemma FitsSnoc(pattern: seq<string>, p: string, parts: seq<string>, q: string)
    requires |pattern| == |parts|
    ensures Fits(pattern + [p], parts + [q]) <==> Fits(pattern, parts) && (p == q || Wild(p))
  {
    var a, b := pattern + [p], parts + [q];
    if Fits(a, b) {
      forall i | 0 <= i < |pattern| ensures pattern[i] == parts[i] || Wild(pattern[i]) { assert a[i] == pattern[i] && b[i] == parts[i]; }
      assert a[|pattern|] == p && b[|parts|] == q;
    }
  }

  /** Every path that is routed is routed to a pattern that matches it. */
  ghost predicate Faithful(t: Node) {
    forall path: string :: Search(t, Split(path)).Some? ==> Fits(Split(Search(t, Split(path)).value.pattern), Split(path))
  }

  /** The literal parts of every pattern are on nodes with that label; `labels` lead to the node. */
  ghost predicate Aligned(n: Node, labels: seq<string>)
    decreases n
  {
    && (n.pattern != "" ==> Fits(Split(n.pattern), labels))
    && forall i | 0 <= i < |n.children| :: Aligned(n.children[i], labels + [n.children[i].part])
  }

  /** Labels lead to parts that they match. */
  lemma {:induction false} AlignedFits(n: Node, labels: seq<string>, done: seq<string>, parts: seq<string>, path: seq<nat>)
    requires Aligned(n, labels) && WildLast(n) && Route(n, parts, path)
    requires |done| == |labels| && forall i | 0 <= i < |labels| :: labels[i] == done[i] || Wild(labels[i])
    ensures Fits(Split(NodeAt(n, path).pattern), done + parts)
    decreases |parts|
  {
    if parts == [] {
      assert done + parts == done;
    } else {
      var c := n.children[path[0]];
      AlignedFits(c, labels + [c.part], done + [parts[0]], parts[1..], path[1..]);
      assert done + [parts[0]] + parts[1..] == done + parts;
    }
  }

  // ---------- A path for every node ----------

  ghost predicate Down(n: Node, path: seq<nat>)
    decreases |path|
  {
    path == [] || (path[0] < |n.children| && Down(n.children[path[0]], path[1..]))
  }

  function LabelsAt(n: Node, path: seq<nat>): seq<string>
    requires Down(n, path)
    decreases |path|
  {
    if path == [] then [] else [n.children[path[0]].part] + LabelsAt(n.children[path[0]], path[1..])
  }

  /** No label occurs twice among the children of a node. */
  ghost predicate Distinct(n: Node) {
    && (forall i, j | 0 <= i < j < |n.children| :: n.children[i].part != n.children[j].part)
    && forall i | 0 <= i < |n.children| :: Distinct(n.children[i])
  }

  lemma {:induction false} InsertDistinct(n: Node, parts: seq<string>, pattern: string, handler: int)
    requires Distinct(n)
    ensures Distinct(Insert(n, parts, pattern, handler))
    decreases |parts|
  {
    if parts != [] {
      var i := FirstChild(n.children, parts[0]);
      var child := if i < |n.children| then n.children[i] else Node("", parts[0], [], Wild(parts[0]), 0);
      InsertDistinct(child, parts[1..], pattern, handler);
      InsertKeepsLabel(child, parts[1..], pattern, handler);
    }
  }

  /** Labels are parts of splits, and below an empty label there is nothing. */
  ghost predicate Labelled(n: Node, depth: nat)
    decreases n
  {
    forall i | 0 <= i < |n.children| ::
      && PartOk(n.children[i].part, depth)
      && (depth > 0 && n.children[i].part == "" ==> n.children[i].children == [])
      && Labelled(n.children[i], depth + 1)
  }

  lemma {:induction false} InsertLabelled(n: Node, depth: nat, parts: seq<string>, pattern: string, handler: int)
    requires Labelled(n, depth) && WildLast(n) && PartsOk(parts, depth)
    ensures Labelled(Insert(n, parts, pattern, handler), depth)
    decreases |parts|
  {
    if parts != [] {
      PartsOkTail(parts, depth);
      hide PartOk, PartsOk;
      var i := FirstChild(n.children, parts[0]);
      var child := if i < |n.children| then n.children[i] else Node("", parts[0], [], Wild(parts[0]), 0);
      assert WildLast(child) && child.wild == Wild(child.part);
      hide WildLast;
      InsertLabelled(child, depth + 1, parts[1..], pattern, handler);
      InsertKeepsLabel(child, parts[1..], pattern, handler);
    }
  }

  /** All labels and patterns are shorter than `size`. */
  ghost predicate Short(n: Node, size: nat) {
    |n.pattern| < size && forall i | 0 <= i < |n.children| :: |n.children[i].part| < size && Short(n.children[i], size)
  }

  lemma {:induction false} ShortGrows(n: Node, size: nat, more: nat)
    requires Short(n, size) && size <= more
    ensures Short(n, more)
    decreases n
  {
    forall i | 0 <= i < |n.children| ensures Short(n.children[i], more) { ShortGrows(n.children[i], size, more); }
  }

  lemma {:induction false} SomeSize(n: Node) returns (size: nat)
    ensures Short(n, size)
    decreases n
  {
    size := |n.pattern| + 1;
    for k := 0 to |n.children|
      invariant |n.pattern| < size
      invariant forall i | 0 <= i < k :: |n.children[i].part| < size && Short(n.children[i], size)
    {
      var was := size;
      var child := SomeSize(n.children[k]);
      size := was + child + |n.children[k].part| + 1;
      ShortGrows(n.children[k], child, size);
      forall i | 0 <= i < k ensures Short(n.children[i], size) { ShortGrows(n.children[i], was, size); }
    }
  }

  function Filler(size: nat): string { seq(size, _ => 'x') }

  /** Parts that lead to a node and to no other: the labels, and something new for a wild node. */
  function Query(n: Node, path: seq<nat>, size: nat): seq<string>
    requires Down(n, path)
    decreases |path|
  {
    if path == [] then []
    else
      var c := n.children[path[0]];
      [if c.wild then Filler(size) else c.part] + Query(c, path[1..], size)
  }

  lemma {:induction false} QueryFinds(n: Node, path: seq<nat>, size: nat)
    requires Down(n, path) && WildLast(n) && Distinct(n) && Short(n, size) && NodeAt(n, path).pattern != ""
    ensures Search(n, Query(n, path, size)) == Some(NodeAt(n, path))
    decreases |path|
  {
    if path != [] {
      var c, q := n.children[path[0]], Query(n, path, size);
      QueryFinds(c, path[1..], size);
      assert q[1..] == Query(c, path[1..], size);
      forall k | 0 <= k < path[0] ensures !Matches(n.children[k], q[0]) {
        assert |Filler(size)| == size;
      }
      ChildrenComplete(n.children, q, path[0]);
    }
  }

  lemma {:induction false} QueryOk(n: Node, path: seq<nat>, size: nat, depth: nat)
    requires Down(n, path) && Labelled(n, depth) && size > 0
    ensures PartsOk(Query(n, path, size), depth)
    decreases |path|
  {
    if path != [] {
      var c := n.children[path[0]];
      QueryOk(c, path[1..], size, depth + 1);
      PartsOkCons(Query(n, path, size)[0], Query(c, path[1..], size), depth);
    }
  }

  lemma {:induction false} QueryLabels(n: Node, path: seq<nat>, size: nat, i: nat)
    requires Down(n, path) && i < |path|
    ensures |Query(n, path, size)| == |LabelsAt(n, path)| == |path|
    ensures Query(n, path, size)[i] == LabelsAt(n, path)[i] || Query(n, path, size)[i] == Filler(size)
    decreases |path|
  {
    if |path| > 1 { QueryLabels(n.children[path[0]], path[1..], size, if i == 0 then 0 else i - 1); }
  }

  lemma {:induction false} PartsShort(s: string, begin: nat, end: nat)
    requires begin <= end && begin <= |s|
    ensures forall i | 0 <= i < |SplitFrom(s, begin, end)| :: |SplitFrom(s, begin, end)[i]| <= |s|
    decreases |s| + 1 - end, 0
  {
    if end < |s| {
      if s[end] == SLASH { PartsShort(s, end + 1, end + 2); } else { PartsShort(s, begin, end + 1); }
    }
  }

  lemma {:induction false} ShortBelow(n: Node, path: seq<nat>, size: nat)
    requires Down(n, path) && Short(n, size)
    ensures |NodeAt(n, path).pattern| < size
    decreases |path|
  {
    if path != [] { ShortBelow(n.children[path[0]], path[1..], size); }
  }

  /** If everything is routed to a pattern that matches, the pattern of a node fits the labels that lead to it. */
  lemma FaithfulFits(t: Node, path: seq<nat>, size: nat)
    requires Faithful(t) && WildLast(t) && Distinct(t) && Labelled(t, 0) && Short(t, size)
    requires Down(t, path) && path != [] && NodeAt(t, path).pattern != ""
    ensures Fits(Split(NodeAt(t, path).pattern), LabelsAt(t, path))
  {
    var q, pattern := Query(t, path, size), NodeAt(t, path).pattern;
    QueryOk(t, path, size, 0);
    QueryLabels(t, path, size, 0);
    JoinSplit(q);
    QueryFinds(t, path, size);
    assert Fits(Split(pattern), Split([SLASH] + Join(q)));
    PartsShort(pattern, Start(pattern), Start(pattern));
    ShortBelow(t, path, size);
    var parts, labels := Split(pattern), LabelsAt(t, path);
    hide Split, Query, LabelsAt, Short, Labelled, WildLast, Distinct;
    forall i | 0 <= i < |parts| ensures parts[i] == labels[i] || Wild(parts[i]) {
      QueryLabels(t, path, size, i);
      assert |Filler(size)| == size;
    }
  }

  lemma {:induction false} FitsAligned(n: Node, labels: seq<string>)
    requires forall path :: Down(n, path) && NodeAt(n, path).pattern != "" ==>
                              Fits(Split(NodeAt(n, path).pattern), labels + LabelsAt(n, path))
    ensures Aligned(n, labels)
    decreases n
  {
    assert Down(n, []) && NodeAt(n, []) == n && labels + LabelsAt(n, []) == labels;
    forall i | 0 <= i < |n.children| ensures Aligned(n.children[i], labels + [n.children[i].part]) {
      var c := n.children[i];
      forall path | Down(c, path) && NodeAt(c, path).pattern != ""
        ensures Fits(Split(NodeAt(c, path).pattern), labels + [c.part] + LabelsAt(c, path))
      {
        var full := [i] + path;
        assert full[1..] == path && Down(n, full) && NodeAt(n, full) == NodeAt(c, path);
        assert labels + LabelsAt(n, full) == labels + [c.part] + LabelsAt(c, path);
      }
      FitsAligned(c, labels + [c.part]);
    }
  }

  // ---------- The exact conditions ----------

  lemma {:induction false} BuiltInv(entries: seq<Entry>)
    ensures var t := TrieOf(entries); WildLast(t) && DepthOk(t, 0) && Distinct(t) && Labelled(t, 0) && t.pattern == ""
  {
    TrieInv(entries);
    if entries != [] {
      var e, init := entries[|entries| - 1], entries[..|entries| - 1];
      BuiltInv(init);
      InsertDistinct(TrieOf(init), Split(e.pattern), e.pattern, e.handler);
      SplitOk(e.pattern, Start(e.pattern), Start(e.pattern), 0);
      InsertLabelled(TrieOf(init), 0, Split(e.pattern), e.pattern, e.handler);
    }
  }

  /** Every path is routed to a pattern that matches it, if it is routed at all, if and only if the literal
      parts of every pattern in the trie are on nodes with that label. */
  lemma RoutesMatch(entries: seq<Entry>)
    ensures Faithful(TrieOf(entries)) <==> Aligned(TrieOf(entries), [])
  {
    var t := TrieOf(entries);
    BuiltInv(entries);
    if Aligned(t, []) {
      forall path: string | Search(t, Split(path)).Some?
        ensures Fits(Split(Search(t, Split(path)).value.pattern), Split(path))
      {
        var way := SearchSound(t, Split(path));
        AlignedFits(t, [], [], Split(path), way);
        assert [] + Split(path) == Split(path);
      }
    }
    if Faithful(t) {
      var size := SomeSize(t);
      forall way | Down(t, way) && NodeAt(t, way).pattern != ""
        ensures Fits(Split(NodeAt(t, way).pattern), [] + LabelsAt(t, way))
      {
        FaithfulFits(t, way, size);
        assert [] + LabelsAt(t, way) == LabelsAt(t, way);
      }
      FitsAligned(t, []);
    }
  }

  // ---------- Which paths are routed ----------

  /** A pattern that has just been added can be reached under all parts that it matches. */
  lemma {:induction false} InsertRoutes(n: Node, parts: seq<string>, pattern: string, handler: int, q: seq<string>) returns (path: seq<nat>)
    requires WildLast(n) && pattern != "" && Fits(parts, q)
    ensures Route(Insert(n, parts, pattern, handler), q, path)
    decreases |parts|
  {
    path := [];
    if parts != [] {
      var i := FirstChild(n.children, parts[0]);
      var child := if i < |n.children| then n.children[i] else Node("", parts[0], [], Wild(parts[0]), 0);
      assert Matches(child, q[0]);
      var more := InsertRoutes(child, parts[1..], pattern, handler, q[1..]);
      InsertKeepsLabel(child, parts[1..], pattern, handler);
      path := [i] + more;
      assert path[1..] == more;
    }
  }

  /** The patterns in a tree are among the entries, with their handlers. */
  ghost predicate Holds(n: Node, entries: seq<Entry>)
    decreases n
  {
    && (n.pattern != "" ==> Entry(n.pattern, n.handler) in entries)
    && forall i | 0 <= i < |n.children| :: Holds(n.children[i], entries)
  }

  lemma {:induction false} HoldsMore(n: Node, entries: seq<Entry>, e: Entry)
    requires Holds(n, entries)
    ensures Holds(n, entries + [e])
    decreases n
  {
    forall i | 0 <= i < |n.children| ensures Holds(n.children[i], entries + [e]) { HoldsMore(n.children[i], entries, e); }
  }

  lemma {:induction false} InsertHolds(n: Node, parts: seq<string>, entries: seq<Entry>, e: Entry)
    requires Holds(n, entries)
    ensures Holds(Insert(n, parts, e.pattern, e.handler), entries + [e])
    decreases |parts|
  {
    HoldsMore(n, entries, e);
    if parts == [] {
      assert e in entries + [e];
    } else {
      var i := FirstChild(n.children, parts[0]);
      var child := if i < |n.children| then n.children[i] else Node("", parts[0], [], Wild(parts[0]), 0);
      InsertHolds(child, parts[1..], entries, e);
    }
  }

  lemma {:induction false} TrieHolds(entries: seq<Entry>)
    ensures Holds(TrieOf(entries), entries)
  {
    if entries != [] {
      var e, init := entries[|entries| - 1], entries[..|entries| - 1];
      TrieHolds(init);
      InsertHolds(TrieOf(init), Split(e.pattern), init, e);
      assert init + [e] == entries;
    }
  }

  lemma {:induction false} HeldAt(n: Node, entries: seq<Entry>, parts: seq<string>, path: seq<nat>)
    requires Holds(n, entries) && Route(n, parts, path)
    ensures var m := NodeAt(n, path); m.pattern != "" && Entry(m.pattern, m.handler) in entries
    decreases |parts|
  {
    if parts != [] { HeldAt(n.children[path[0]], entries, parts[1..], path[1..]); }
  }

  /** A registered pattern that matches these parts. */
  ghost predicate Registered(entries: seq<Entry>, parts: seq<string>) {
    exists e :: e in entries && e.pattern != "" && Fits(Split(e.pattern), parts)
  }

  /** An insertion of the empty pattern takes no route away: its node holds no pattern yet, or the node is no
      wild one and a wild sibling holds a pattern. */
  ghost predicate Harmless(t: Node) {
    var i := FirstChild(t.children, "");
    i == |t.children| || t.children[i].pattern == ""
    || (!t.children[i].wild && exists k | 0 <= k < |t.children| :: t.children[k].wild && t.children[k].pattern != "")
  }

  ghost predicate KeepsRoutes(t: Node, u: Node) {
    forall q :: Search(t, q).Some? ==> Search(u, q).Some?
  }

  /** The empty pattern is stored at the node of the empty part, where it replaces a pattern by none. */
  lemma EmptyInserted(t: Node, handler: int)
    ensures var i, u := FirstChild(t.children, ""), Insert(t, Split(""), "", handler);
            && u.pattern == t.pattern
            && u.children == if i < |t.children| then t.children[i := t.children[i].(pattern := "", handler := handler)]
                             else t.children + [Node("", "", [], false, handler)]
  {
    var parts := Split("");
    assert parts == [""] && parts[1..] == [];
  }

  lemma OneStep(n: Node, x: string, path: seq<nat>)
    ensures Route(n, [x], path) <==>
            |path| == 1 && path[0] < |n.children| && Matches(n.children[path[0]], x) && n.children[path[0]].pattern != ""
  {
    assert [x][1..] == [];
    if path != [] { assert path[1..] == [] <==> |path| == 1; }
  }

  lemma HarmlessKeeps(t: Node, handler: int, q: seq<string>)
    requires Harmless(t) && t.pattern == "" && Search(t, q).Some?
    ensures Search(Insert(t, Split(""), "", handler), q).Some?
  {
    var i, u := FirstChild(t.children, ""), Insert(t, Split(""), "", handler);
    hide Split, Insert, Search, Route;
    EmptyInserted(t, handler);
    var way := SearchSound(t, q);
    if |q| == 1 {
      assert q == [q[0]];
      OneStep(t, q[0], way);
      OneStep(u, q[0], way);
      if way[0] == i && i < |t.children| {
        var k :| 0 <= k < |t.children| && t.children[k].wild && t.children[k].pattern != "";
        OneStep(u, q[0], [k]);
        SearchComplete(u, q, [k]);
      } else {
        SearchComplete(u, q, way);
      }
    } else {
      SameBelow(t, u, q, way);
      SearchComplete(u, q, way);
    }
  }

  lemma SameBelow(t: Node, u: Node, q: seq<string>, way: seq<nat>)
    requires Route(t, q, way) && |q| != 1 && u.pattern == t.pattern && |u.children| >= |t.children|
    requires forall k | 0 <= k < |t.children| ::
               u.children[k] == t.children[k].(pattern := u.children[k].pattern, handler := u.children[k].handler)
    ensures Route(u, q, way)
  {
  }

  /** A part for which the node of the empty part was the only way. */
  lemma HarmLoses(t: Node, handler: int) returns (x: string)
    requires !Harmless(t) && WildLast(t) && Distinct(t)
    ensures Search(t, [x]).Some? && Search(Insert(t, Split(""), "", handler), [x]).None?
  {
    var i, u := FirstChild(t.children, ""), Insert(t, Split(""), "", handler);
    var size := SomeSize(t);
    x := if t.children[i].wild then Filler(size) else "";
    assert |Filler(size)| == size;
    hide Split, Insert, Search, Route;
    EmptyInserted(t, handler);
    OneStep(t, x, [i]);
    SearchComplete(t, [x], [i]);
    if Search(u, [x]).Some? {
      var way := SearchSound(u, [x]);
      OneStep(u, x, way);
      assert false;
    }
  }

  /** What can be checked before the empty pattern is added: it takes no route away if and only if it is harmless. */
  lemma EmptyKeepsRoutes(t: Node, handler: int)
    requires t.pattern == "" && WildLast(t) && Distinct(t)
    ensures KeepsRoutes(t, Insert(t, Split(""), "", handler)) <==> Harmless(t)
  {
    hide Split, Insert, Search, Harmless, WildLast, Distinct;
    if Harmless(t) {
      forall q | Search(t, q).Some? ensures Search(Insert(t, Split(""), "", handler), q).Some? { HarmlessKeeps(t, handler, q); }
    } else {
      var x := HarmLoses(t, handler);
    }
  }

  /** The path "/" is registered, and the empty pattern added later takes its route away. */
  lemma EmptyTakesRoute()
    ensures var entries := [Entry("/", 1), Entry("", 2)];
            Registered(entries, Split("/")) && Search(TrieOf(entries), Split("/")).None?
  {
    var entries := [Entry("/", 1), Entry("", 2)];
    Plain("/", "");
    assert entries[0] in entries && Fits(Split("/"), Split("/"));
    hide Split, Search, Insert, TrieOf, Fits;
    TwoRoutes(entries[0], entries[1]);
    Alone("/", "", 1);
    var t := Insert(ROOT, [""], "/", 1);
    EmptyInserted(t, 2);
    if Search(TrieOf(entries), [""]).Some? {
      var way := SearchSound(TrieOf(entries), [""]);
      OneStep(TrieOf(entries), "", way);
      assert false;
    }
  }

  /** No empty pattern was added that took a route away. */
  ghost predicate Kept(entries: seq<Entry>) {
    entries == [] ||
    var e, init := entries[|entries| - 1], entries[..|entries| - 1];
    Kept(init) && (e.pattern == "" ==> Harmless(TrieOf(init)))
  }

  /** A path that a registered pattern matches is routed, unless the empty pattern took a route away; a path that
      is routed gets the pattern and the handler of one entry. If moreover the literal parts are on their own
      labels, a path is routed if and only if some registered pattern matches it. */
  lemma RoutedExactly(entries: seq<Entry>, path: string)
    ensures var r := Search(TrieOf(entries), Split(path));
            && (Kept(entries) && Registered(entries, Split(path)) ==> r.Some?)
            && (r.Some? ==> r.value.pattern != "" && Entry(r.value.pattern, r.value.handler) in entries)
            && (Kept(entries) && Aligned(TrieOf(entries), []) ==> (r.Some? <==> Registered(entries, Split(path))))
  {
    var t, parts := TrieOf(entries), Split(path);
    hide TrieOf, Split, Fits, Aligned, Holds, Route, Kept;
    if Kept(entries) && Registered(entries, parts) { RegisteredRouted(entries, parts); }
    if Search(t, parts).Some? {
      TrieHolds(entries);
      var way := SearchSound(t, parts);
      HeldAt(t, entries, parts, way);
      if Aligned(t, []) { RoutesMatch(entries); }
    }
  }

  lemma {:induction false} RegisteredRouted(entries: seq<Entry>, parts: seq<string>)
    requires Registered(entries, parts) && Kept(entries)
    ensures Search(TrieOf(entries), parts).Some?
    decreases |entries|
  {
    var e, init := entries[|entries| - 1], entries[..|entries| - 1];
    var t := TrieOf(init);
    assert entries == init + [e];
    assert TrieOf(entries) == Insert(t, Split(e.pattern), e.pattern, e.handler);
    BuiltInv(init);
    hide TrieOf, Split, Fits, Insert, Search, Route, Harmless;
    if e.pattern != "" && Fits(Split(e.pattern), parts) {
      var way := InsertRoutes(t, Split(e.pattern), e.pattern, e.handler, parts);
      SearchComplete(TrieOf(entries), parts, way);
    } else {
      RegisteredRouted(init, parts);
      if e.pattern == "" {
        HarmlessKeeps(t, e.handler, parts);
      } else {
        var way := SearchSound(t, parts);
        InsertKeepsRoutes(t, Split(e.pattern), e.pattern, e.handler, parts, way);
        SearchComplete(TrieOf(entries), parts, way);
      }
    }
  }

  /** The insertion of these parts walks through no wild node with a literal part. */
  predicate Clear(n: Node, parts: seq<string>)
    decreases |parts|
  {
    parts == [] ||
    var i := FirstChild(n.children, parts[0]);
    i < |n.children| ==> (n.children[i].wild ==> Wild(parts[0])) && Clear(n.children[i], parts[1..])
  }

  lemma {:induction false} InsertAlignedAt(n: Node, labels: seq<string>, done: seq<string>, parts: seq<string>, pattern: string, handler: int)
    requires Aligned(n, labels) && WildLast(n) && pattern != "" && Split(pattern) == done + parts && |done| == |labels|
    ensures Aligned(Insert(n, parts, pattern, handler), labels) <==> Fits(done, labels) && Clear(n, parts)
    decreases |parts|
  {
    hide Fits, Split;
    if parts == [] {
      assert done + parts == done;
    } else {
      var i := FirstChild(n.children, parts[0]);
      var added := Node("", parts[0], [], Wild(parts[0]), 0);
      var child := if i < |n.children| then n.children[i] else added;
      assert (done + [parts[0]]) + parts[1..] == done + parts;
      InsertAlignedAt(child, labels + [child.part], done + [parts[0]], parts[1..], pattern, handler);
      FitsSnoc(done, parts[0], labels, child.part);
      InsertKeepsLabel(n, parts, pattern, handler);
      InsertKeepsLabel(child, parts[1..], pattern, handler);
      var m := Insert(n, parts, pattern, handler);
      assert m.children[i] == Insert(child, parts[1..], pattern, handler) && m.pattern == n.pattern;
      if Aligned(m.children[i], labels + [child.part]) {
        forall k | 0 <= k < |m.children| ensures Aligned(m.children[k], labels + [m.children[k].part]) {
          if k != i { assert m.children[k] == n.children[k]; }
        }
      }
    }
  }

  /** What can be checked before a pattern is added: the routes go on matching if and only if the walk down the
      trie enters no wild node with a literal part of the pattern. */
  lemma InsertAligned(n: Node, pattern: string, handler: int)
    requires Aligned(n, []) && WildLast(n) && pattern != ""
    ensures Aligned(Insert(n, Split(pattern), pattern, handler), []) <==> Clear(n, Split(pattern))
  {
    assert [] + Split(pattern) == Split(pattern);
    InsertAlignedAt(n, [], [], Split(pattern), pattern, handler);
    assert Fits([], []);
  }

  /** A literal pattern added after a wild one takes its place: another path is then routed to it. */
  lemma LiteralUnderWild()
    ensures var t := TrieOf([Entry("/:id", 1), Entry("/list", 2)]);
            && Search(t, Split("/x")) == Some(Node("/list", ":id", [], true, 2))
            && !Fits(Split("/list"), Split("/x")) && !Faithful(t)
  {
    Plain("/:id", ":id"); Plain("/list", "list"); Plain("/x", "x");
    hide Split, Search, Insert, TrieOf, Fits, Faithful;
    TwoRoutes(Entry("/:id", 1), Entry("/list", 2));
    TakenOver("/:id", ":id", 1, "/list", "list", 2, "x");
    NoFit("list", "x");
    Unfaithful(TrieOf([Entry("/:id", 1), Entry("/list", 2)]), "/x");
  }

  lemma TwoRoutes(one: Entry, two: Entry)
    ensures TrieOf([one, two]) ==
            Insert(Insert(ROOT, Split(one.pattern), one.pattern, one.handler), Split(two.pattern), two.pattern, two.handler)
  {
    hide Split, Insert;
    assert [one, two][..1] == [one] && [one][..0] == [];
    assert TrieOf([one]) == Insert(TrieOf([one][..0]), Split(one.pattern), one.pattern, one.handler);
  }

  lemma NoFit(a: string, b: string)
    requires a != [] && b != [] && a[0] != b[0] && a[0] != ':'
    ensures !Fits([a], [b])
  {
    assert [a][0] == a && [b][0] == b;
  }

  lemma Unfaithful(t: Node, path: string)
    requires Search(t, Split(path)).Some? && !Fits(Split(Search(t, Split(path)).value.pattern), Split(path))
    ensures !Faithful(t)
  {
  }

  lemma Alone(pattern: string, part: string, handler: int)
    ensures Insert(ROOT, [part], pattern, handler).children == [Node(pattern, part, [], Wild(part), handler)]
  {
    assert [part][1..] == [];
  }

  /** A second pattern of one part that meets a wild node replaces the pattern there. */
  lemma TakenOver(pattern: string, part: string, handler: int, pattern': string, part': string, handler': int, other: string)
    requires Wild(part) && pattern' != ""
    ensures var t := Insert(Insert(ROOT, [part], pattern, handler), [part'], pattern', handler');
            Search(t, [other]) == Some(Node(pattern', part, [], true, handler'))
  {
    Alone(pattern, part, handler);
    var child := Node(pattern, part, [], true, handler);
    var n := Insert(ROOT, [part], pattern, handler);
    assert FirstChild(n.children, part') == 0;
    assert [part'][1..] == [] && [other][1..] == [];
    var m := Node(pattern', part, [], true, handler');
    assert Insert(n, [part'], pattern', handler').children == [m];
    assert Search(m, []) == Some(m);
  }

  lemma Plain(s: string, part: string)
    requires s == [SLASH] + part && NoSlash(part)
    ensures Split(s) == [part]
  {
    assert PartsOk([part], 0);
    JoinSplit([part]);
  }
}
