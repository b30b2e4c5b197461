/** The route trie: patterns split into parts, a tree of parts in which a part that begins with a colon
    matches anything, and the search for the route of a path. Handlers are numbers. */
module RouteTrie {
  import opened Sequences
  import opened Wrappers


  // ---------- Splitting ----------

  const SLASH: char := '/'

  /** The parts from `begin` on; `end` is the next position that is looked at. The byte after a delimiter is
      never taken for one. */
  function SplitFrom(s: string, begin: nat, end: nat): (parts: seq<string>)
    requires begin <= end && begin <= |s|
    ensures parts != []
    decreases |s| + 1 - end, 0
  {
    if end >= |s| then [s[begin..]]
    else if s[end] == SLASH then [s[begin..end]] + SplitFrom(s, end + 1, end + 2)
    else SplitFrom(s, begin, end + 1)
  }

  function Start(s: string): nat { if s != [] && s[0] == SLASH then 1 else 0 }

  function Split(s: string): (parts: seq<string>)
    ensures parts != []
  {
    SplitFrom(s, Start(s), Start(s))
  }

  function Join(parts: seq<string>): string {
    if parts == [] then [] else if |parts| == 1 then parts[0] else parts[0] + [SLASH] + Join(parts[1..])
  }

  lemma {:induction false} JoinFrom(s: string, begin: nat, end: nat)
    requires begin <= end && begin <= |s|
    ensures Join(SplitFrom(s, begin, end)) == s[begin..]
    decreases |s| + 1 - end, 0
  {
    if end < |s| {
      if s[end] == SLASH {
        JoinFrom(s, end + 1, end + 2);
        assert s[begin..] == s[begin..end] + [SLASH] + s[end + 1..];
        var more := SplitFrom(s, end + 1, end + 2);
        assert ([s[begin..end]] + more)[1..] == more;
      } else {
        JoinFrom(s, begin, end + 1);
      }
    }
  }

  /** Joining the parts restores the input, up to one leading delimiter. */
  lemma SplitJoin(s: string)
    ensures s == (if Start(s) == 1 then [SLASH] else []) + Join(Split(s))
  {
    JoinFrom(s, Start(s), Start(s));
  }

  /** The loop that splits. */
  method SplitParts(s: string) returns (parts: seq<string>)
    ensures parts == Split(s)
  {
    var begin, end := 0, 0;
    if |s| > 0 && s[0] == SLASH { begin, end := 1, 1; }
    parts := [];
    while end < |s|
      invariant begin <= end <= |s| + 1 && begin <= |s|
      invariant Split(s) == parts + SplitFrom(s, begin, end)
      decreases |s| + 1 - end
    {
      if s[end] == SLASH {
        ghost var more := SplitFrom(s, end + 1, end + 2);
        Regroup(parts, [s[begin..end]], more);
        parts := parts + [s[begin..end]];
        begin := end + 1;
        end := end + 1;
      }
      end := end + 1;
    }
    parts := parts + [s[begin..]];
  }

  // ---------- The tree ----------

  datatype Node = Node(pattern: string, part: string, children: seq<Node>, wild: bool, handler: int)

  const ROOT := Node("", "/", [], false, 0)

  predicate Matches(n: Node, part: string) { n.part == part || n.wild }

  /** The first child that matches a part; the number of children if none does. */
  function FirstChild(children: seq<Node>, part: string): (i: nat)
    ensures i <= |children| && (i < |children| ==> Matches(children[i], part))
    ensures forall k | 0 <= k < i :: !Matches(children[k], part)
  {
    if children == [] || Matches(children[0], part) then 0 else 1 + FirstChild(children[1..], part)
  }

  predicate Wild(part: string) { part != [] && part[0] == ':' }

  function Insert(n: Node, parts: seq<string>, pattern: string, handler: int): Node
    decreases |parts|
  {
    if parts == [] then n.(pattern := pattern, handler := handler)
    else
      var i := FirstChild(n.children, parts[0]);
      if i < |n.children| then n.(children := n.children[i := Insert(n.children[i], parts[1..], pattern, handler)])
      else
        var child := Node("", parts[0], [], Wild(parts[0]), 0);
        n.(children := n.children + [Insert(child, parts[1..], pattern, handler)])
  }

  /** The first node, children in order, that the parts lead to and that holds a pattern. */
  function Search(n: Node, parts: seq<string>): Option<Node>
    decreases |parts|, 1
  {
    if parts == [] then if n.pattern == "" then None else Some(n)
    else SearchChildren(n.children, parts)
  }

  function SearchChildren(children: seq<Node>, parts: seq<string>): Option<Node>
    requires parts != []
    decreases |parts|, 0, |children|
  {
    if children == [] then None
    else if Matches(children[0], parts[0]) && Search(children[0], parts[1..]).Some? then Search(children[0], parts[1..])
    else SearchChildren(children[1..], parts)
  }

  // ---------- What every insertion keeps ----------

  /** At most one child matches everything, and it is the last. */
  ghost predicate WildLast(n: Node) {
    forall i | 0 <= i < |n.children| ::
      WildLast(n.children[i]) && n.children[i].wild == Wild(n.children[i].part) && (i < |n.children| - 1 ==> !n.children[i].wild)
  }

  lemma InsertKeepsLabel(n: Node, parts: seq<string>, pattern: string, handler: int)
    ensures var m := Insert(n, parts, pattern, handler);
            m.part == n.part && m.wild == n.wild && |m.children| >= |n.children|
    ensures parts != [] ==>
              var i, m := FirstChild(n.children, parts[0]), Insert(n, parts, pattern, handler);
              forall k | 0 <= k < |n.children| && k != i :: m.children[k] == n.children[k]
  {
  }

  lemma {:induction false} InsertWildLast(n: Node, parts: seq<string>, pattern: string, handler: int)
    requires WildLast(n)
    ensures WildLast(Insert(n, parts, pattern, handler))
    decreases |parts|
  {
    if parts != [] {
      var i := FirstChild(n.children, parts[0]);
      var child := if i < |n.children| then n.children[i] else Node("", parts[0], [], Wild(parts[0]), 0);
      InsertWildLast(child, parts[1..], pattern, handler);
      InsertKeepsLabel(child, parts[1..], pattern, handler);
    }
  }

  /** A pattern held at some depth has that many parts. */
  ghost predicate DepthOk(n: Node, depth: nat)
    decreases n
  {
    && (n.pattern != "" ==> |Split(n.pattern)| == depth)
    && forall i | 0 <= i < |n.children| :: DepthOk(n.children[i], depth + 1)
  }

  lemma {:induction false} InsertDepth(n: Node, depth: nat, parts: seq<string>, pattern: string, handler: int)
    requires DepthOk(n, depth) && |Split(pattern)| == depth + |parts|
    ensures DepthOk(Insert(n, parts, pattern, handler), depth)
    decreases |parts|
  {
    if parts != [] {
      var i := FirstChild(n.children, parts[0]);
      var child := if i < |n.children| then n.children[i] else Node("", parts[0], [], Wild(parts[0]), 0);
      InsertDepth(child, depth + 1, parts[1..], pattern, handler);
    }
  }

  // ---------- Searching ----------

  /** A way down the tree, by child numbers, along parts that match, to a node that holds a pattern. */
  ghost predicate Route(n: Node, parts: seq<string>, path: seq<nat>)
    decreases |parts|
  {
    if parts == [] then path == [] && n.pattern != ""
    else
      path != [] && path[0] < |n.children| && Matches(n.children[path[0]], parts[0]) &&
      Route(n.children[path[0]], parts[1..], path[1..])
  }

  function NodeAt(n: Node, path: seq<nat>): Node
    decreases |path|
  {
    if path == [] || path[0] >= |n.children| then n else NodeAt(n.children[path[0]], path[1..])
  }

  lemma {:induction false} ChildrenComplete(children: seq<Node>, parts: seq<string>, i: nat)
    requires parts != [] && i < |children| && Matches(children[i], parts[0]) && Search(children[i], parts[1..]).Some?
    ensures SearchChildren(children, parts).Some?
    ensures (forall k | 0 <= k < i :: !Matches(children[k], parts[0])) ==>
              SearchChildren(children, parts) == Search(children[i], parts[1..])
    decreases |children|
  {
    if i > 0 {
      assert children[1..][i - 1] == children[i];
      ChildrenComplete(children[1..], parts, i - 1);
      if forall k | 0 <= k < i :: !Matches(children[k], parts[0]) {
        assert forall k | 0 <= k < i - 1 :: children[1..][k] == children[k + 1];
      }
    }
  }

  lemma {:induction false} ChildrenSound(children: seq<Node>, parts: seq<string>) returns (i: nat)
    requires parts != [] && SearchChildren(children, parts).Some?
    ensures i < |children| && Matches(children[i], parts[0])
    ensures Search(children[i], parts[1..]) == SearchChildren(children, parts)
    decreases |children|
  {
    if Matches(children[0], parts[0]) && Search(children[0], parts[1..]).Some? {
      i := 0;
    } else {
      i := ChildrenSound(children[1..], parts);
      i := i + 1;
    }
  }

  lemma {:induction false} SearchComplete(n: Node, parts: seq<string>, path: seq<nat>)
    requires Route(n, parts, path)
    ensures Search(n, parts).Some?
    decreases |parts|
  {
    if parts != [] {
      SearchComplete(n.children[path[0]], parts[1..], path[1..]);
      ChildrenComplete(n.children, parts, path[0]);
    }
  }

  lemma {:induction false} SearchSound(n: Node, parts: seq<string>) returns (path: seq<nat>)
    requires Search(n, parts).Some?
    ensures Route(n, parts, path) && Search(n, parts) == Some(NodeAt(n, path))
    decreases |parts|
  {
    if parts == [] {
      path := [];
    } else {
      var i := ChildrenSound(n.children, parts);
      var more := SearchSound(n.children[i], parts[1..]);
      path := [i] + more;
      assert path[1..] == more;
    }
  }

  /** A search finds a node if and only if some way down the tree matches, and then the end of such a way. */
  lemma SearchExact(n: Node, parts: seq<string>)
    ensures Search(n, parts).Some? <==> exists path: seq<nat> :: Route(n, parts, path)
    ensures Search(n, parts).Some? ==> exists path: seq<nat> :: Route(n, parts, path) && Search(n, parts) == Some(NodeAt(n, path))
  {
    if Search(n, parts).Some? {
      var path := SearchSound(n, parts);
      assert Route(n, parts, path) && Search(n, parts) == Some(NodeAt(n, path));
      assert exists p: seq<nat> :: Route(n, parts, p);
    }
    if exists path: seq<nat> :: Route(n, parts, path) {
      var path: seq<nat> :| Route(n, parts, path);
      SearchComplete(n, parts, path);
    }
  }

  /** Right after its insertion a pattern is found under its own parts. */
  lemma {:induction false} InsertThenSearch(n: Node, parts: seq<string>, pattern: string, handler: int)
    requires pattern != ""
    ensures var r := Search(Insert(n, parts, pattern, handler), parts);
            r.Some? && r.value.pattern == pattern && r.value.handler == handler
    decreases |parts|
  {
    if parts != [] {
      var i := FirstChild(n.children, parts[0]);
      var child := if i < |n.children| then n.children[i] else Node("", parts[0], [], Wild(parts[0]), 0);
      var m := Insert(n, parts, pattern, handler);
      InsertThenSearch(child, parts[1..], pattern, handler);
      InsertKeepsLabel(child, parts[1..], pattern, handler);
      assert m.children[i] == Insert(child, parts[1..], pattern, handler);
      ChildrenComplete(m.children, parts, i);
    }
  }

  /** Whatever could be routed before an insertion can be routed after it. */
  lemma {:induction false} InsertKeepsRoutes(n: Node, parts: seq<string>, pattern: string, handler: int, q: seq<string>, path: seq<nat>)
    requires pattern != "" && Route(n, q, path)
    ensures Route(Insert(n, parts, pattern, handler), q, path)
    decreases |parts|
  {
    if parts != [] {
      InsertKeepsLabel(n, parts, pattern, handler);
      var i := FirstChild(n.children, parts[0]);
      if q != [] && path[0] == i {
        InsertKeepsRoutes(n.children[i], parts[1..], pattern, handler, q[1..], path[1..]);
        InsertKeepsLabel(n.children[i], parts[1..], pattern, handler);
      }
    }
  }

  // ---------- Tries built by insertions ----------

  datatype Entry = Entry(pattern: string, handler: int)

  function TrieOf(entries: seq<Entry>): Node {
    if entries == [] then ROOT
    else
      var e := entries[|entries| - 1];
      Insert(TrieOf(entries[..|entries| - 1]), Split(e.pattern), e.pattern, e.handler)
  }

  lemma {:induction false} TrieInv(entries: seq<Entry>)
    ensures WildLast(TrieOf(entries)) && DepthOk(TrieOf(entries), 0)
  {
    if entries != [] {
      var e, init := entries[|entries| - 1], entries[..|entries| - 1];
      TrieInv(init);
      InsertWildLast(TrieOf(init), Split(e.pattern), e.pattern, e.handler);
      InsertDepth(TrieOf(init), 0, Split(e.pattern), e.pattern, e.handler);
    }
  }

  lemma {:induction false} FoundDepth(n: Node, depth: nat, parts: seq<string>, path: seq<nat>)
    requires DepthOk(n, depth) && Route(n, parts, path)
    ensures var m := NodeAt(n, path); m.pattern != "" && |Split(m.pattern)| == depth + |parts|
    decreases |parts|
  {
    if parts != [] { FoundDepth(n.children[path[0]], depth + 1, parts[1..], path[1..]); }
  }
}
