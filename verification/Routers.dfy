/** The router: one trie for each request method, and the binding of the parts of a path to the parameters of
    the pattern it is routed to. */
module Routers {
  import opened Wrappers
  import opened RouteTrie
  import opened RouteMatching

  /** The parameters that a pattern binds: a later part of the same name wins. */
  function Bind(pattern: seq<string>, parts: seq<string>): map<string, string>
    requires |pattern| == |parts|
  {
    if pattern == [] then map[]
    else
      var n := |pattern| - 1;
      var m := Bind(pattern[..n], parts[..n]);
      if Wild(pattern[n]) then m[pattern[n][1..] := parts[n]] else m
  }

  /** Every parameter is bound to the part of the path at the place of the last pattern part of that name. */
  lemma {:induction false} BindExact(pattern: seq<string>, parts: seq<string>, name: string)
    requires |pattern| == |parts|
    ensures name in Bind(pattern, parts) <==> ([':'] + name) in pattern
    ensures name in Bind(pattern, parts) ==>
              exists i :: LastAt(pattern, i, [':'] + name) && Bind(pattern, parts)[name] == parts[i]
    decreases |pattern|
  {
    if pattern != [] {
      var n := |pattern| - 1;
      var last := pattern[n];
      BindExact(pattern[..n], parts[..n], name);
      assert pattern == pattern[..n] + [last];
      assert ([':'] + name)[1..] == name;
      assert Wild(last) ==> last == [':'] + last[1..];
      if last == [':'] + name {
        assert LastAt(pattern, n, [':'] + name);
      } else if name in Bind(pattern[..n], parts[..n]) {
        var i :| LastAt(pattern[..n], i, [':'] + name) && Bind(pattern[..n], parts[..n])[name] == parts[..n][i];
        assert forall j | i < j < |pattern| :: pattern[j] != [':'] + name by {
          forall j | i < j < |pattern| ensures pattern[j] != [':'] + name { if j < n { assert pattern[..n][j] == pattern[j]; } }
        }
        assert LastAt(pattern, i, [':'] + name) && parts[..n][i] == parts[i];
      }
    }
  }

  ghost predicate LastAt(s: seq<string>, i: int, x: string) {
    0 <= i < |s| && s[i] == x && forall j | i < j < |s| :: s[j] != x
  }

  class Router {
    var roots: map<string, Node>
    /** The routes added so far, by request method. */
    ghost var entries: map<string, seq<Entry>>

    ghost predicate Valid()
      reads this
    {
      roots.Keys == entries.Keys && forall m | m in roots :: roots[m] == TrieOf(entries[m])
    }

    constructor ()
      ensures Valid() && entries == map[]
    {
      roots, entries := map[], map[];
    }

    method AddRouter(verb: string, pattern: string, handler: int)
      requires Valid()
      modifies this
      ensures Valid()
      ensures var before := if verb in old(entries) then old(entries)[verb] else [];
              entries == old(entries)[verb := before + [Entry(pattern, handler)]]
    {
      hide TrieOf, Insert, Split;
      ghost var before := if verb in entries then entries[verb] else [];
      var trie := if verb in roots then roots[verb] else ROOT;
      var parts := SplitParts(pattern);
      TrieGrows(before, Entry(pattern, handler));
      roots := roots[verb := Insert(trie, parts, pattern, handler)];
      entries := entries[verb := before + [Entry(pattern, handler)]];
    }

    /** Finds the route of a path and binds its parameters. The pattern found has as many parts as the path, so
        every part that is bound exists; it matches the path whenever the patterns sit on their own labels. A path that
        a registered pattern matches is found unless the empty pattern took its route away. */
    method FindRoute(verb: string, path: string) returns (found: bool, handler: int, params: map<string, string>)
      requires Valid()
      ensures verb !in entries ==> !found
      ensures verb in entries ==>
                var t := TrieOf(entries[verb]);
                var r := Search(t, Split(path));
                && found == r.Some?
                && (found ==> handler == r.value.handler && |Split(r.value.pattern)| == |Split(path)|
                              && params == Bind(Split(r.value.pattern), Split(path)))
                && (found && Aligned(t, []) ==> Fits(Split(r.value.pattern), Split(path)))
                && (found ==> Entry(r.value.pattern, handler) in entries[verb])
                && (Kept(entries[verb]) && Registered(entries[verb], Split(path)) ==> found)
    {
      hide Aligned, Fits, Kept, Registered;
      handler, params := 0, map[];
      if verb !in roots { return false, handler, params; }
      RoutedExactly(entries[verb], path);
      var parts := SplitParts(path);
      var r := Search(roots[verb], parts);
      if r.None? { return false, handler, params; }
      FoundFits(entries[verb], path);
      var node := r.value;
      var nodeParts := SplitParts(node.pattern);
      for i := 0 to |nodeParts|
        invariant params == Bind(nodeParts[..i], parts[..i])
      {
        assert nodeParts[..i + 1][..i] == nodeParts[..i] && parts[..i + 1][..i] == parts[..i];
        if Wild(nodeParts[i]) {
          params := params[nodeParts[i][1..] := parts[i]];
        }
      }
      assert nodeParts[..|nodeParts|] == nodeParts && parts[..|parts|] == parts;
      return true, node.handler, params;
    }
  }

  lemma TrieGrows(entries: seq<Entry>, e: Entry)
    ensures TrieOf([]) == ROOT
    ensures TrieOf(entries + [e]) == Insert(TrieOf(entries), Split(e.pattern), e.pattern, e.handler)
  {
    assert (entries + [e])[..|entries|] == entries;
  }

  lemma FoundFits(entries: seq<Entry>, path: string)
    ensures var t := TrieOf(entries);
            var r := Search(t, Split(path));
            && (r.Some? ==> |Split(r.value.pattern)| == |Split(path)|)
            && (r.Some? && Aligned(t, []) ==> Fits(Split(r.value.pattern), Split(path)))
  {
    var t := TrieOf(entries);
    if Search(t, Split(path)).Some? {
      TrieInv(entries);
      var way := SearchSound(t, Split(path));
      FoundDepth(t, 0, Split(path), way);
      RoutesMatch(entries);
    }
  }
}
