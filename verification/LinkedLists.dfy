/** The intrusive doubly linked list: the nodes carry their own links, and a list is a head, a tail and a
    size. `items` says which sequence of nodes the links spell. */
module LinkedLists {

  datatype State = READY | HOLD | EXEC | TERM

  class Coroutine {
    var pre: Coroutine?
    var next: Coroutine?
    var state: State

    constructor ()
      ensures state == READY && pre == null && next == null
    {
      pre, next, state := null, null, READY;
    }
  }

  predicate Distinct<T(==)>(s: seq<T>) { forall i, j | 0 <= i < j < |s| :: s[i] != s[j] }

  /** A sequence without one of its elements. */
  function Without<T(==)>(s: seq<T>, x: T): seq<T> {
    if s == [] then [] else if s[0] == x then s[1..] else [s[0]] + Without(s[1..], x)
  }

  lemma {:induction false} WithoutAt<T>(s: seq<T>, k: nat)
    requires k < |s| && Distinct(s)
    ensures Without(s, s[k]) == s[..k] + s[k + 1..]
    decreases |s|
  {
    if k > 0 {
      assert forall i | 0 <= i < |s[1..]| :: s[1..][i] == s[i + 1];
      WithoutAt(s[1..], k - 1);
      assert [s[0]] + (s[1..][..k - 1] + s[1..][k..]) == s[..k] + s[k + 1..];
    }
  }

  function Before(s: seq<Coroutine>, i: int): Coroutine? { if 0 < i <= |s| then s[i - 1] else null }

  function After(s: seq<Coroutine>, i: int): Coroutine? { if 0 <= i + 1 < |s| then s[i + 1] else null }

  /** The links of the nodes spell the sequence. */
  ghost predicate Linked(s: seq<Coroutine>)
    reads s`pre, s`next
  {
    forall i | 0 <= i < |s| :: s[i].pre == Before(s, i) && s[i].next == After(s, i)
  }

  function Only(c: Coroutine?): set<Coroutine> { if c == null then {} else {c} }

  /** Where each node is; nodes at different places are different. */
  lemma Places(s: seq<Coroutine>) returns (at: map<Coroutine, int>)
    requires Distinct(s)
    ensures forall i | 0 <= i < |s| :: s[i] in at && at[s[i]] == i
  {
    at := map i: int | 0 <= i < |s| :: s[i] := i;
  }

  lemma DistinctConcat(a: seq<Coroutine>, b: seq<Coroutine>)
    requires Distinct(a) && Distinct(b) && forall c | c in a :: c !in b
    ensures Distinct(a + b)
  {
    var s := a + b;
    forall i, j | 0 <= i < j < |s| ensures s[i] != s[j] {
      if i < |a| <= j { assert a[i] in a && b[j - |a|] in b; }
    }
  }

  lemma DistinctSnoc(a: seq<Coroutine>, x: Coroutine)
    requires Distinct(a) && x !in a
    ensures Distinct(a + [x])
  {
  }

  lemma DistinctRemove(s: seq<Coroutine>, k: nat)
    requires Distinct(s) && k < |s|
    ensures Distinct(s[..k] + s[k + 1..]) && s[k] !in s[..k] + s[k + 1..]
  {
  }

  class LinkedList {
    var head: Coroutine?
    var tail: Coroutine?
    var size: nat
    ghost var items: seq<Coroutine>

    /** The tail of an empty list may still point at the node that was erased last. */
    ghost predicate Valid()
      reads this, items`pre, items`next
    {
      && size == |items| && Distinct(items) && Linked(items)
      && head == (if items == [] then null else items[0])
      && (items != [] ==> tail == items[|items| - 1])
    }

    /** The last node, if there is one. */
    ghost function Last(): set<Coroutine>
      reads this
    {
      if size == 0 then {} else Only(tail)
    }

    /** The nodes that an operation can reach are nodes of the list. */
    lemma Reach()
      requires Valid()
      ensures forall c | c in Last() :: c in items
      ensures forall c | c in items :: forall d | d in Only(c.pre) || d in Only(c.next) :: d in items
    {
    }

    constructor ()
      ensures Valid() && items == []
    {
      head, tail, size, items := null, null, 0, [];
    }

    method Push(val: Coroutine)
      requires Valid() && val !in items
      modifies this, Last()`next, val`pre, val`next
      ensures Valid() && items == old(items) + [val] && val.next == null
    {
      DistinctSnoc(items, val);
      hide Distinct, Linked;
      if size == 0 {
        head, tail := val, val;
        tail.next := null;
        head.pre := null;
        OneLinked(val);
        assert items + [val] == [val];
      } else {
        Append(items, tail, val);
        tail := val;
      }
      size := size + 1;
      items := items + [val];
    }

    lemma OneLinked(val: Coroutine)
      requires val.pre == null && val.next == null
      ensures Linked([val])
    {
    }

    /** The links between the last node and a new one. */
    static method Append(ghost a: seq<Coroutine>, last: Coroutine, val: Coroutine)
      requires Linked(a) && Distinct(a + [val]) && a != [] && last == a[|a| - 1]
      modifies last`next, val`pre, val`next
      ensures Linked(a + [val]) && val.next == null
    {
      ghost var s := a + [val];
      ghost var at := Places(s);
      hide Distinct;
      assert last == s[|a| - 1] && val == s[|a|];
      last.next := val;
      val.pre := last;
      val.next := null;
      forall i | 0 <= i < |s| ensures s[i].pre == Before(s, i) && s[i].next == After(s, i) {
        assert at[s[i]] == i && (i < |a| ==> s[i] == a[i]);
      }
    }

    /** Moves a whole list to the end of this one; an empty list only to an empty one, as its missing head is
        linked to the tail otherwise. */
    method PushList(list: LinkedList)
      requires Valid() && list.Valid() && list != this && (list.items != [] || items == [])
      requires forall c | c in items :: c !in list.items
      modifies this, list, Last()`next, Only(list.head)`pre, list.Last()`next
      ensures Valid() && list.Valid() && items == old(items) + old(list.items) && list.items == []
    {
      hide Distinct, Linked;
      ghost var a, b := items, list.items;
      DistinctConcat(a, b);
      var begin, end, n := list.head, list.tail, list.size;
      if size == 0 {
        head, tail, size := begin, end, n;
        assert a + b == b;
      } else {
        Join(a, b, tail, begin, end);
        tail := end;
        size := size + n;
      }
      items := items + list.items;
      list.Clear();
    }

    /** The links between the end of one chain of nodes and the start of another. */
    static method Join(ghost a: seq<Coroutine>, ghost b: seq<Coroutine>, last: Coroutine, begin: Coroutine, end: Coroutine)
      requires Linked(a) && Linked(b) && Distinct(a + b) && a != [] && b != []
      requires last == a[|a| - 1] && begin == b[0] && end == b[|b| - 1]
      modifies last`next, begin`pre, end`next
      ensures Linked(a + b)
    {
      ghost var s := a + b;
      ghost var at := Places(s);
      hide Distinct;
      assert last == s[|a| - 1] && begin == s[|a|] && end == s[|s| - 1];
      last.next := begin;
      begin.pre := last;
      end.next := null;
      forall i | 0 <= i < |s| ensures s[i].pre == Before(s, i) && s[i].next == After(s, i) {
        assert at[s[i]] == i && s[i] == if i < |a| then a[i] else b[i - |a|];
      }
    }

    method Clear()
      modifies this
      ensures Valid() && items == []
    {
      head, tail, size, items := null, null, 0, [];
    }

    method Erase(val: Coroutine)
      requires Valid() && val in items
      modifies this, Only(val.pre)`next, Only(val.next)`pre
      ensures Valid() && items == Without(old(items), val) && val !in items
      ensures forall c | c in items :: c in old(items)
    {
      hide Distinct, Without, Linked;
      ghost var s := items;
      ghost var k :| 0 <= k < |s| && s[k] == val;
      WithoutAt(s, k);
      DistinctRemove(s, k);
      FirstOrLast(s, k);
      if val.pre == null {
        EraseFirst(s);
      } else if val.next == null {
        EraseLast(s);
      } else {
        EraseInside(s, k, val);
      }
      size := size - 1;
      items := s[..k] + s[k + 1..];
    }

    method EraseFirst(ghost s: seq<Coroutine>)
      requires Linked(s) && Distinct(s) && s != [] && head == s[0] && head.pre == null
      modifies this`head, Only(head.next)`pre
      ensures Linked(s[..0] + s[1..]) && head == if |s| > 1 then s[1] else null
    {
      ghost var at := Places(s);
      hide Distinct;
      ghost var t := s[..0] + s[1..];
      head := head.next;
      if head != null { head.pre := null; }
      forall i | 0 <= i < |t| ensures t[i].pre == Before(t, i) && t[i].next == After(t, i) {
        assert t[i] == s[i + 1] && at[s[i + 1]] == i + 1;
      }
    }

    method EraseLast(ghost s: seq<Coroutine>)
      requires Linked(s) && Distinct(s) && |s| > 1 && tail == s[|s| - 1]
      modifies this`tail, Only(tail.pre)`next
      ensures Linked(s[..|s| - 1] + s[|s|..]) && tail == s[|s| - 2]
    {
      ghost var at := Places(s);
      hide Distinct;
      ghost var t := s[..|s| - 1] + s[|s|..];
      tail := tail.pre;
      if tail != null { tail.next := null; }
      forall i | 0 <= i < |t| ensures t[i].pre == Before(t, i) && t[i].next == After(t, i) {
        assert t[i] == s[i] && at[s[i]] == i;
      }
    }

    method EraseInside(ghost s: seq<Coroutine>, ghost k: nat, val: Coroutine)
      requires Linked(s) && Distinct(s) && 0 < k < |s| - 1 && val == s[k]
      modifies Only(val.pre)`next, Only(val.next)`pre
      ensures Linked(s[..k] + s[k + 1..])
    {
      ghost var at := Places(s);
      hide Distinct;
      ghost var t := s[..k] + s[k + 1..];
      val.pre.next := val.next;
      val.next.pre := val.pre;
      forall i | 0 <= i < |t| ensures t[i].pre == Before(t, i) && t[i].next == After(t, i) {
        var o := if i < k then i else i + 1;
        assert t[i] == s[o] && at[s[o]] == o;
      }
    }

    lemma FirstOrLast(s: seq<Coroutine>, k: nat)
      requires Linked(s) && k < |s|
      ensures s[k].pre == null <==> k == 0
      ensures s[k].next == null <==> k == |s| - 1
    {
    }

    /** The node after one that is in the list. */
    method Next(current: Coroutine) returns (r: Coroutine?)
      requires Valid() && current in items
      ensures r == Successor(items, current)
      ensures r != null ==> r in items
    {
      ghost var k :| 0 <= k < |items| && items[k] == current;
      SuccessorAt(items, k);
      r := current.next;
    }
  }

  function Successor(s: seq<Coroutine>, x: Coroutine): Coroutine? {
    if |s| < 2 then null else if s[0] == x then s[1] else Successor(s[1..], x)
  }

  lemma {:induction false} SuccessorAt(s: seq<Coroutine>, k: nat)
    requires k < |s| && Distinct(s)
    ensures Successor(s, s[k]) == if k + 1 < |s| then s[k + 1] else null
    decreases |s|
  {
    if k > 0 {
      assert forall i | 0 <= i < |s[1..]| :: s[1..][i] == s[i + 1];
      SuccessorAt(s[1..], k - 1);
    }
  }
}
