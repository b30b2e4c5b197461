/** The chained hash table of the Redis client: keys compare equal exactly if they are the same string, the
    hash function is a parameter. Chains are values; a table is an array of them. */
module HashTable {
  import opened Arithmetic
  import opened Sequences
  import opened Wrappers

  type Key = string
  type Val = int
  type Hash = Key -> nat

  datatype Chain = Nil | Entry(key: Key, val: Val, next: Chain)
  datatype Pair = Pair(key: Key, val: Val)

  const INITIAL_SIZE: nat := 4
  const MAX_INT: nat := 0x7FFF_FFFF

  // ---------- Chains and buckets ----------

  function Find(c: Chain, key: Key): Option<Val> {
    if c.Nil? then None else if c.key == key then Some(c.val) else Find(c.next, key)
  }

  function Length(c: Chain): nat { if c.Nil? then 0 else 1 + Length(c.next) }

  function Pairs(c: Chain): seq<Pair> { if c.Nil? then [] else [Pair(c.key, c.val)] + Pairs(c.next) }

  function Remove(c: Chain, key: Key): Chain {
    if c.Nil? then c else if c.key == key then c.next else c.(next := Remove(c.next, key))
  }

  function Set(c: Chain, key: Key, val: Val): Chain {
    if c.Nil? then c else if c.key == key then c.(val := val) else c.(next := Set(c.next, key, val))
  }

  /** No key twice, and every key in the bucket that its hash says. */
  ghost predicate ChainOk(c: Chain, h: Hash, size: nat, i: nat)
    requires size > 0
  {
    c.Nil? || (h(c.key) % size == i && Find(c.next, c.key).None? && ChainOk(c.next, h, size, i))
  }

  ghost predicate TableOk(t: seq<Chain>, h: Hash) {
    forall i | 0 <= i < |t| :: ChainOk(t[i], h, |t|, i)
  }

  function Total(t: seq<Chain>): nat { if t == [] then 0 else Total(t[..|t| - 1]) + Length(t[|t| - 1]) }

  /** What the table holds under a key. */
  function Lookup(t: seq<Chain>, h: Hash, key: Key): Option<Val> {
    if t == [] then None else Find(t[h(key) % |t|], key)
  }

  lemma {:induction false} TotalUpdate(t: seq<Chain>, i: nat, c: Chain)
    requires i < |t|
    ensures Total(t[i := c]) == Total(t) - Length(t[i]) + Length(c)
    decreases |t|
  {
    var n := |t| - 1;
    if i == n {
      assert t[i := c][..n] == t[..n];
    } else {
      TotalUpdate(t[..n], i, c);
      assert t[i := c][..n] == t[..n][i := c];
    }
  }

  lemma {:induction false} TotalFrom(t: seq<Chain>, i: nat)
    requires i <= |t|
    ensures Total(t[..i]) <= Total(t)
    ensures i < |t| ==> Total(t[..i + 1]) == Total(t[..i]) + Length(t[i])
    ensures Total(t[..i]) == Total(t) ==> forall k | i <= k < |t| :: t[k].Nil?
    decreases |t|
  {
    if i == |t| {
      assert t[..i] == t;
    } else {
      var n := |t| - 1;
      assert t[..n][..i] == t[..i];
      TotalFrom(t[..n], i);
      assert t[..i + 1][..i] == t[..i];
      assert forall k | i <= k < n :: t[k] == t[..n][k];
    }
  }

  lemma {:induction false} RemoveExact(c: Chain, key: Key, h: Hash, size: nat, i: nat)
    requires size > 0 && ChainOk(c, h, size, i)
    ensures ChainOk(Remove(c, key), h, size, i)
    ensures forall k :: Find(Remove(c, key), k) == if k == key then None else Find(c, k)
    ensures Length(Remove(c, key)) == Length(c) - if Find(c, key).Some? then 1 else 0
  {
    if c.Entry? { RemoveExact(c.next, key, h, size, i); }
  }

  lemma {:induction false} SetExact(c: Chain, key: Key, val: Val, h: Hash, size: nat, i: nat)
    requires size > 0 && ChainOk(c, h, size, i)
    ensures ChainOk(Set(c, key, val), h, size, i)
    ensures forall k :: Find(Set(c, key, val), k) == if k == key && Find(c, k).Some? then Some(val) else Find(c, k)
    ensures Length(Set(c, key, val)) == Length(c)
  {
    if c.Entry? { SetExact(c.next, key, val, h, size, i); }
  }

  // ---------- Sizes and masks ----------

  ghost predicate IsPow2(n: nat) { exists k: nat :: n == Pow2(k) }

  function And(a: nat, b: nat): nat
    decreases a
  {
    if a == 0 || b == 0 then 0 else a % 2 * (b % 2) + 2 * And(a / 2, b / 2)
  }

  /** Masking with one less than a power of two is the remainder. */
  lemma {:induction false} AndMask(a: nat, k: nat)
    ensures Pow2(k) > 0 && And(a, Pow2(k) - 1) == a % Pow2(k)
    decreases k
  {
    if k > 0 {
      AndMask(a / 2, k - 1);
      var p := Pow2(k - 1);
      Halves(p);
      HalfMod(a, p);
      AndStep(a, 2 * p - 1);
    }
  }

  lemma Halves(p: nat)
    requires p > 0
    ensures (2 * p - 1) / 2 == p - 1 && (2 * p - 1) % 2 == 1
  {
  }

  lemma AndStep(a: nat, b: nat)
    requires b % 2 == 1
    ensures And(a, b) == a % 2 + 2 * And(a / 2, b / 2)
  {
  }

  lemma HalfMod(a: nat, p: nat)
    requires p > 0
    ensures a % (2 * p) == a % 2 + 2 * (a / 2 % p)
  {
    var q, r := a / 2 / p, a / 2 % p;
    assert a / 2 == p * q + r;
    assert a == 2 * (p * q + r) + a % 2;
    var x := a % 2 + 2 * r;
    assert a == q * (2 * p) + x && 0 <= x < 2 * p;
    ModUnique(a, q, x, 2 * p);
  }

  lemma Doubled(n: nat)
    requires IsPow2(n)
    ensures IsPow2(2 * n)
  {
    var k: nat :| n == Pow2(k);
    assert 2 * n == Pow2(k + 1);
  }

  /** There is no power of two between a power of two and its double. */
  lemma NoPowerBetween(i: nat, s: nat)
    requires IsPow2(i) && i < s
    ensures IsPow2(s) ==> 2 * i <= s
  {
    if IsPow2(s) {
      var j: nat :| i == Pow2(j);
      var k: nat :| s == Pow2(k);
      PowersGrow(j, k);
    }
  }

  lemma {:induction false} PowersGrow(j: nat, k: nat)
    ensures j <= k ==> Pow2(j) <= Pow2(k)
    ensures j < k ==> 2 * Pow2(j) <= Pow2(k)
    ensures j > k ==> Pow2(j) > Pow2(k)
    decreases j + k
  {
    if j < k { PowersGrow(j, k - 1); } else if j > k { PowersGrow(j - 1, k); Positive(k); }
  }

  lemma {:induction false} Positive(k: nat)
    ensures Pow2(k) > 0
  {
    if k > 0 { Positive(k - 1); }
  }

  lemma Four()
    ensures IsPow2(4)
  {
    assert Pow2(2) == 4;
  }

  /** The smallest size of the table that is at least `size`: a power of two. */
  method NextPower(size: nat) returns (i: nat)
    requires size <= MAX_INT
    ensures IsPow2(i) && i >= size && i >= INITIAL_SIZE && (i == INITIAL_SIZE || i < 2 * size)
    ensures IsPow2(size) && size >= INITIAL_SIZE ==> i == size
  {
    i := INITIAL_SIZE;
    Four();
    while i < size
      invariant IsPow2(i) && i >= INITIAL_SIZE && (i == INITIAL_SIZE || i < 2 * size)
      invariant IsPow2(size) && size >= INITIAL_SIZE ==> i <= size
      decreases size - i
    {
      Doubled(i);
      NoPowerBetween(i, size);
      i := i * 2;
    }
  }

  // ---------- Pushing and moving entries ----------

  function Bucket(h: Hash, key: Key, size: nat): nat
    requires size > 0
    ensures Bucket(h, key, size) < size
  {
    h(key) % size
  }

  function Pushed(t: seq<Chain>, h: Hash, key: Key, val: Val): seq<Chain>
    requires t != []
  {
    t[Bucket(h, key, |t|) := Entry(key, val, t[Bucket(h, key, |t|)])]
  }

  lemma PushedExact(t: seq<Chain>, h: Hash, key: Key, val: Val)
    requires t != [] && TableOk(t, h) && Lookup(t, h, key).None?
    ensures var p := Pushed(t, h, key, val);
            && TableOk(p, h) && Total(p) == Total(t) + 1
            && forall k :: Lookup(p, h, k) == if k == key then Some(val) else Lookup(t, h, k)
  {
    TotalUpdate(t, Bucket(h, key, |t|), Entry(key, val, t[Bucket(h, key, |t|)]));
  }

  /** While a table is copied: the buckets before `i` are done, and bucket `i` but for the entries of `he`. */
  ghost predicate Moving(t: seq<Chain>, h: Hash, i: nat, he: Chain, n: seq<Chain>)
    requires t != [] && n != []
  {
    forall k ::
      var b := Bucket(h, k, |t|);
      if b < i || (b == i && Find(he, k).None?) then Lookup(n, h, k) == Lookup(t, h, k)
      else Lookup(n, h, k).None? && (b == i ==> Find(he, k) == Lookup(t, h, k))
  }

  lemma MoveOne(t: seq<Chain>, h: Hash, i: nat, he: Chain, n: seq<Chain>)
    requires t != [] && n != [] && TableOk(n, h) && i < |t| && he.Entry? && ChainOk(he, h, |t|, i) && Moving(t, h, i, he, n)
    ensures var p := Pushed(n, h, he.key, he.val);
            TableOk(p, h) && Moving(t, h, i, he.next, p) && Total(p) == Total(n) + 1
  {
    PushedExact(n, h, he.key, he.val);
    hide TableOk, Pushed, Lookup;
  }

  // ---------- The dictionary ----------

  class Dict {
    const hash: Hash
    var table: array<Chain>
    var size: nat
    var sizemask: nat
    var used: nat

    ghost predicate Valid()
      reads this, table
    {
      && size == table.Length <= MAX_INT
      && (size > 0 ==> IsPow2(size) && sizemask == size - 1)
      && TableOk(table[..], hash) && used == Total(table[..])
    }

    /** What the dictionary holds under a key. */
    ghost function Get(key: Key): Option<Val>
      reads this, table
    {
      Lookup(table[..], hash, key)
    }

    constructor (hash: Hash)
      ensures Valid() && used == 0 && size == 0 && (forall k :: Get(k).None?) && fresh(table) && this.hash == hash
    {
      this.hash := hash;
      table := new Chain[0];
      size, sizemask, used := 0, 0, 0;
    }

    method Index(key: Key) returns (i: nat)
      requires Valid() && size > 0
      ensures i == Bucket(hash, key, size)
    {
      var k: nat :| size == Pow2(k);
      AndMask(hash(key), k);
      i := And(hash(key), sizemask);
    }

    /** Moves every entry to a new table. */
    method Expand(newSize: nat) returns (ok: bool)
      requires Valid() && newSize <= MAX_INT
      requires newSize <= 0x4000_0000 || IsPow2(newSize)
      modifies this
      ensures Valid() && ok == (old(used) <= newSize) && (ok ==> fresh(table) && size >= newSize && size >= INITIAL_SIZE)
      ensures !ok ==> table == old(table) && size == old(size)
      ensures used == old(used) && forall k :: Get(k) == old(Get(k))
    {
      var realsize := NextPower(newSize);
      if used > newSize { return false; }
      var n := new Chain[realsize](_ => Nil);
      EmptyTable(n[..], hash);
      ghost var t := table[..];
      var left := used;
      if size > 0 { left := MoveAll(n); }
      ghost var total := used;
      assert left == 0 by { if size == 0 { assert t == []; } }
      table := n;
      size := realsize;
      sizemask := realsize - 1;
      return true;
    }

    /** The loops of `Expand`; the entries not moved yet are counted. */
    method MoveAll(n: array<Chain>) returns (left: nat)
      requires Valid() && size > 0 && n.Length > 0 && n != table && TableOk(n[..], hash) && Total(n[..]) == 0
      requires forall k :: Lookup(n[..], hash, k).None?
      modifies n
      ensures left == 0 && TableOk(n[..], hash) && Total(n[..]) == used
      ensures forall k :: Lookup(n[..], hash, k) == Get(k)
    {
      hide TableOk, Total;
      left := used;
      ghost var t := table[..];
      var i := 0;
      NoneBefore(t);
      while i < size && left > 0
        invariant 0 <= i <= size && table[..] == t && TableOk(n[..], hash)
        invariant left == Total(t) - Total(t[..i]) && Total(n[..]) + left == Total(t)
        invariant Between(t, hash, i, n[..])
      {
        TotalFrom(t, i);
        TotalFrom(t, i + 1);
        BucketStarts(t, hash, i, n[..]);
        left := MoveBucket(n, i, left);
        i := i + 1;
      }
      TotalFrom(t, i);
      assert t[..|t|] == t;
      AllMoved(t, hash, i, n[..]);
    }

    /** Moves the entries of one bucket, each to the head of its new bucket. */
    method MoveBucket(n: array<Chain>, i: nat, left: nat) returns (left': nat)
      requires i < table.Length && n.Length > 0 && n != table && TableOk(n[..], hash)
      requires ChainOk(table[i], hash, table.Length, i) && Moving(table[..], hash, i, table[i], n[..])
      requires left >= Length(table[i])
      modifies n
      ensures TableOk(n[..], hash) && Between(table[..], hash, i + 1, n[..])
      ensures left' == left - Length(table[i]) && Total(n[..]) == old(Total(n[..])) + Length(table[i])
    {
      hide TableOk, Total, Moving;
      ghost var t := table[..];
      var he := table[i];
      left' := left;
      while he.Entry?
        invariant table[..] == t && TableOk(n[..], hash) && ChainOk(he, hash, |t|, i)
        invariant Moving(t, hash, i, he, n[..])
        invariant Length(he) <= left' && left' - Length(he) == left - Length(t[i])
        invariant Total(n[..]) + Length(he) == old(Total(n[..])) + Length(t[i])
        decreases he
      {
        ghost var was := n[..];
        MoveOne(t, hash, i, he, was);
        var b := hash(he.key) % n.Length;
        n[b] := Entry(he.key, he.val, n[b]);
        assert n[..] == Pushed(was, hash, he.key, he.val);
        left' := left' - 1;
        he := he.next;
      }
      BucketDone(t, hash, i, n[..]);
    }

    /** Expands an empty table to the initial size and a full one to twice its size. */
    method ExpandIfNeeded() returns (ok: bool)
      requires Valid() && 2 * size <= MAX_INT
      modifies this
      ensures Valid() && ok && size > 0 && (table == old(table) || fresh(table))
      ensures used == old(used) && forall k :: Get(k) == old(Get(k))
    {
      if size == 0 {
        TotalNone(table[..]);
        ok := Expand(INITIAL_SIZE);
      } else if used == size {
        Doubled(size);
        ok := Expand(size * 2);
      } else {
        ok := true;
      }
    }

    /** The bucket for a new key; -1 if the key is there already. */
    method KeyIndex(key: Key) returns (index: int)
      requires Valid() && 2 * size <= MAX_INT
      modifies this
      ensures Valid() && (table == old(table) || fresh(table)) && size > 0
      ensures used == old(used) && forall k :: Get(k) == old(Get(k))
      ensures index == if old(Get(key)).Some? then -1 else Bucket(hash, key, size)
    {
      var ok := ExpandIfNeeded();
      if !ok { return -1; }
      var h := Index(key);
      var he := table[h];
      while he.Entry?
        invariant Find(he, key) == Find(table[h], key)
        decreases he
      {
        if key == he.key { return -1; }
        he := he.next;
      }
      index := h;
    }

    /** Adds a key that is not there. */
    method Add(key: Key, val: Val) returns (ok: bool)
      requires Valid() && 2 * size <= MAX_INT
      modifies this, table
      ensures Valid() && (table == old(table) || fresh(table))
      ensures ok == old(Get(key)).None? && used == old(used) + if ok then 1 else 0
      ensures forall k :: Get(k) == if ok && k == key then Some(val) else old(Get(k))
    {
      var index := KeyIndex(key);
      if index == -1 { return false; }
      ghost var t := table[..];
      PushedExact(t, hash, key, val);
      table[index] := Entry(key, val, table[index]);
      assert table[..] == Pushed(t, hash, key, val);
      used := used + 1;
      ok := true;
    }

    method FindEntry(key: Key) returns (r: Option<Val>)
      requires Valid()
      ensures r == Get(key)
    {
      if size == 0 { return None; }
      var h := Index(key);
      var he := table[h];
      while he.Entry?
        invariant Find(he, key) == Find(table[h], key)
        decreases he
      {
        if key == he.key { return Some(he.val); }
        he := he.next;
      }
      r := None;
    }

    /** Adds a key or replaces its value. */
    method Replace(key: Key, val: Val) returns (added: bool)
      requires Valid() && 2 * size <= MAX_INT
      modifies this, table
      ensures Valid() && (table == old(table) || fresh(table))
      ensures added == old(Get(key)).None? && used == old(used) + if added then 1 else 0
      ensures forall k :: Get(k) == if k == key then Some(val) else old(Get(k))
    {
      added := Add(key, val);
      if added { return; }
      var h := Index(key);
      ghost var t := table[..];
      SetExact(t[h], key, val, hash, size, h);
      TotalUpdate(t, h, Set(t[h], key, val));
      table[h] := Set(table[h], key, val);
      assert table[..] == t[h := Set(t[h], key, val)];
    }

    method Delete(key: Key) returns (ok: bool)
      requires Valid()
      modifies this`used, table
      ensures Valid()
      ensures ok == old(Get(key)).Some? && used == old(used) - if ok then 1 else 0
      ensures forall k :: Get(k) == if k == key then None else old(Get(k))
      ensures forall i | 0 <= i < size && i != Bucket(hash, key, size) :: table[i] == old(table[i])
    {
      if size == 0 { return false; }
      var h := Index(key);
      ghost var t := table[..];
      RemoveExact(t[h], key, hash, size, h);
      TotalUpdate(t, h, Remove(t[h], key));
      TotalFrom(t, h);
      TotalFrom(t, h + 1);
      if Find(table[h], key).None? {
        RemoveNothing(t[h], key);
        return false;
      }
      FoundLength(t[h], key);
      table[h] := Remove(table[h], key);
      assert table[..] == t[h := Remove(t[h], key)];
      used := used - 1;
      ok := true;
    }
  }

  // ---------- Iteration ----------

  /** The entries from bucket `i` on, in the order of the buckets. */
  function PairsFrom(t: seq<Chain>, i: nat): seq<Pair>
    decreases |t| - i
  {
    if i >= |t| then [] else Pairs(t[i]) + PairsFrom(t, i + 1)
  }

  /** Changes to buckets before `i` do not matter from there on. */
  lemma {:induction false} SameFrom(t: seq<Chain>, u: seq<Chain>, i: nat)
    requires |t| == |u| && forall k | i <= k < |t| :: t[k] == u[k]
    ensures PairsFrom(t, i) == PairsFrom(u, i)
    decreases |t| - i
  {
    if i < |t| { SameFrom(t, u, i + 1); }
  }

  class DictIterator {
    const ht: Dict
    var index: int
    var entry: Chain
    var nextEntry: Chain

    ghost predicate Valid()
      reads this, ht
    {
      && -1 <= index <= ht.size
      && (entry.Entry? ==> 0 <= index < ht.size && Bucket(ht.hash, entry.key, ht.size) == index
                           && ChainOk(nextEntry, ht.hash, ht.size, index))
    }

    /** The entries still to be visited: it does not depend on the bucket of the entry visited last. */
    ghost function Left(): seq<Pair>
      requires Valid()
      reads this, ht, ht.table
    {
      (if entry.Nil? then [] else Pairs(nextEntry)) + PairsFrom(ht.table[..], index + 1)
    }

    constructor (ht: Dict)
      requires ht.Valid()
      ensures Valid() && this.ht == ht && Left() == PairsFrom(ht.table[..], 0)
    {
      this.ht := ht;
      index, entry, nextEntry := -1, Nil, Nil;
    }

    /** The next bucket: false past the last one. */
    method Step() returns (more: bool)
      requires Valid() && ht.Valid() && entry.Nil? && index < ht.size
      modifies this
      ensures Valid() && index == old(index) + 1 && more == (index < ht.size)
      ensures !more ==> entry.Nil? && old(Left()) == [] == Left()
      ensures more ==> ChainOk(entry, ht.hash, ht.size, index) && old(Left()) == Pairs(entry) + PairsFrom(ht.table[..], index + 1)
      ensures entry.Entry? ==> nextEntry == entry.next
    {
      FromNext(ht.table[..], index + 1, ht.hash);
      hide PairsFrom, Pairs, TableOk;
      index := index + 1;
      if index >= ht.size { return false; }
      entry := ht.table[index];
      if entry.Entry? { nextEntry := entry.next; }
      more := true;
    }

    method Next() returns (r: Chain)
      requires Valid() && ht.Valid()
      modifies this
      ensures Valid()
      ensures if old(Left()) == [] then r.Nil? else r.Entry? && r == entry && old(Left()) == [Pair(r.key, r.val)] + Left()
    {
      hide PairsFrom, Pairs, ChainOk, TableOk;
      ghost var left, rest := Left(), PairsFrom(ht.table[..], index + 1);
      if entry.Entry? {
        FirstPair(nextEntry, ht.hash, ht.size, index, rest);
        entry := nextEntry;
        if entry.Entry? {
          nextEntry := entry.next;
          return entry;
        }
      }
      while index < ht.size
        invariant Valid() && entry.Nil? && Left() == left
        decreases ht.size - index
      {
        var more := Step();
        if !more { return Nil; }
        FirstPair(entry, ht.hash, ht.size, index, PairsFrom(ht.table[..], index + 1));
        if entry.Entry? { return entry; }
      }
      PastTheEnd(ht.table[..], index + 1);
      return Nil;
    }
  }

  lemma FromNext(t: seq<Chain>, i: nat, h: Hash)
    requires TableOk(t, h)
    ensures [] + PairsFrom(t, i) == if i >= |t| then [] else Pairs(t[i]) + PairsFrom(t, i + 1)
    ensures i >= |t| ==> PairsFrom(t, |t| + 1) == []
    ensures i < |t| ==> ChainOk(t[i], h, |t|, i)
  {
  }

  lemma PastTheEnd(t: seq<Chain>, i: nat)
    requires i >= |t|
    ensures [] + PairsFrom(t, i) == []
  {
  }

  lemma FirstPair(c: Chain, h: Hash, size: nat, i: nat, rest: seq<Pair>)
    requires size > 0 && ChainOk(c, h, size, i)
    ensures c.Nil? ==> Pairs(c) + rest == [] + rest
    ensures c.Entry? ==> Pairs(c) + rest == [Pair(c.key, c.val)] + (Pairs(c.next) + rest)
    ensures c.Entry? ==> Bucket(h, c.key, size) == i && ChainOk(c.next, h, size, i)
  {
  }

  /** Visits a dictionary and deletes some of the entries while they are visited: every entry that was there
      at the start is visited exactly once, in the order of the buckets. */
  method Visit(ht: Dict, delete: seq<bool>) returns (visited: seq<Pair>)
    requires ht.Valid()
    modifies ht`used, ht.table
    ensures ht.Valid() && visited == old(PairsFrom(ht.table[..], 0))
  {
    hide PairsFrom, Pairs, ChainOk, TableOk, Total, Find, Lookup, IsPow2, Bucket;
    var iter := new DictIterator(ht);
    visited := [];
    NothingMore(iter.Left());
    while true
      invariant ht.Valid() && iter.Valid() && iter.ht == ht && ht.table == old(ht.table) && fresh(iter)
      invariant visited + iter.Left() == old(PairsFrom(ht.table[..], 0))
      decreases |iter.Left()|
    {
      ghost var left := iter.Left();
      var e := iter.Next();
      if e.Nil? {
        NothingMore(visited);
        return;
      }
      Regroup(visited, [Pair(e.key, e.val)], iter.Left());
      visited := visited + [Pair(e.key, e.val)];
      if |visited| <= |delete| && delete[|visited| - 1] { DeleteVisited(iter); }
    }
  }

  lemma NothingMore(ps: seq<Pair>)
    ensures [] + ps == ps == ps + []
  {
  }

  /** Deletes the entry visited last; the entries still to be visited stay. */
  method DeleteVisited(iter: DictIterator)
    requires iter.Valid() && iter.ht.Valid() && iter.entry.Entry?
    modifies iter.ht`used, iter.ht.table
    ensures iter.Valid() && iter.ht.Valid() && iter.Left() == old(iter.Left())
  {
    hide PairsFrom, Pairs, ChainOk, TableOk, Total, Find, Lookup, IsPow2, Bucket;
    ghost var t := iter.ht.table[..];
    var ok := iter.ht.Delete(iter.entry.key);
    SameFrom(t, iter.ht.table[..], iter.index + 1);
  }

  /** The pairs of a table are exactly what can be looked up, and as many as `Total` counts. */
  lemma {:induction false} PairsExact(t: seq<Chain>, h: Hash, i: nat)
    requires i <= |t| && TableOk(t, h)
    ensures forall k, v :: Pair(k, v) in PairsFrom(t, i) <==> Lookup(t, h, k) == Some(v) && Bucket(h, k, |t|) >= i
    ensures |PairsFrom(t, i)| == Total(t) - Total(t[..i])
    decreases |t| - i
  {
    TotalFrom(t, i);
    if i < |t| {
      PairsExact(t, h, i + 1);
      ChainPairs(t[i], h, |t|, i);
    } else {
      assert t[..i] == t;
    }
  }

  lemma {:induction false} ChainPairs(c: Chain, h: Hash, size: nat, i: nat)
    requires size > 0 && ChainOk(c, h, size, i)
    ensures forall k, v :: Pair(k, v) in Pairs(c) <==> Find(c, k) == Some(v)
    ensures forall k :: Find(c, k).Some? ==> Bucket(h, k, size) == i
    ensures |Pairs(c)| == Length(c)
  {
    if c.Entry? { ChainPairs(c.next, h, size, i); }
  }

  lemma TotalNone(t: seq<Chain>)
    ensures t == [] ==> Total(t) == 0
  {
  }

  lemma {:induction false} RemoveNothing(c: Chain, key: Key)
    requires Find(c, key).None?
    ensures Remove(c, key) == c
  {
    if c.Entry? { RemoveNothing(c.next, key); }
  }

  lemma {:induction false} FoundLength(c: Chain, key: Key)
    requires Find(c, key).Some?
    ensures Length(c) > 0
  {
  }

  lemma EmptyTable(t: seq<Chain>, h: Hash)
    requires forall i | 0 <= i < |t| :: t[i].Nil?
    ensures TableOk(t, h) && Total(t) == 0 && forall k :: Lookup(t, h, k).None?
  {
    if t != [] { EmptyTable(t[..|t| - 1], h); }
  }

  lemma NoneBefore(t: seq<Chain>)
    ensures Total(t[..0]) == 0
  {
  }

  /** Between two buckets: those before `i` have been copied. */
  ghost predicate Between(t: seq<Chain>, h: Hash, i: nat, n: seq<Chain>)
    requires t != [] && n != []
  {
    forall k :: Lookup(n, h, k) == if Bucket(h, k, |t|) < i then Lookup(t, h, k) else None
  }

  lemma BucketStarts(t: seq<Chain>, h: Hash, i: nat, n: seq<Chain>)
    requires t != [] && n != [] && TableOk(t, h) && i < |t| && Between(t, h, i, n)
    ensures ChainOk(t[i], h, |t|, i) && Moving(t, h, i, t[i], n)
  {
  }

  lemma BucketDone(t: seq<Chain>, h: Hash, i: nat, n: seq<Chain>)
    requires t != [] && n != [] && Moving(t, h, i, Nil, n)
    ensures Between(t, h, i + 1, n)
  {
  }

  lemma AllMoved(t: seq<Chain>, h: Hash, i: nat, n: seq<Chain>)
    requires t != [] && n != [] && i <= |t| && Between(t, h, i, n)
    requires forall k | i <= k < |t| :: t[k].Nil?
    ensures forall k :: Lookup(n, h, k) == Lookup(t, h, k)
  {
  }
}
