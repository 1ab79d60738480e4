/** The bounded cache of provider clients: a map and a list of shared entries that behave
    like a plain list of keys and values in order of last use. */
module ClientCache {
  import opened Options

  type Key = string
  type Client = nat

  const DEFAULT_CAPACITY: nat := 64

  datatype Pair = Pair(key: Key, client: Client)

  // ----- the plain recency list -----

  predicate DistinctKeys(l: seq<Pair>) { forall i, j :: 0 <= i < j < |l| ==> l[i].key != l[j].key }

  /** Where a key stands in the list, or the length of the list. */
  function Position(l: seq<Pair>, k: Key): (p: nat)
    ensures p <= |l|
    ensures p < |l| ==> l[p].key == k
    ensures forall i :: 0 <= i < p ==> l[i].key != k
  {
    if l == [] || l[0].key == k then 0 else 1 + Position(l[1..], k)
  }

  function Lookup(l: seq<Pair>, k: Key): Option<Client> {
    if Position(l, k) < |l| then Some(l[Position(l, k)].client) else None
  }

  function Remove(l: seq<Pair>, k: Key): seq<Pair> {
    var p := Position(l, k);
    if p < |l| then l[..p] + l[p+1..] else l
  }

  function Take(l: seq<Pair>, n: nat): seq<Pair> { if |l| <= n then l else l[..n] }

  /** The list after reading a key. */
  function AfterGet(l: seq<Pair>, k: Key): seq<Pair> {
    match Lookup(l, k) case None => l case Some(c) => [Pair(k, c)] + Remove(l, k)
  }

  /** The list after writing a key. */
  function AfterPut(l: seq<Pair>, k: Key, c: Client, capacity: nat): seq<Pair> {
    Take([Pair(k, c)] + Remove(l, k), capacity)
  }

  lemma PositionIs(l: seq<Pair>, k: Key, p: nat)
    requires DistinctKeys(l) && p < |l| && l[p].key == k
    ensures Position(l, k) == p
  {}

  // ----- the cache -----

  class Entry {
    const key: Key
    var client: Client

    constructor (k: Key, c: Client)
      ensures key == k && client == c
    {
      key, client := k, c;
    }
  }

  function Pairs(order: seq<Entry>): (l: seq<Pair>)
    reads order
    ensures |l| == |order| && forall i :: 0 <= i < |l| ==> l[i] == Pair(order[i].key, order[i].client)
  {
    seq(|order|, i requires 0 <= i < |order| reads order => Pair(order[i].key, order[i].client))
  }

  // ----- entries in order and the map over them -----

  ghost predicate OneEach(order: seq<Entry>) { forall i, j :: 0 <= i < j < |order| ==> order[i].key != order[j].key }

  /** The map that leads from each key to its entry. */
  ghost function Index(order: seq<Entry>): map<Key, Entry> {
    if order == [] then map[] else Index(order[1..])[order[0].key := order[0]]
  }

  /** Where the map's entry for a key stands in the list, or the length of the list. */
  lemma {:induction false} IndexFinds(order: seq<Entry>, k: Key) returns (p: nat)
    ensures p <= |order| && (k in Index(order) <==> p < |order|)
    ensures p < |order| ==> order[p].key == k && Index(order)[k] == order[p]
    ensures forall i :: 0 <= i < p ==> order[i].key != k
  {
    p := 0;
    if order != [] && order[0].key != k {
      p := IndexFinds(order[1..], k);
      p := p + 1;
    }
  }

  function Moved<T>(s: seq<T>, p: nat): (r: seq<T>)
    requires p < |s|
    ensures |r| == |s|
    ensures forall i :: 0 <= i < |r| ==> r[i] == if i == 0 then s[p] else if i <= p then s[i-1] else s[i]
  {
    [s[p]] + s[..p] + s[p+1..]
  }

  lemma MovedOneEach(order: seq<Entry>, p: nat)
    requires OneEach(order) && p < |order|
    ensures OneEach(Moved(order, p))
  {}

  /** The map depends on the entries only, not on their order. */
  lemma SameEntries(a: seq<Entry>, b: seq<Entry>, k: Key)
    requires OneEach(b) && (forall e :: e in a ==> e in b) && (forall e :: e in b ==> e in a)
    ensures k in Index(a) <==> k in Index(b)
    ensures k in Index(b) ==> Index(a)[k] == Index(b)[k]
  {
    var i := IndexFinds(a, k);
    var j := IndexFinds(b, k);
    assert j < |b| ==> b[j] in b;
    if i < |a| {
      assert a[i] in b;
      var x :| 0 <= x < |b| && b[x] == a[i];
      assert x == j;
    }
  }

  lemma MovedSameEntries<T>(s: seq<T>, p: nat)
    requires p < |s|
    ensures forall x :: x in Moved(s, p) <==> x in s
  {
    var m := Moved(s, p);
    forall i | 0 <= i < |s| ensures s[i] in m {
      assert m[if i < p then i + 1 else if i == p then 0 else i] == s[i];
    }
  }

  lemma MovedIndex(order: seq<Entry>, p: nat)
    requires OneEach(order) && p < |order|
    ensures Index(Moved(order, p)) == Index(order)
  {
    MovedSameEntries(order, p);
    forall k ensures k in Index(Moved(order, p)) <==> k in Index(order)
             ensures k in Index(order) ==> Index(Moved(order, p))[k] == Index(order)[k]
    {
      SameEntries(Moved(order, p), order, k);
    }
  }

  lemma {:induction false} EvictedIndex(order: seq<Entry>)
    requires OneEach(order) && order != []
    ensures Index(order[..|order|-1]) == Index(order) - {order[|order|-1].key}
  {
    var n := |order| - 1;
    if n == 0 {
      assert order[..0] == [] && order[1..] == [];
    } else {
      assert order[..n][1..] == order[1..][..n-1] && order[1..][n-1] == order[n];
      EvictedIndex(order[1..]);
    }
  }

  lemma AddedIndex(order: seq<Entry>, e: Entry)
    requires OneEach(order) && e.key !in Index(order)
    ensures OneEach([e] + order) && Index([e] + order) == Index(order)[e.key := e]
  {
    var p := IndexFinds(order, e.key);
    assert ([e] + order)[1..] == order;
  }

  lemma PairsMoved(order: seq<Entry>, p: nat)
    requires p < |order|
    ensures Pairs(Moved(order, p)) == Moved(Pairs(order), p)
  {
    var a, b := Pairs(Moved(order, p)), Moved(Pairs(order), p);
    assert |a| == |b| && forall i :: 0 <= i < |a| ==> a[i] == b[i];
  }

  lemma ListMoved(l: seq<Pair>, p: nat)
    requires p < |l|
    ensures Moved(l, p) == [l[p]] + (l[..p] + l[p+1..])
  {}

  lemma HitAt(l: seq<Pair>, k: Key, p: nat)
    requires p < |l| && Position(l, k) == p
    ensures Lookup(l, k) == Some(l[p].client) && AfterGet(l, k) == Moved(l, p)
  {
    ListMoved(l, p);
  }

  lemma PositionAt(order: seq<Entry>, k: Key, p: nat)
    requires p <= |order| && (p < |order| ==> order[p].key == k) && forall i :: 0 <= i < p ==> order[i].key != k
    ensures Position(Pairs(order), k) == p
  {}

  class Cache {
    const capacity: nat
    var items: map<Key, Entry>
    var order: seq<Entry>   // the front was used last

    constructor (limit: int)
      ensures Valid() && order == [] && capacity == if limit <= 0 then 64 else limit
    {
      capacity := if limit <= 0 then DEFAULT_CAPACITY else limit;
      items, order := map[], [];
    }

    /** Map and list hold the same entries, one per key, no more than the capacity. */
    ghost predicate Valid()
      reads this
    {
      0 < capacity && |order| <= capacity && OneEach(order) && items == Index(order)
    }

    ghost function Recent(): seq<Pair>
      reads this, order
    {
      Pairs(order)
    }

    /** `MoveToFront` of the list element `e`, which stands at `p`. */
    method MoveToFront(e: Entry, ghost p: nat)
      requires Valid() && p < |order| && order[p] == e
      modifies this`order
      ensures Valid() && order == Moved(old(order), p)
    {
      var i := 0;
      while order[i] != e
        invariant i <= p
        decreases p - i
      {
        i := i + 1;
      }
      MovedIndex(order, p);
      MovedOneEach(order, p);
      order := [e] + order[..i] + order[i+1..];
    }

    method Get(k: Key) returns (found: Option<Client>)
      requires Valid()
      modifies this`order
      ensures Valid()
      ensures found == Lookup(old(Recent()), k) && Recent() == AfterGet(old(Recent()), k)
    {
      ghost var l, before := Recent(), order;
      ghost var p := IndexFinds(order, k);
      PositionAt(order, k, p);
      if k !in items { return None; }
      var e := items[k];
      MoveToFront(e, p);
      PairsMoved(before, p);
      HitAt(l, k, p);
      found := Some(e.client);
    }

    method Put(k: Key, c: Client)
      requires Valid()
      modifies this, order
      ensures Valid() && forall e :: e in order ==> e in old(order) || fresh(e)
      ensures Recent() == AfterPut(old(Recent()), k, c, capacity)
    {
      ghost var p := IndexFinds(order, k);
      PositionAt(order, k, p);
      if k in items {
        Overwrite(items[k], p, c);
      } else {
        var e := new Entry(k, c);
        PutNew(e);
      }
    }

    method Overwrite(e: Entry, ghost p: nat, c: Client)
      requires Valid() && p < |order| && order[p] == e && Position(Recent(), e.key) == p
      modifies this`order, e
      ensures Valid() && forall x :: x in order ==> x in old(order)
      ensures Recent() == AfterPut(old(Recent()), e.key, c, capacity)
    {
      ghost var l, before := Recent(), order;
      SetClient(e, p, c);
      MoveToFront(e, p);
      PairsMoved(before, p);
      PutFound(l, e.key, p, c, capacity);
      MovedMembers(before, p);
    }

    method SetClient(e: Entry, ghost p: nat, c: Client)
      requires Valid() && p < |order| && order[p] == e
      modifies e
      ensures Recent() == old(Recent())[p := Pair(e.key, c)]
    {
      e.client := c;
      assert forall i :: 0 <= i < |order| && i != p ==> order[i] != e;
    }

    method PutNew(e: Entry)
      requires Valid() && e.key !in items && Position(Recent(), e.key) == |order|
      modifies this
      ensures Valid() && forall x :: x in order ==> x in old(order) || x == e
      ensures Recent() == AfterPut(old(Recent()), e.key, e.client, capacity)
    {
      ghost var all := [e] + order;
      AddedIndex(order, e);
      PairsAdded(order, e);
      PutMissing(Recent(), e.key, e.client, capacity);
      items := items[e.key := e];
      order := [e] + order;
      Trim();
      PairsTaken(all, |order|);
      AddedMembers(old(order), e, |order|);
    }

    /** The eviction loop. */
    method Trim()
      requires OneEach(order) && items == Index(order) && 0 < capacity
      modifies this
      ensures Valid()
      ensures |order| <= |old(order)| && order == old(order)[..|order|]
      ensures |order| == if |old(order)| <= capacity then |old(order)| else capacity
    {
      ghost var all := order;
      assert order == all[..|order|];
      while |order| > capacity
        invariant |order| <= |all| && order == all[..|order|] && items == Index(order)
        invariant |order| < |all| ==> |order| >= capacity
        decreases |order|
      {
        var n := |order| - 1;
        var oldest := order[n];
        EvictedIndex(order);
        assert all[..n+1][..n] == all[..n];
        order := order[..n];
        items := items - {oldest.key};
      }
    }

    method Len() returns (n: nat)
      requires Valid()
      ensures n == |Recent()| <= capacity
    {
      n := |order|;
    }
  }

  lemma PairsTaken(order: seq<Entry>, n: nat)
    requires n <= |order|
    ensures Pairs(order[..n]) == Pairs(order)[..n]
  {
    var a, b := Pairs(order[..n]), Pairs(order)[..n];
    assert |a| == |b| && forall i :: 0 <= i < |a| ==> a[i] == b[i];
  }

  lemma MovedMembers(order: seq<Entry>, p: nat)
    requires p < |order|
    ensures forall x :: x in Moved(order, p) ==> x in order
  {}

  lemma PairsAdded(order: seq<Entry>, e: Entry)
    ensures Pairs([e] + order) == [Pair(e.key, e.client)] + Pairs(order)
  {}

  lemma AddedMembers(order: seq<Entry>, e: Entry, n: nat)
    requires n <= |order| + 1
    ensures forall x :: x in ([e] + order)[..n] ==> x in order || x == e
  {}

  lemma PutMissing(l: seq<Pair>, k: Key, c: Client, capacity: nat)
    requires Position(l, k) == |l|
    ensures AfterPut(l, k, c, capacity) == Take([Pair(k, c)] + l, capacity)
  {}

  /** Writing a listed key replaces its value and moves it to the front. */
  lemma PutFound(l: seq<Pair>, k: Key, p: nat, c: Client, capacity: nat)
    requires p < |l| <= capacity && Position(l, k) == p
    ensures Moved(l[p := Pair(k, c)], p) == AfterPut(l, k, c, capacity)
  {
    var m := l[p := Pair(k, c)];
    ListMoved(m, p);
    assert m[..p] == l[..p] && m[p+1..] == l[p+1..];
  }

  // ----- histories -----

  datatype Op = GetOp(key: Key) | PutOp(key: Key, client: Client)

  function Step(l: seq<Pair>, op: Op, capacity: nat): seq<Pair> {
    match op
    case GetOp(k) => AfterGet(l, k)
    case PutOp(k, c) => AfterPut(l, k, c, capacity)
  }

  /** The list after a history of operations. */
  function After(ops: seq<Op>, capacity: nat): seq<Pair> {
    if ops == [] then [] else Step(After(ops[..|ops|-1], capacity), ops[|ops|-1], capacity)
  }

  /** All keys ever used, most recent first: a write uses a key, and so does a read of one of
      the `capacity` most recent ones. */
  function Used(ops: seq<Op>, capacity: nat): seq<Pair> {
    if ops == [] then []
    else
      var n := |ops| - 1;
      var (u, op) := (Used(ops[..n], capacity), ops[n]);
      match op
      case PutOp(k, c) => [Pair(k, c)] + Remove(u, k)
      case GetOp(k) => if Position(u, k) < capacity then AfterGet(u, k) else u
  }

  /** The last value written for a key. */
  function LastPut(ops: seq<Op>, k: Key): Option<Client> {
    if ops == [] then None
    else
      var n := |ops| - 1;
      if ops[n].PutOp? && ops[n].key == k then Some(ops[n].client) else LastPut(ops[..n], k)
  }

  lemma RemoveDistinct(l: seq<Pair>, k: Key, c: Client)
    requires DistinctKeys(l)
    ensures DistinctKeys([Pair(k, c)] + Remove(l, k))
    ensures forall i :: 0 <= i < |Remove(l, k)| ==> Remove(l, k)[i] in l && Remove(l, k)[i].key != k
  {}

  lemma NotFound(l: seq<Pair>, k: Key)
    requires forall i :: 0 <= i < |l| ==> l[i].key != k
    ensures Position(l, k) == |l|
  {}

  lemma LookupAfterFront(l: seq<Pair>, k: Key, c: Client, x: Key)
    requires DistinctKeys(l)
    ensures Lookup([Pair(k, c)] + Remove(l, k), x) == if x == k then Some(c) else Lookup(l, x)
  {
    var r := [Pair(k, c)] + Remove(l, k);
    RemoveDistinct(l, k, c);
    var p, q := Position(l, x), Position(l, k);
    if x == k {
      PositionIs(r, k, 0);
    } else if p < |l| {
      PositionIs(r, x, if q < p then p else p + 1);
    } else {
      NotFound(r, x);
    }
  }

  /** The used list is complete and holds the last values. */
  lemma {:induction false} UsedIsLastPut(ops: seq<Op>, capacity: nat, k: Key)
    ensures DistinctKeys(Used(ops, capacity)) && Lookup(Used(ops, capacity), k) == LastPut(ops, k)
  {
    if ops != [] {
      var n := |ops| - 1;
      var u := Used(ops[..n], capacity);
      UsedIsLastPut(ops[..n], capacity, k);
      match ops[n]
      case PutOp(x, c) =>
        RemoveDistinct(u, x, c);
        LookupAfterFront(u, x, c, k);
      case GetOp(x) =>
        if Lookup(u, x).Some? {
          RemoveDistinct(u, x, Lookup(u, x).value);
          LookupAfterFront(u, x, Lookup(u, x).value, k);
        }
    }
  }

  lemma TakeFront(u: seq<Pair>, k: Key, c: Client, capacity: nat)
    requires DistinctKeys(u) && capacity > 0
    ensures Take([Pair(k, c)] + Remove(Take(u, capacity), k), capacity) == Take([Pair(k, c)] + Remove(u, k), capacity)
  {
    var p, t := Position(u, k), Take(u, capacity);
    if p < |t| {
      PositionIs(t, k, p);
      TakeWithout(u, Pair(k, c), p, capacity);
    } else {
      NotFound(t, k);
      if p < |u| { TakeBefore(u, Pair(k, c), p, capacity); }
    }
  }

  lemma TakeWithout(u: seq<Pair>, x: Pair, p: nat, n: nat)
    requires p < n && p < |u|
    ensures Take([x] + (Take(u, n)[..p] + Take(u, n)[p+1..]), n) == Take([x] + (u[..p] + u[p+1..]), n)
  {
    var a, b := [x] + (Take(u, n)[..p] + Take(u, n)[p+1..]), [x] + (u[..p] + u[p+1..]);
    assert forall i :: 0 <= i < |a| ==> a[i] == b[i];
  }

  lemma TakeBefore(u: seq<Pair>, x: Pair, p: nat, n: nat)
    requires 0 < n <= p < |u|
    ensures Take([x] + Take(u, n), n) == Take([x] + (u[..p] + u[p+1..]), n)
  {
    var a, b := [x] + Take(u, n), [x] + (u[..p] + u[p+1..]);
    assert forall i :: 0 <= i < n ==> a[i] == b[i];
  }

  lemma TakeLookup(u: seq<Pair>, k: Key, capacity: nat)
    requires DistinctKeys(u)
    ensures Lookup(Take(u, capacity), k) == if Position(u, k) < capacity then Lookup(u, k) else None
  {
    var t, p := Take(u, capacity), Position(u, k);
    if p < |t| { PositionIs(t, k, p); } else { assert Position(t, k) == |t|; }
  }

  lemma TakeHit(u: seq<Pair>, k: Key, capacity: nat)
    requires DistinctKeys(u) && Position(u, k) < capacity && Position(u, k) < |u|
    ensures AfterGet(Take(u, capacity), k) == Take(AfterGet(u, k), capacity)
  {
    var p := Position(u, k);
    var t := Take(u, capacity);
    PositionIs(t, k, p);
    HitAt(u, k, p);
    HitAt(t, k, p);
    TakeMoved(u, p, capacity);
  }

  lemma TakeMoved(l: seq<Pair>, p: nat, n: nat)
    requires p < n && p < |l|
    ensures Moved(Take(l, n), p) == Take(Moved(l, p), n)
  {
    var a, b := Moved(Take(l, n), p), Take(Moved(l, p), n);
    assert |a| == |b| && forall i :: 0 <= i < |a| ==> a[i] == b[i];
  }

  /** After every history the cache holds exactly the `capacity` most recently used keys,
      each with the last value written for it. */
  lemma {:induction false} CacheIsMostRecent(ops: seq<Op>, capacity: nat)
    requires capacity > 0
    ensures After(ops, capacity) == Take(Used(ops, capacity), capacity)
  {
    if ops != [] {
      var n := |ops| - 1;
      var u := Used(ops[..n], capacity);
      CacheIsMostRecent(ops[..n], capacity);
      UsedIsLastPut(ops[..n], capacity, ops[n].key);
      match ops[n]
      case PutOp(k, c) => TakeFront(u, k, c, capacity);
      case GetOp(k) =>
        TakeLookup(u, k, capacity);
        if Position(u, k) < capacity && Position(u, k) < |u| { TakeHit(u, k, capacity); }
    }
  }

  /** A key is found exactly when it is among the `capacity` most recently used ones, and
      then with the last value written for it. */
  lemma HitIsLastPut(ops: seq<Op>, capacity: nat, k: Key)
    requires capacity > 0
    ensures Lookup(After(ops, capacity), k)
         == if Position(Used(ops, capacity), k) < capacity then LastPut(ops, k) else None
  {
    CacheIsMostRecent(ops, capacity);
    UsedIsLastPut(ops, capacity, k);
    TakeLookup(Used(ops, capacity), k, capacity);
  }
}
