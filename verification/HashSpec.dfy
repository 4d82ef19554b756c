/** The hash table of datastructs/refhash.c as a sequence of chains of entries: what hash_set,
    hash_remove and hash_resize do to the chains, and the map the chains stand for. */
module HashSpec {
  import opened Commons
  import opened MemRefs
  import opened Keys

  datatype Entry = Entry(key: Key, val: MemRef)
  type Table = seq<seq<Entry>>
  type Hasher = Key -> nat

  /** The hash of a key, for a given string hash. */
  function HasherOf(fnv: string -> nat): Hasher {
    (k: Key) => KeyHash(fnv, k)
  }

  function Bucket(hash: Hasher, size: nat, k: Key): nat
    requires size > 0
    ensures Bucket(hash, size, k) < size
  {
    hash(k) % size
  }

  /** The position of a key in a chain, the length of the chain if it is not there. */
  function Position(c: seq<Entry>, k: Key): (p: nat)
    ensures p <= |c|
    ensures p < |c| ==> c[p].key == k
    ensures forall j :: 0 <= j < p ==> c[j].key != k
  {
    if c == [] then 0 else if c[0].key == k then 0 else 1 + Position(c[1..], k)
  }

  /** hash_set on one chain: an entry with the key keeps its place and its key, a new one goes first. */
  function SetChain(c: seq<Entry>, k: Key, v: MemRef): seq<Entry> {
    var p := Position(c, k);
    if p < |c| then c[p := Entry(k, v)] else [Entry(k, v)] + c
  }

  /** hash_remove on one chain.  The source tests `next.type != 0` where its comment asks for the
      opposite: when the head of a longer chain is removed, the whole chain goes. */
  function RemoveChain(c: seq<Entry>, k: Key): seq<Entry> {
    var p := Position(c, k);
    if p == |c| then c
    else if p == 0 && |c| > 1 then []
    else c[..p] + c[p + 1..]
  }

  function Count(t: Table): nat {
    if t == [] then 0 else Count(t[..|t| - 1]) + |t[|t| - 1]|
  }

  function Flat(t: Table): seq<Entry> {
    if t == [] then [] else Flat(t[..|t| - 1]) + t[|t| - 1]
  }

  function EmptyTable(size: nat): Table {
    seq(size, _ => [])
  }

  /** hash_resize takes the entries in the order of the old chains and puts each in front of its new
      chain. */
  function PushFront(hash: Hasher, t: Table, e: Entry): Table
    requires t != []
  {
    var b := Bucket(hash, |t|, e.key);
    t[b := [e] + t[b]]
  }

  function PushAll(hash: Hasher, t: Table, es: seq<Entry>): (r: Table)
    requires t != []
    ensures |r| == |t|
  {
    if es == [] then t else PushFront(hash, PushAll(hash, t, es[..|es| - 1]), es[|es| - 1])
  }

  function Rehash(hash: Hasher, t: Table, size: nat): Table
    requires size > 0
  {
    PushAll(hash, EmptyTable(size), Flat(t))
  }

  /** Every entry is in the bucket of its key, and no key occurs twice. */
  ghost predicate WellHashed(hash: Hasher, t: Table) {
    && t != []
    && (forall i, j :: 0 <= i < |t| && 0 <= j < |t[i]| ==> Bucket(hash, |t|, t[i][j].key) == i)
    && (forall i :: 0 <= i < |t| ==> DistinctKeys(t[i]))
  }

  ghost predicate DistinctKeys(c: seq<Entry>) {
    forall j, k :: 0 <= j < k < |c| ==> c[j].key != c[k].key
  }

  function ChainMap(c: seq<Entry>): map<Key, MemRef> {
    if c == [] then map[] else ChainMap(c[1..])[c[0].key := c[0].val]
  }

  /** The map that a table stands for. */
  function TableMap(t: Table): map<Key, MemRef> {
    if t == [] then map[] else TableMap(t[..|t| - 1]) + ChainMap(t[|t| - 1])
  }

  /** hash_try_get: a walk along the chain of the key's bucket. */
  function Lookup(hash: Hasher, t: Table, k: Key): Option<MemRef>
    requires t != []
  {
    var c := t[Bucket(hash, |t|, k)];
    var p := Position(c, k);
    if p < |c| then Some(c[p].val) else None
  }

  lemma {:induction false} ChainMapAt(c: seq<Entry>, k: Key)
    requires DistinctKeys(c)
    ensures k in ChainMap(c) <==> Position(c, k) < |c|
    ensures k in ChainMap(c) ==> ChainMap(c)[k] == c[Position(c, k)].val
  {
    if c != [] { ChainMapAt(c[1..], k); }
  }

  lemma {:induction false} ChainMapSize(c: seq<Entry>)
    requires DistinctKeys(c)
    ensures |ChainMap(c)| == |c|
  {
    if c != [] {
      ChainMapSize(c[1..]);
      ChainMapAt(c[1..], c[0].key);
    }
  }

  lemma {:induction false} TableMapAt(t: Table, k: Key)
    ensures k in TableMap(t) <==> exists i :: 0 <= i < |t| && k in ChainMap(t[i])
    ensures forall i :: 0 <= i < |t| && k in ChainMap(t[i]) && (forall j :: i < j < |t| ==> k !in ChainMap(t[j]))
              ==> k in TableMap(t) && TableMap(t)[k] == ChainMap(t[i])[k]
  {
    if t != [] {
      var s := t[..|t| - 1];
      TableMapAt(s, k);
      assert forall i :: 0 <= i < |s| ==> s[i] == t[i];
      if k in TableMap(t) && k !in ChainMap(t[|t| - 1]) {
        var i :| 0 <= i < |s| && k in ChainMap(s[i]);
        assert k in ChainMap(t[i]);
      }
    }
  }

  lemma InBucket(hash: Hasher, t: Table, i: nat, k: Key)
    requires WellHashed(hash, t) && i < |t| && k in ChainMap(t[i])
    ensures i == Bucket(hash, |t|, k)
  {
    ChainMapAt(t[i], k);
  }

  /** Looking a key up agrees with the map. */
  lemma LookupIsMap(hash: Hasher, t: Table, k: Key)
    requires WellHashed(hash, t)
    ensures Lookup(hash, t, k) == if k in TableMap(t) then Some(TableMap(t)[k]) else None
  {
    var b := Bucket(hash, |t|, k);
    ChainMapAt(t[b], k);
    TableMapAt(t, k);
    forall i | 0 <= i < |t| && k in ChainMap(t[i]) ensures i == b { InBucket(hash, t, i, k); }
  }

  /** Two tables that answer every lookup alike stand for the same map. */
  lemma SameLookups(hash: Hasher, t: Table, m: map<Key, MemRef>)
    requires WellHashed(hash, t)
    requires forall k :: Lookup(hash, t, k) == if k in m then Some(m[k]) else None
    ensures TableMap(t) == m
  {
    forall k ensures k in TableMap(t) <==> k in m { LookupIsMap(hash, t, k); }
    forall k | k in m ensures TableMap(t)[k] == m[k] { LookupIsMap(hash, t, k); }
  }

  function SetTable(hash: Hasher, t: Table, k: Key, v: MemRef): Table
    requires t != []
  {
    var b := Bucket(hash, |t|, k);
    t[b := SetChain(t[b], k, v)]
  }

  lemma SetKeepsWellHashed(hash: Hasher, t: Table, k: Key, v: MemRef)
    requires WellHashed(hash, t)
    ensures WellHashed(hash, SetTable(hash, t, k, v))
  {}

  lemma SetChainPosition(c: seq<Entry>, k: Key, v: MemRef, k': Key)
    ensures var d := SetChain(c, k, v);
            if k' == k then Position(d, k') < |d| && d[Position(d, k')].val == v
            else (Position(d, k') < |d| <==> Position(c, k') < |c|)
                 && (Position(c, k') < |c| ==>
                       Position(d, k') < |d| && d[Position(d, k')].val == c[Position(c, k')].val)
  {
    var d := SetChain(c, k, v);
    if Position(c, k) == |c| {
      assert d[1..] == c;
    } else if k' != k {
      PositionIs(d, k', Position(c, k'));
    } else {
      PositionIs(d, k, Position(c, k));
    }
  }

  /** A position is determined by what it says. */
  lemma PositionIs(c: seq<Entry>, k: Key, p: nat)
    requires p <= |c| && (p < |c| ==> c[p].key == k) && forall j :: 0 <= j < p ==> c[j].key != k
    ensures Position(c, k) == p
  {}

  /** hash_set updates the map at one key. */
  lemma SetIsMapUpdate(hash: Hasher, t: Table, k: Key, v: MemRef)
    requires WellHashed(hash, t)
    ensures TableMap(SetTable(hash, t, k, v)) == TableMap(t)[k := v]
  {
    SetKeepsWellHashed(hash, t, k, v);
    var r := SetTable(hash, t, k, v);
    var m := TableMap(t)[k := v];
    forall k' ensures Lookup(hash, r, k') == if k' in m then Some(m[k']) else None {
      LookupIsMap(hash, t, k');
      SetChainPosition(t[Bucket(hash, |t|, k)], k, v, k');
    }
    SameLookups(hash, r, m);
  }

  function RemoveTable(hash: Hasher, t: Table, k: Key): Table
    requires t != []
  {
    var b := Bucket(hash, |t|, k);
    t[b := RemoveChain(t[b], k)]
  }

  /** The branch of hash_remove that does what its comment says is taken: the key is absent, or not the
      head of its chain, or alone in it. */
  predicate RemoveSafe(hash: Hasher, t: Table, k: Key)
    requires t != []
  {
    var c := t[Bucket(hash, |t|, k)];
    !(|c| > 1 && c[0].key == k)
  }

  lemma RemoveKeepsWellHashed(hash: Hasher, t: Table, k: Key)
    requires WellHashed(hash, t)
    ensures WellHashed(hash, RemoveTable(hash, t, k))
  {}

  lemma RemoveChainPosition(c: seq<Entry>, k: Key, k': Key)
    requires DistinctKeys(c) && !(|c| > 1 && c[0].key == k)
    ensures var d := RemoveChain(c, k);
            if k' == k then Position(d, k') == |d|
            else (Position(d, k') < |d| <==> Position(c, k') < |c|)
                 && (Position(c, k') < |c| ==>
                       Position(d, k') < |d| && d[Position(d, k')].val == c[Position(c, k')].val)
  {
    var d := RemoveChain(c, k);
    var p, p' := Position(c, k), Position(c, k');
    if p < |c| {
      assert forall j :: 0 <= j < |d| ==> d[j] == if j < p then c[j] else c[j + 1];
      PositionIs(d, k', if k' == k then |d| else if p' <= p then p' else p' - 1);
    }
  }

  /** hash_remove takes exactly the key out of the map if and only if the safe branch is taken. */
  lemma RemoveIsMapRemoveIffSafe(hash: Hasher, t: Table, k: Key)
    requires WellHashed(hash, t)
    ensures TableMap(RemoveTable(hash, t, k)) == TableMap(t) - {k} <==> RemoveSafe(hash, t, k)
  {
    RemoveKeepsWellHashed(hash, t, k);
    var r := RemoveTable(hash, t, k);
    var m := TableMap(t) - {k};
    var b := Bucket(hash, |t|, k);
    if RemoveSafe(hash, t, k) {
      forall k' ensures Lookup(hash, r, k') == if k' in m then Some(m[k']) else None {
        LookupIsMap(hash, t, k');
        RemoveChainPosition(t[b], k, k');
      }
      SameLookups(hash, r, m);
    } else {
      var other := t[b][1].key;
      LookupIsMap(hash, t, other);
      LookupIsMap(hash, r, other);
      PositionIs(t[b], k, 0);
      PositionIs(t[b], other, 1);
    }
  }

  // ---------- counting ----------

  /** The buckets of a prefix of a well-hashed table hold keys of different residues. */
  lemma {:induction false} PrefixMapSize(hash: Hasher, t: Table, n: nat)
    requires WellHashed(hash, t) && n <= |t|
    ensures |TableMap(t[..n])| == Count(t[..n])
  {
    hide WellHashed, ChainMap;
    if n > 0 {
      PrefixMapSize(hash, t, n - 1);
      assert t[..n][..n - 1] == t[..n - 1];
      BucketsDiffer(hash, t, n - 1);
      JoinSize(TableMap(t[..n - 1]), ChainMap(t[n - 1]));
      ChainOk(hash, t, n - 1);
      ChainMapSize(t[n - 1]);
    }
  }

  lemma ChainOk(hash: Hasher, t: Table, i: nat)
    requires WellHashed(hash, t) && i < |t|
    ensures DistinctKeys(t[i])
  {}

  lemma BucketsDiffer(hash: Hasher, t: Table, n: nat)
    requires WellHashed(hash, t) && n < |t|
    ensures TableMap(t[..n]).Keys !! ChainMap(t[n]).Keys
  {
    hide WellHashed, TableMap, ChainMap;
    forall k | k in TableMap(t[..n]) ensures k !in ChainMap(t[n]) {
      TableMapAt(t[..n], k);
      var i :| 0 <= i < n && k in ChainMap(t[..n][i]);
      InBucket(hash, t, i, k);
      if k in ChainMap(t[n]) { InBucket(hash, t, n, k); }
    }
  }

  lemma JoinSize(m: map<Key, MemRef>, c: map<Key, MemRef>)
    requires m.Keys !! c.Keys
    ensures |m + c| == |m| + |c|
  {
    assert (m + c).Keys == m.Keys + c.Keys;
    assert |(m + c).Keys| == |m.Keys| + |c.Keys|;
  }

  /** The number of entries is the size of the map. */
  lemma CountIsMapSize(hash: Hasher, t: Table)
    requires WellHashed(hash, t)
    ensures |TableMap(t)| == Count(t)
  {
    PrefixMapSize(hash, t, |t|);
    assert t[..|t|] == t;
  }

  // ---------- rehashing ----------

  lemma {:induction false} FlatAt(t: Table, x: Entry)
    ensures x in Flat(t) <==> exists i :: 0 <= i < |t| && x in t[i]
  {
    if t != [] {
      var s := t[..|t| - 1];
      FlatAt(s, x);
      if x in Flat(s) {
        var i :| 0 <= i < |s| && x in s[i];
        assert x in t[i];
      }
      if x in t[|t| - 1] { assert x in Flat(t); }
      if i :| 0 <= i < |t| && x in t[i] {
        if i < |s| { assert x in s[i]; }
      }
    }
  }

  lemma {:induction false} FlatDistinct(hash: Hasher, t: Table, n: nat)
    requires WellHashed(hash, t) && n <= |t|
    ensures DistinctKeys(Flat(t[..n]))
  {
    if n > 0 {
      var s, c := t[..n - 1], t[n - 1];
      FlatDistinct(hash, t, n - 1);
      assert t[..n][..n - 1] == s;
      forall j, k | 0 <= j < |Flat(s)| && 0 <= k < |c|
        ensures Flat(s)[j].key != c[k].key
      {
        var x := Flat(s)[j];
        FlatAt(s, x);
        var i :| 0 <= i < |s| && x in s[i];
        var i' :| 0 <= i' < |s[i]| && s[i][i'] == x;
        assert Bucket(hash, |t|, t[i][i'].key) == i && Bucket(hash, |t|, t[n - 1][k].key) == n - 1;
      }
    }
  }

  lemma {:induction false} FlatLength(t: Table)
    ensures |Flat(t)| == Count(t)
  {
    if t != [] { FlatLength(t[..|t| - 1]); }
  }

  lemma EmptyIsWellHashed(hash: Hasher, size: nat)
    requires size > 0
    ensures WellHashed(hash, EmptyTable(size)) && Count(EmptyTable(size)) == 0 && Flat(EmptyTable(size)) == []
    ensures TableMap(EmptyTable(size)) == map[]
  {
    var t := EmptyTable(size);
    EmptyPrefix(t, size);
    assert t[..size] == t;
    assert forall k :: Lookup(hash, t, k) == None;
    SameLookups(hash, t, map[]);
  }

  lemma {:induction false} EmptyPrefix(t: Table, n: nat)
    requires n <= |t| && forall i :: 0 <= i < |t| ==> t[i] == []
    ensures Count(t[..n]) == 0 && Flat(t[..n]) == []
  {
    if n > 0 {
      EmptyPrefix(t, n - 1);
      assert t[..n][..n - 1] == t[..n - 1];
    }
  }

  /** The entries of a table, each as often as it occurs. */
  ghost function Bag(t: Table): multiset<Entry> {
    if t == [] then multiset{} else Bag(t[..|t| - 1]) + multiset(t[|t| - 1])
  }

  lemma {:induction false} BagIsFlat(t: Table)
    ensures Bag(t) == multiset(Flat(t))
  {
    if t != [] { BagIsFlat(t[..|t| - 1]); }
  }

  lemma BagStep(t: Table, n: nat)
    requires 0 < n <= |t|
    ensures Bag(t[..n]) == Bag(t[..n - 1]) + multiset(t[n - 1])
  {
    assert t[..n][..n - 1] == t[..n - 1];
  }

  /** Putting an entry in front of a chain adds it to the entries. */
  lemma {:induction false} FrontBag(t: Table, b: nat, e: Entry, n: nat)
    requires b < |t| && n <= |t|
    ensures Bag(t[b := [e] + t[b]][..n]) == Bag(t[..n]) + (if b < n then multiset{e} else multiset{})
  {
    hide Bag;
    var r := t[b := [e] + t[b]];
    if n == 0 {
      assert r[..0] == t[..0];
    } else {
      FrontBag(t, b, e, n - 1);
      BagStep(t, n);
      BagStep(r, n);
      Bagged(t[b], e);
    }
  }

  /** Relinking loses and duplicates no entry. */
  lemma {:induction false} PushAllConserves(hash: Hasher, t: Table, es: seq<Entry>)
    requires t != []
    ensures Bag(PushAll(hash, t, es)) == Bag(t) + multiset(es)
  {
    hide Bag, PushFront;
    if es != [] {
      var init, e := es[..|es| - 1], es[|es| - 1];
      PushAllConserves(hash, t, init);
      PushFrontConserves(hash, PushAll(hash, t, init), e);
      Bagged(init, e);
      assert es == init + [e];
    }
  }

  lemma Bagged(s: seq<Entry>, e: Entry)
    ensures multiset(s + [e]) == multiset(s) + multiset{e} && multiset([e] + s) == multiset{e} + multiset(s)
  {}

  lemma PushFrontConserves(hash: Hasher, u: Table, e: Entry)
    requires u != []
    ensures Bag(PushFront(hash, u, e)) == Bag(u) + multiset{e}
  {
    FrontBag(u, Bucket(hash, |u|, e.key), e, |u|);
    assert u[..|u|] == u;
    var r := PushFront(hash, u, e);
    assert r[..|r|] == r;
  }

  lemma {:induction false} PushAllWellHashed(hash: Hasher, size: nat, es: seq<Entry>, k: Key)
    requires size > 0 && DistinctKeys(es)
    ensures WellHashed(hash, PushAll(hash, EmptyTable(size), es))
    ensures var p := Position(es, k);
            Lookup(hash, PushAll(hash, EmptyTable(size), es), k) == if p < |es| then Some(es[p].val) else None
  {
    if es == [] {
      EmptyIsWellHashed(hash, size);
    } else {
      var init, e := es[..|es| - 1], es[|es| - 1];
      PushAllWellHashed(hash, size, init, k);
      PushAllWellHashed(hash, size, init, e.key);
      PositionInit(es, k);
      PositionInit(es, e.key);
      var u := PushAll(hash, EmptyTable(size), init);
      PushFrontLookup(hash, u, e, k);
    }
  }

  lemma PositionInit(es: seq<Entry>, k: Key)
    requires es != [] && DistinctKeys(es)
    ensures var init, e := es[..|es| - 1], es[|es| - 1];
            && (Position(init, k) < |init| ==> Position(es, k) == Position(init, k) && e.key != k)
            && (Position(init, k) == |init| ==> Position(es, k) == if e.key == k then |init| else |es|)
  {
    var init := es[..|es| - 1];
    PositionIs(es, k,
               if Position(init, k) < |init| then Position(init, k)
               else if es[|es| - 1].key == k then |init| else |es|);
  }

  lemma PushFrontLookup(hash: Hasher, u: Table, e: Entry, k: Key)
    requires WellHashed(hash, u) && Lookup(hash, u, e.key) == None
    ensures WellHashed(hash, PushFront(hash, u, e))
    ensures Lookup(hash, PushFront(hash, u, e), k) == if k == e.key then Some(e.val) else Lookup(hash, u, k)
  {
    var b := Bucket(hash, |u|, e.key);
    assert ([e] + u[b])[1..] == u[b];
  }

  /** hash_resize keeps the map. */
  lemma RehashKeepsMap(hash: Hasher, t: Table, size: nat)
    requires WellHashed(hash, t) && size > 0
    ensures WellHashed(hash, Rehash(hash, t, size)) && |Rehash(hash, t, size)| == size
    ensures TableMap(Rehash(hash, t, size)) == TableMap(t)
  {
    hide TableMap;
    var es, r := Flat(t), Rehash(hash, t, size);
    assert t[..|t|] == t;
    FlatDistinct(hash, t, |t|);
    PushAllWellHashed(hash, size, es, IntKey(0));
    forall k ensures Lookup(hash, r, k) == if k in TableMap(t) then Some(TableMap(t)[k]) else None {
      PushAllWellHashed(hash, size, es, k);
      FlatPosition(hash, t, k);
      LookupIsMap(hash, t, k);
    }
    SameLookups(hash, r, TableMap(t));
  }

  /** hash_resize keeps the entries and their number. */
  lemma RehashConserves(hash: Hasher, t: Table, size: nat)
    requires t != [] && size > 0
    ensures multiset(Flat(Rehash(hash, t, size))) == multiset(Flat(t))
    ensures Count(Rehash(hash, t, size)) == Count(t)
  {
    var es, r := Flat(t), Rehash(hash, t, size);
    EmptyPrefix(EmptyTable(size), size);
    assert EmptyTable(size)[..size] == EmptyTable(size);
    BagIsFlat(EmptyTable(size));
    PushAllConserves(hash, EmptyTable(size), es);
    BagIsFlat(r);
    assert |multiset(Flat(r))| == |multiset(es)|;
    FlatLength(t);
    FlatLength(r);
  }

  /** Looking a key up among all entries agrees with looking it up in its bucket. */
  lemma FlatPosition(hash: Hasher, t: Table, k: Key)
    requires WellHashed(hash, t)
    ensures var p := Position(Flat(t), k);
            Lookup(hash, t, k) == if p < |Flat(t)| then Some(Flat(t)[p].val) else None
  {
    var es := Flat(t);
    var p := Position(es, k);
    var b := Bucket(hash, |t|, k);
    var q := Position(t[b], k);
    if q < |t[b]| {
      FlatAt(t, t[b][q]);
      assert t[b][q] in t[b];
      assert p < |es|;
    }
    if p < |es| {
      FlatAt(t, es[p]);
      var i :| 0 <= i < |t| && es[p] in t[i];
      var j :| 0 <= j < |t[i]| && t[i][j] == es[p];
      assert i == b;
      PositionIs(t[b], k, j);
    }
  }
}
