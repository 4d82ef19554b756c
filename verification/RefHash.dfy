/** datastructs/refhash.c: the chained hash table over a pool of key-value cells.  Every operation is
    proved equal to its specification on the table of chains (HashSpec, HashRuns). */
module RefHashes {
  import opened Commons
  import opened MemRefs
  import opened Keys
  import opened HashSpec
  import opened HashRuns
  import opened ChainStores

  /** The walk along a chain has found the key at position p, or has passed it all. */
  lemma WalkEnds(h: Strings, s: seq<Kvp>, c: seq<int>, key: MemRef, p: nat)
    requires Coherent(h) && AllKeys(h, s) && InRange(s, c) && IsKey(h, key) && p <= |c|
    requires forall j :: 0 <= j < p ==> !MemrefEqual(h, key, s[c[j]].key)
    requires p < |c| ==> MemrefEqual(h, key, s[c[p]].key)
    ensures Position(Entries(h, s, c), KeyOf(h, key)) == p
  {
    var es, k := Entries(h, s, c), KeyOf(h, key);
    forall j | 0 <= j < |c| ensures es[j].key == k <==> MemrefEqual(h, key, s[c[j]].key) {
      EqualIsSameKey(h, key, s[c[j]].key);
    }
    PositionIs(es, k, p);
  }

  lemma NoEntries(t: Table)
    ensures Flat(t[..0]) == []
  {}

  lemma NothingLinked(h: Strings, size: nat)
    ensures AllKeys(h, []) && AllInRange([], seq(size, _ => []))
    ensures Linked([], seq(size, _ => NO_KVP), seq(size, _ => []), map[])
    ensures TableOf(h, [], seq(size, _ => [])) == EmptyTable(size)
  {}

  /** Cells keep their keys and values; only links may differ. */
  ghost predicate SameCells(s: seq<Kvp>, s': seq<Kvp>) {
    |s'| == |s| && forall x :: 0 <= x < |s| ==> s'[x].key == s[x].key && s'[x].val == s[x].val
  }

  lemma SameCellsSameTable(h: Strings, s: seq<Kvp>, s': seq<Kvp>, chains: seq<seq<int>>)
    requires AllKeys(h, s) && AllInRange(s, chains) && SameCells(s, s')
    ensures AllKeys(h, s') && AllInRange(s', chains)
    ensures TableOf(h, s', chains) == TableOf(h, s, chains)
  {
    forall i | 0 <= i < |chains|
      ensures InRange(s', chains[i]) && Entries(h, s', chains[i]) == Entries(h, s, chains[i])
    {
      assert InRange(s, chains[i]);
      EntriesFrame(h, s, s', chains[i]);
    }
  }

  /** A cell in front of a chain is an entry in front of its entries. */
  lemma FrontEntries(h: Strings, s: seq<Kvp>, chains: seq<seq<int>>, b: nat, x: int)
    requires AllKeys(h, s) && AllInRange(s, chains) && b < |chains| && 0 <= x < |s|
    ensures AllInRange(s, chains[b := [x] + chains[b]])
    ensures TableOf(h, s, chains[b := [x] + chains[b]])
         == TableOf(h, s, chains)[b := [EntryOf(h, s, x)] + TableOf(h, s, chains)[b]]
  {
    assert InRange(s, chains[b]);
    var c := [x] + chains[b];
    assert InRange(s, c);
    assert Entries(h, s, c) == [EntryOf(h, s, x)] + Entries(h, s, chains[b]);
  }

  /** More cells do not change the table of the old chains. */
  lemma AppendSameTable(h: Strings, s: seq<Kvp>, cell: Kvp, chains: seq<seq<int>>)
    requires AllKeys(h, s) && AllInRange(s, chains) && IsKey(h, cell.key)
    ensures AllKeys(h, s + [cell]) && AllInRange(s + [cell], chains)
    ensures TableOf(h, s + [cell], chains) == TableOf(h, s, chains)
  {
    forall i | 0 <= i < |chains|
      ensures InRange(s + [cell], chains[i]) && Entries(h, s + [cell], chains[i]) == Entries(h, s, chains[i])
    {
      assert InRange(s, chains[i]);
      EntriesFrame(h, s, s + [cell], chains[i]);
    }
  }

  /** A new value in the cell at position p of chain b. */
  lemma ReplaceValue(h: Strings, s: seq<Kvp>, heads: seq<int>, chains: seq<seq<int>>, own: map<int, int>,
                     b: nat, p: nat, v: MemRef)
    requires AllKeys(h, s) && AllInRange(s, chains) && Linked(s, heads, chains, own)
    requires b < |chains| && p < |chains[b]|
    ensures var x := chains[b][p];
            var s' := s[x := s[x].(val := v)];
            && AllKeys(h, s') && AllInRange(s', chains) && Linked(s', heads, chains, own)
            && var t := TableOf(h, s, chains);
               TableOf(h, s', chains) == t[b := t[b][p := Entry(KeyOf(h, s[x].key), v)]]
  {
    LinkedParts(s, heads, chains, own);
    var x := chains[b][p];
    var s', t := s[x := s[x].(val := v)], TableOf(h, s, chains);
    hide ChainAt, Owned, Entries, KeyOf, IsKey;
    forall i | 0 <= i < |chains|
      ensures InRange(s', chains[i]) && ChainAt(s', heads[i], chains[i]) && AllKeys(h, s')
      ensures Entries(h, s', chains[i]) == if i == b then t[b][p := Entry(KeyOf(h, s[x].key), v)] else t[i]
    {
      ReplacedChain(h, s, heads[b], chains[b], own, b, p, v, heads[i], chains[i], i);
    }
  }

  lemma LinkedParts(s: seq<Kvp>, heads: seq<int>, chains: seq<seq<int>>, own: map<int, int>)
    requires Linked(s, heads, chains, own)
    ensures |heads| == |chains|
    ensures forall i :: 0 <= i < |chains| ==>
              ChainAt(s, heads[i], chains[i]) && Owned(own, i, chains[i]) && InRange(s, chains[i])
  {
    hide Owned;
  }

  /** A new value in the cell at position p of chain c, seen from chain d. */
  lemma ReplacedChain(h: Strings, s: seq<Kvp>, head: int, c: seq<int>, own: map<int, int>, b: nat, p: nat, v: MemRef,
                      head': int, d: seq<int>, i: nat)
    requires AllKeys(h, s) && ChainAt(s, head, c) && Owned(own, b, c) && p < |c| && InRange(s, c)
    requires ChainAt(s, head', d) && Owned(own, i, d) && InRange(s, d) && (i == b ==> d == c)
    ensures var x := c[p];
            var s' := s[x := s[x].(val := v)];
            && AllKeys(h, s') && InRange(s', d) && ChainAt(s', head', d)
            && Entries(h, s', d)
               == if i == b then Entries(h, s, c)[p := Entry(KeyOf(h, s[x].key), v)] else Entries(h, s, d)
  {
    var x := c[p];
    var s' := s[x := s[x].(val := v)];
    ChainFrame(s, s', head', d);
    hide KeyOf, IsKey;
    if i != b { EntriesFrame(h, s, s', d); }
  }

  /** Chain b replaced, all cells keeping key and value. */
  lemma ReplaceEntries(h: Strings, s: seq<Kvp>, s': seq<Kvp>, chains: seq<seq<int>>, b: nat, c: seq<int>)
    requires AllKeys(h, s) && AllInRange(s, chains) && SameCells(s, s') && b < |chains| && InRange(s, c)
    ensures AllKeys(h, s') && AllInRange(s', chains[b := c])
    ensures TableOf(h, s', chains[b := c]) == TableOf(h, s, chains)[b := Entries(h, s, c)]
  {
    SameCellsSameTable(h, s, s', chains);
    EntriesFrame(h, s, s', c);
  }

  lemma CutEntries(h: Strings, s: seq<Kvp>, c: seq<int>, p: nat)
    requires AllKeys(h, s) && InRange(s, c) && p < |c|
    ensures InRange(s, c[..p] + c[p + 1..])
    ensures Entries(h, s, c[..p] + c[p + 1..]) == Entries(h, s, c)[..p] + Entries(h, s, c)[p + 1..]
  {}

  /** Chains hanging from their buckets. */
  datatype Lists = Lists(heads: seq<int>, chains: seq<seq<int>>, own: map<int, int>)

  ghost predicate Linking(h: Strings, s: seq<Kvp>, l: Lists) {
    && Linked(s, l.heads, l.chains, l.own) && AllInRange(s, l.chains)
    && (forall x :: x in l.own ==> x < |s|)
  }

  /** Where hash_resize stands after m cells of bucket i: the moved cells are linked from the new
      buckets `n`, the others still hang together as they did from the old ones `o`. */
  ghost predicate Moving(s: seq<Kvp>, o: Lists, i: nat, item: int, m: nat, n: Lists) {
    && |o.heads| == |o.chains| && (forall j :: 0 <= j < |o.chains| ==> Owned(o.own, j, o.chains[j]))
    && i < |o.chains| && m <= |o.chains[i]| && ChainAt(s, item, o.chains[i][m..])
    && (forall k :: m <= k < |o.chains[i]| ==> o.chains[i][k] !in n.own)
    && (forall j :: i < j < |o.chains| ==> ChainAt(s, o.heads[j], o.chains[j]))
    && (forall j, k :: i < j < |o.chains| && 0 <= k < |o.chains[j]| ==> o.chains[j][k] !in n.own)
  }

  /** The cells keep keys and values, and the new buckets hold the entries `es` pushed one by one. */
  ghost predicate Pushed(h: Strings, hash: Hasher, was: seq<Kvp>, s: seq<Kvp>, n: Lists, size: nat, es: seq<Entry>) {
    && size > 0 && SameCells(was, s) && AllKeys(h, was) && AllKeys(h, s) && Linking(h, s, n)
    && |n.heads| == size && TableOf(h, s, n.chains) == PushAll(hash, EmptyTable(size), es)
  }

  function Push(n: Lists, b: nat, item: int): Lists
    requires b < |n.heads| && b < |n.chains|
  {
    Lists(n.heads[b := item], n.chains[b := [item] + n.chains[b]], n.own[item := b])
  }

  lemma ItemIsNext(s: seq<Kvp>, o: Lists, i: nat, item: int, m: nat, n: Lists)
    requires Moving(s, o, i, item, m, n)
    ensures i < |o.chains|
    ensures if item == NO_KVP then m == |o.chains[i]|
            else m < |o.chains[i]| && item == o.chains[i][m] && 0 <= item < |s| && item !in n.own
  {
    assert ChainAt(s, item, o.chains[i][m..]);
  }

  lemma MoveStep(s: seq<Kvp>, o: Lists, i: nat, item: int, m: nat, n: Lists, b: nat)
    requires Moving(s, o, i, item, m, n) && item != NO_KVP && b < |n.heads| && b < |n.chains|
    ensures 0 <= item < |s|
    ensures Moving(s[item := s[item].(next := n.heads[b])], o, i, s[item].next, m + 1, Push(n, b, item))
  {
    var c := o.chains[i][m..];
    assert c != [];
    ChainTail(s, item, c);
    assert c[1..] == o.chains[i][m + 1..] && c[0] == o.chains[i][m];
    var s' := s[item := s[item].(next := n.heads[b])];
    assert forall k :: 0 <= k < |c[1..]| ==> c[1..][k] == c[k + 1];
    ChainFrame(s, s', s[item].next, c[1..]);
    forall k | m + 1 <= k < |o.chains[i]| ensures o.chains[i][k] != item {
      assert o.chains[i][k] == c[k - m];
    }
    assert Owned(o.own, i, o.chains[i]);
    forall j, k | i < j < |o.chains| && 0 <= k < |o.chains[j]| ensures o.chains[j][k] != item {
      assert Owned(o.own, j, o.chains[j]);
    }
    forall j | i < j < |o.chains| ensures ChainAt(s', o.heads[j], o.chains[j]) {
      ChainFrame(s, s', o.heads[j], o.chains[j]);
    }
  }

  lemma NextBucket(s: seq<Kvp>, o: Lists, i: nat, m: nat, n: Lists)
    requires Moving(s, o, i, NO_KVP, m, n)
    ensures i + 1 < |o.chains| ==> |o.heads| == |o.chains| && Moving(s, o, i + 1, o.heads[i + 1], 0, n)
  {
    if i + 1 < |o.chains| {
      assert o.chains[i + 1][0..] == o.chains[i + 1];
    }
  }

  /** Moving a cell in front of new chain b is one step of PushAll. */
  lemma PushStep(h: Strings, fnv: string -> nat, was: seq<Kvp>, s: seq<Kvp>, n: Lists, item: int, b: nat,
                 size: nat, es: seq<Entry>, e: Entry)
    requires Pushed(h, HasherOf(fnv), was, s, n, size, es) && 0 <= item < |s| && item !in n.own
    requires b == MemrefHash(h, fnv, s[item].key) % size && e == EntryOf(h, s, item)
    ensures b < |n.heads| && |n.heads| == |n.chains|
    ensures Pushed(h, HasherOf(fnv), was, s[item := s[item].(next := n.heads[b])], Push(n, b, item), size, es + [e])
  {
    var s', n' := s[item := s[item].(next := n.heads[b])], Push(n, b, item);
    HashOfKey(h, fnv, s[item].key);
    LinkFront(s, s', n.heads, n.chains, n.own, b, item);
    FrontEntries(h, s, n.chains, b, item);
    SameCellsSameTable(h, s, s', n'.chains);
    assert (es + [e])[..|es|] == es && (es + [e])[|es|] == e;
  }

  lemma StartMoving(h: Strings, fnv: string -> nat, s: seq<Kvp>, o: Lists, n: Lists, size: nat)
    requires AllKeys(h, s) && Linking(h, s, o) && o.heads != [] && size > 0
    requires n == Lists(seq(size, _ => NO_KVP), seq(size, _ => []), map[])
    ensures Moving(s, o, 0, o.heads[0], 0, n)
    ensures Pushed(h, HasherOf(fnv), s, s, n, size, [])
  {
    assert o.chains[0][0..] == o.chains[0];
    assert TableOf(h, s, n.chains) == EmptyTable(size);
  }

  /** The entries moved before and after a step of the resize. */
  lemma EntriesSoFar(h: Strings, hash: Hasher, was: seq<Kvp>, s: seq<Kvp>, n: Lists, size: nat, es: seq<Entry>,
                     chains: seq<seq<int>>, i: nat, m: nat)
    requires Pushed(h, hash, was, s, n, size, es) && AllInRange(was, chains)
    requires i < |chains| && m <= |chains[i]|
    ensures AllKeys(h, was)
    ensures var t := TableOf(h, was, chains);
            && Flat(t[..i]) + t[i][..0] == Flat(t[..i])
            && (m == |chains[i]| ==> Flat(t[..i]) + t[i][..m] == Flat(t[..i + 1]))
    ensures var t := TableOf(h, was, chains);
            m < |chains[i]| ==>
              var x := chains[i][m];
              && 0 <= x < |s| && IsKey(h, s[x].key)
              && Flat(t[..i]) + t[i][..m] + [EntryOf(h, s, x)] == Flat(t[..i]) + t[i][..m + 1]
  {
    var t := TableOf(h, was, chains);
    assert t[..i + 1][..i] == t[..i];
    if m < |chains[i]| {
      assert InRange(was, chains[i]);
      assert t[i][..m + 1] == t[i][..m] + [t[i][m]];
    } else {
      assert t[i][..m] == t[i];
    }
  }

  lemma Relinked(h: Strings, hash: Hasher, was: seq<Kvp>, s: seq<Kvp>, n: Lists, size: nat, t: Table)
    requires Pushed(h, hash, was, s, n, size, Flat(t))
    ensures AllKeys(h, s) && Linking(h, s, n) && n.heads != [] && SameCells(was, s)
    ensures size > 0 && TableOf(h, s, n.chains) == Rehash(hash, t, size)
  {}

  /** A new cell in front of chain b. */
  lemma AddCell(h: Strings, s: seq<Kvp>, l: Lists, b: nat, cell: Kvp)
    requires AllKeys(h, s) && Linking(h, s, l) && b < |l.heads| && IsKey(h, cell.key) && cell.next == l.heads[b]
    ensures |l.heads| == |l.chains|
    ensures AllKeys(h, s + [cell]) && Linking(h, s + [cell], Push(l, b, |s|))
    ensures var t := TableOf(h, s, l.chains);
            TableOf(h, s + [cell], Push(l, b, |s|).chains) == t[b := [Entry(KeyOf(h, cell.key), cell.val)] + t[b]]
  {
    LinkFront(s, s + [cell], l.heads, l.chains, l.own, b, |s|);
    AppendSameTable(h, s, cell, l.chains);
    FrontEntries(h, s + [cell], l.chains, b, |s|);
  }

  /** The cell at position p > 0 of chain b unlinked from the cell before it. */
  lemma CutCell(h: Strings, s: seq<Kvp>, l: Lists, b: nat, p: nat)
    requires AllKeys(h, s) && Linking(h, s, l) && b < |l.chains| && 0 < p < |l.chains[b]|
    ensures 0 <= l.chains[b][p - 1] < |s| && 0 <= l.chains[b][p] < |s|
    ensures var c, t := l.chains[b], TableOf(h, s, l.chains);
            var s', c' := s[c[p - 1] := s[c[p - 1]].(next := s[c[p]].next)], c[..p] + c[p + 1..];
            && AllKeys(h, s') && Linking(h, s', l.(chains := l.chains[b := c']))
            && TableOf(h, s', l.chains[b := c']) == t[b := t[b][..p] + t[b][p + 1..]]
  {
    var c := l.chains[b];
    assert ChainAt(s, l.heads[b], c) && InRange(s, c);
    var s', c' := s[c[p - 1] := s[c[p - 1]].(next := s[c[p]].next)], c[..p] + c[p + 1..];
    ChainUnlink(s, s', l.heads[b], c, p);
    forall x | x in c' ensures x in c {}
    LinkReplace(s, s', l.heads, l.chains, l.own, b, l.heads[b], c');
    CutEntries(h, s, c, p);
    ReplaceEntries(h, s, s', l.chains, b, c');
  }

  /** Chain b dropped. */
  lemma DropChain(h: Strings, s: seq<Kvp>, l: Lists, b: nat)
    requires AllKeys(h, s) && Linking(h, s, l) && b < |l.chains|
    ensures |l.heads| == |l.chains|
    ensures Linking(h, s, Lists(l.heads[b := NO_KVP], l.chains[b := []], l.own))
    ensures TableOf(h, s, l.chains[b := []]) == TableOf(h, s, l.chains)[b := []]
  {
    LinkReplace(s, s, l.heads, l.chains, l.own, b, NO_KVP, []);
    ReplaceEntries(h, s, s, l.chains, b, []);
  }

  lemma {:induction false} FlatPrefix(t: Table, i: nat, m: nat)
    requires i < |t| && m <= |t[i]|
    ensures Flat(t[..i]) + t[i][..m] <= Flat(t) && Flat(t[..i + 1]) == Flat(t[..i]) + t[i]
    ensures m < |t[i]| ==> Before(t, i) + m < |Flat(t)| && Flat(t)[Before(t, i) + m] == t[i][m]
    ensures Before(t, i + 1) == Before(t, i) + |t[i]| <= |Flat(t)|
  {
    var init := t[..|t| - 1];
    assert t[..i + 1][..i] == t[..i];
    if i < |init| {
      FlatPrefix(init, i, m);
      FlatPrefix(init, i, |t[i]|);
      assert init[..i] == t[..i];
    } else {
      assert t[..i + 1] == t;
    }
  }

  /** The number of entries in the first i buckets. */
  ghost function Before(t: Table, i: nat): nat
    requires i <= |t|
  {
    |Flat(t[..i])|
  }

  lemma BeforeAll(t: Table)
    ensures Before(t, 0) == 0 && Before(t, |t|) == |Flat(t)| == Count(t)
  {
    assert t[..|t|] == t;
    FlatLength(t);
  }

  class RefHash {
    const strings: Strings
    const fnv: string -> nat
    var kvps: seq<Kvp>
    var buckets: seq<int>
    var kvpCount: int
    ghost var chains: seq<seq<int>>
    ghost var own: map<int, int>

    ghost predicate Valid()
      reads `kvps, `buckets, `chains, `own
    {
      && Coherent(strings) && AllKeys(strings, kvps)
      && buckets != [] && Linked(kvps, buckets, chains, own) && AllInRange(kvps, chains)
      && (forall x :: x in own ==> x < |kvps|)
    }

    ghost function Table(): Table
      requires Valid()
      reads `kvps, `buckets, `chains, `own
      ensures |Table()| == |buckets|
    {
      TableOf(strings, kvps, chains)
    }

    ghost function State(): State
      requires Valid()
      reads this
      ensures State().table != []
    {
      HashRuns.State(Table(), kvpCount)
    }

    /** hash_init, with the heap's strings as a parameter. */
    constructor (strings: Strings, fnv: string -> nat, initialSize: nat)
      requires Coherent(strings)
      ensures Valid() && this.strings == strings && this.fnv == fnv
      ensures State() == HashRuns.State(EmptyTable(NextPrime(if initialSize < 1 then 1 else initialSize)), 0)
      ensures Sound(HasherOf(fnv), State())
    {
      var size := GetNextPrime(if initialSize < 1 then 1 else initialSize);
      this.strings, this.fnv := strings, fnv;
      kvps, kvpCount := [], 0;
      buckets, chains, own := seq(size, _ => NO_KVP), seq(size, _ => []), map[];
      new;
      hide *;
      NextPrimeExceeds(0, if initialSize < 1 then 1 else initialSize);
      Empty(size);
    }

    lemma Empty(size: nat)
      requires Coherent(strings) && size > 0 && kvps == [] && kvpCount == 0
      requires buckets == seq(size, _ => NO_KVP) && chains == seq(size, _ => []) && own == map[]
      ensures Valid() && State() == HashRuns.State(EmptyTable(size), 0) && Sound(HasherOf(fnv), State())
    {
      hide Linked, AllKeys, AllInRange, TableOf, EmptyTable, WellHashed, Coherent;
      NothingLinked(strings, size);
      EmptyIsWellHashed(HasherOf(fnv), size);
    }

    function BucketIndex(key: MemRef): nat
      requires IsKey(strings, key) && buckets != []
      reads this
      ensures BucketIndex(key) < |buckets|
      ensures BucketIndex(key) == Bucket(HasherOf(fnv), |buckets|, KeyOf(strings, key))
    {
      HashOfKey(strings, fnv, key);
      MemrefHash(strings, fnv, key) % |buckets|
    }

    /** The walk shared by hash_try_get, hash_contains, hash_remove and hash_set: it tests every cell that
        has a successor, then the last one. */
    method Walk(b: nat, key: MemRef) returns (found: bool, x: int, prev: int, ghost p: nat)
      requires Valid() && b < |buckets| && buckets[b] != NO_KVP && IsKey(strings, key)
      ensures p == Position(Table()[b], KeyOf(strings, key))
      ensures found <==> p < |Table()[b]|
      ensures |chains| == |buckets| && |chains[b]| == |Table()[b]|
      ensures found ==> x == chains[b][p] && prev == if p == 0 then NO_KVP else chains[b][p - 1]
      ensures found ==> 0 <= x < |kvps| && (kvps[x].next == NO_KVP <==> p + 1 == |Table()[b]|)
      ensures found && p > 0 ==> 0 <= prev
    {
      ghost var c := chains[b];
      assert ChainAt(kvps, buckets[b], c) && InRange(kvps, c);
      x, prev, found, p := buckets[b], NO_KVP, false, 0;
      while kvps[x].next != NO_KVP
        invariant p < |c| && x == c[p] && prev == if p == 0 then NO_KVP else c[p - 1]
        invariant forall j :: 0 <= j < p ==> !MemrefEqual(strings, key, kvps[c[j]].key)
        decreases |c| - p
      {
        if MemrefEqual(strings, key, kvps[x].key) {
          found := true;
          break;
        }
        prev := x;
        x := kvps[x].next;
        p := p + 1;
      }
      assert p + 1 < |c| ==> kvps[c[p]].next == c[p + 1];
      if !found {
        if MemrefEqual(strings, key, kvps[x].key) {
          found := true;
        } else {
          p := p + 1;
        }
      }
      WalkEnds(strings, kvps, c, key, p);
    }

    /** hash_try_get. */
    method TryGet(key: MemRef) returns (found: bool, result: MemRef)
      requires Valid() && IsKey(strings, key)
      ensures Lookup(HasherOf(fnv), Table(), KeyOf(strings, key)) == if found then Some(result) else None
    {
      found, result := false, NULL_REF;
      var b := BucketIndex(key);
      if buckets[b] == NO_KVP {
        assert ChainAt(kvps, buckets[b], chains[b]) && chains[b] == [];
        return;
      }
      var x, prev;
      ghost var p;
      found, x, prev, p := Walk(b, key);
      if found {
        assert InRange(kvps, chains[b]);
        result := kvps[x].val;
      }
    }

    /** hash_contains. */
    method Contains(key: MemRef) returns (found: bool)
      requires Valid() && IsKey(strings, key)
      ensures found <==> Lookup(HasherOf(fnv), Table(), KeyOf(strings, key)).Some?
    {
      var b := BucketIndex(key);
      if buckets[b] == NO_KVP {
        assert ChainAt(kvps, buckets[b], chains[b]) && chains[b] == [];
        return false;
      }
      var x, prev;
      ghost var p;
      found, x, prev, p := Walk(b, key);
    }

    /** hash_resize: every cell is relinked in place in front of its new chain. */
    method Resize()
      requires Valid() && kvpCount >= 0
      modifies this
      ensures Valid() && kvpCount == old(kvpCount) && SameCells(old(kvps), kvps)
      ensures NextPrime(kvpCount) > 0
      ensures Table() == Rehash(HasherOf(fnv), old(Table()), NextPrime(kvpCount))
    {
      hide PRIMES, NextPrimeFrom, NextPrime, Linked, AllKeys, Moving, Pushed, PushAll, Owned, TableOf, AllInRange,
           SameCells, Coherent, KeyOf, EmptyTable, Flat;
      var newSize := GetNextPrime(kvpCount);
      NextPrimeExceeds(0, kvpCount);
      ghost var t, hash, was, o := Table(), HasherOf(fnv), kvps, Lists(buckets, chains, own);
      var newBuckets := seq(newSize, _ => NO_KVP);
      ghost var n := Lists(newBuckets, seq(newSize, _ => []), map[]);
      StartMoving(strings, fnv, kvps, o, n, newSize);
      NoEntries(t);
      var i := 0;
      while i < |buckets|
        modifies `kvps
        invariant i <= |buckets| && n.heads == newBuckets
        invariant Pushed(strings, hash, was, kvps, n, newSize, Flat(t[..i]))
        invariant i < |buckets| ==> Moving(kvps, o, i, buckets[i], 0, n)
      {
        var item := buckets[i];
        ghost var m := 0;
        EntriesSoFar(strings, hash, was, kvps, n, newSize, Flat(t[..i]), chains, i, 0);
        while item != NO_KVP
          modifies `kvps
          invariant n.heads == newBuckets
          invariant m <= |chains[i]|
          invariant Pushed(strings, hash, was, kvps, n, newSize, Flat(t[..i]) + t[i][..m])
          invariant Moving(kvps, o, i, item, m, n)
          decreases |chains[i]| - m
        {
          ItemIsNext(kvps, o, i, item, m, n);
          EntriesSoFar(strings, hash, was, kvps, n, newSize, Flat(t[..i]) + t[i][..m], chains, i, m);
          var b := MemrefHash(strings, fnv, kvps[item].key) % newSize;
          var next := kvps[item].next;
          PushStep(strings, fnv, was, kvps, n, item, b, newSize, Flat(t[..i]) + t[i][..m],
                   EntryOf(strings, kvps, item));
          MoveStep(kvps, o, i, item, m, n, b);
          kvps := kvps[item := kvps[item].(next := newBuckets[b])];
          newBuckets := newBuckets[b := item];
          n := Push(n, b, item);
          item, m := next, m + 1;
        }
        ItemIsNext(kvps, o, i, item, m, n);
        NextBucket(kvps, o, i, m, n);
        EntriesSoFar(strings, hash, was, kvps, n, newSize, Flat(t[..i]) + t[i][..m], chains, i, m);
        i := i + 1;
      }
      assert t[..i] == t;
      buckets, chains, own := newBuckets, n.chains, n.own;
      Relinked(strings, hash, was, kvps, n, newSize, t);
    }

    ghost function AsLists(): Lists
      reads this
    {
      Lists(buckets, chains, own)
    }

    method AddFront(b: nat, key: MemRef, value: MemRef)
      requires Valid() && IsKey(strings, key) && b < |buckets|
      modifies this
      ensures Valid() && |buckets| == old(|buckets|) && kvpCount == old(kvpCount) + 1
      ensures Table() == old(Table())[b := [Entry(KeyOf(strings, key), value)] + old(Table())[b]]
    {
      hide Linked, AllKeys, TableOf, AllInRange, Coherent;
      AddCell(strings, kvps, AsLists(), b, Kvp(key, value, buckets[b]));
      var x := |kvps|;
      kvps := kvps + [Kvp(key, value, buckets[b])];
      buckets, chains, own := buckets[b := x], chains[b := [x] + chains[b]], own[x := b];
      kvpCount := kvpCount + 1;
    }

    method PutValue(b: nat, x: int, value: MemRef, ghost p: nat)
      requires Valid() && b < |buckets| && p < |Table()[b]| && |chains[b]| == |Table()[b]| && x == chains[b][p]
      modifies `kvps
      ensures Valid() && |buckets| == old(|buckets|)
      ensures Table() == old(Table())[b := old(Table())[b][p := Entry(old(Table())[b][p].key, value)]]
    {
      ReplaceValue(strings, kvps, buckets, chains, own, b, p, value);
      assert InRange(kvps, chains[b]);
      kvps := kvps[x := kvps[x].(val := value)];
    }

    lemma ChainLengths(b: nat)
      requires Valid() && b < |buckets|
      ensures |chains| == |buckets| && |chains[b]| == |Table()[b]|
      ensures buckets[b] == NO_KVP ==> Table()[b] == []
    {
      assert ChainAt(kvps, buckets[b], chains[b]);
    }

    /** hash_set: the value of a present key is replaced, a new key goes in front of its chain. */
    method Set(key: MemRef, value: MemRef)
      requires Valid() && IsKey(strings, key) && kvpCount >= 0
      modifies this
      ensures Valid()
      ensures State() == HashRuns.Set(HasherOf(fnv), old(State()), KeyOf(strings, key), value)
    {
      hide PRIMES, NextPrimeFrom, Valid, Table, TableOf, KeyOf, HasherOf, Bucket, Rehash;
      UnfoldState();
      var b := BucketIndex(key);
      ChainLengths(b);
      var replaced := false;
      if buckets[b] != NO_KVP {
        var x, prev;
        ghost var p;
        replaced, x, prev, p := Walk(b, key);
        if replaced {
          PutValue(b, x, value, p);
        }
      }
      if !replaced {
        AddFront(b, key, value);
        if kvpCount > |buckets| {
          Resize();
        }
      }
      UnfoldState();
    }

    lemma UnfoldState()
      requires Valid()
      ensures buckets != [] && State() == HashRuns.State(Table(), kvpCount) && |Table()| == |buckets|
    {}

    method SetHead(b: nat, head: int)
      requires Valid() && b < |buckets| && head == NO_KVP
      modifies `buckets, `chains
      ensures Valid() && Table() == old(Table())[b := []]
    {
      DropChain(strings, kvps, AsLists(), b);
      buckets, chains := buckets[b := head], chains[b := []];
    }

    method Unlink(b: nat, x: int, prev: int, ghost p: nat)
      requires Valid() && b < |buckets| && |chains| == |buckets| && 0 < p < |chains[b]| == |Table()[b]|
      requires prev == chains[b][p - 1] && x == chains[b][p]
      modifies `kvps, `chains
      ensures Valid() && Table() == old(Table())[b := old(Table())[b][..p] + old(Table())[b][p + 1..]]
    {
      CutCell(strings, kvps, AsLists(), b, p);
      kvps := kvps[prev := kvps[prev].(next := kvps[x].next)];
      chains := chains[b := chains[b][..p] + chains[b][p + 1..]];
    }

    /** hash_remove, with the test of `next` as the source has it. */
    method Remove(key: MemRef)
      requires Valid() && IsKey(strings, key)
      modifies this
      ensures Valid()
      ensures State() == HashRuns.Remove(HasherOf(fnv), old(State()), KeyOf(strings, key))
    {
      hide Valid, Table, TableOf, KeyOf, HasherOf, Bucket;
      UnfoldState();
      var b := BucketIndex(key);
      ChainLengths(b);
      if buckets[b] == NO_KVP {
        return;
      }
      var found, x, prev, p := Walk(b, key);
      if !found {
        return;
      }
      kvpCount := kvpCount - 1;
      if prev == NO_KVP && kvps[x].next != NO_KVP {
        SetHead(b, NO_KVP);
      } else if prev == NO_KVP {
        ghost var c := Table()[b];
        assert c[..0] + c[1..] == [];
        SetHead(b, kvps[x].next);
      } else {
        Unlink(b, x, prev, p);
      }
      UnfoldState();
    }

    /** hash_get_keys, hash_get_values and hash_get_key_values walk alike; this walk fills all three
        results.  It stops after the bucket where `kvp_count` entries have been seen.  Where removals have lost
        entries, the results have room for more entries than there are, and end with blanks. */
    method Enumerate() returns (keys: array<MemRef>, vals: array<MemRef>, cells: array<int>)
      requires Valid() && Count(Table()) <= kvpCount
      ensures keys.Length == vals.Length == cells.Length == kvpCount && |Flat(Table())| == Count(Table())
      ensures forall q :: 0 <= q < |Flat(Table())| ==>
                var e := Flat(Table())[q];
                && 0 <= cells[q] < |kvps| && kvps[cells[q]].key == keys[q] && kvps[cells[q]].val == vals[q]
                && IsKey(strings, keys[q]) && KeyOf(strings, keys[q]) == e.key && vals[q] == e.val
    {
      hide Flat, Before, Count, KeyOf, Valid, Table, IsKey, AllKeys, ChainAt, InRange;
      UnfoldState();
      ghost var t := Table();
      BeforeAll(t);
      keys, vals, cells := new MemRef[kvpCount], new MemRef[kvpCount], new int[kvpCount];
      var count := 0;
      var i := 0;
      while i < |buckets|
        invariant i <= |buckets| && count <= kvpCount && count == Before(t, i)
        invariant ShowAll(keys, vals, cells, Flat(t), count)
      {
        BucketFacts(i);
        FlatPrefix(t, i, 0);
        if buckets[i] != NO_KVP {
          count := EnumerateChain(i, keys, vals, cells, count);
        } else {
          EmptyBucket(i);
        }
        i := i + 1;
        if count == kvpCount {
          SeenAll(t, i);
          break;
        }
      }
    }

    /** The walk along one chain. */
    method EnumerateChain(i: nat, keys: array<MemRef>, vals: array<MemRef>, cells: array<int>, start: nat)
        returns (count: nat)
      requires Valid() && i < |buckets| && buckets[i] != NO_KVP && start == Before(Table(), i)
      requires keys != vals && |Flat(Table())| <= keys.Length == vals.Length == cells.Length
      requires ShowAll(keys, vals, cells, Flat(Table()), start)
      modifies keys, vals, cells
      ensures count == Before(Table(), i + 1) <= |Flat(Table())| && ShowAll(keys, vals, cells, Flat(Table()), count)
    {
      hide Flat, Before, Count, KeyOf, Valid, Table, IsKey, AllKeys;
      BucketFacts(i);
      ghost var t, c, m := Table(), chains[i], 0;
      FlatPrefix(t, i, 0);
      count := start;
      var r := buckets[i];
      while true
        invariant m < |c| && r == c[m] && count == Before(t, i) + m <= |Flat(t)|
        invariant ShowAll(keys, vals, cells, Flat(t), count)
        decreases |c| - m
      {
        FlatPrefix(t, i, m);
        EntryShown(i, m);
        keys[count], vals[count], cells[count] := kvps[r].key, kvps[r].val, r;
        count, m := count + 1, m + 1;
        assert m < |c| ==> kvps[c[m - 1]].next == c[m];
        if kvps[r].next == NO_KVP {
          break;
        }
        r := kvps[r].next;
      }
    }

    lemma EntryShown(i: nat, m: nat)
      requires Valid() && i < |buckets| && m < |chains[i]| && m < |Table()[i]|
      ensures 0 <= chains[i][m] < |kvps|
      ensures Shows(chains[i][m], kvps[chains[i][m]].key, kvps[chains[i][m]].val, Table()[i][m])
    {
      BucketFacts(i);
    }

    lemma EmptyBucket(i: nat)
      requires Valid() && i < |buckets| && buckets[i] == NO_KVP
      ensures |Table()[i]| == 0
    {}

    /** Where as many entries were seen as kvp_count says, there are no others. */
    lemma SeenAll(t: Table, i: nat)
      requires i <= |t| && Count(t) <= Before(t, i)
      ensures Before(t, i) == |Flat(t)|
      decreases |t| - i
    {
      BeforeAll(t);
      if i < |t| {
        FlatPrefix(t, i, 0);
        SeenAll(t, i + 1);
      }
    }

    lemma BucketFacts(i: nat)
      requires Valid() && i < |buckets|
      ensures |chains| == |buckets| && ChainAt(kvps, buckets[i], chains[i]) && InRange(kvps, chains[i])
      ensures AllKeys(strings, kvps) && |Table()[i]| == |chains[i]|
      ensures forall m :: 0 <= m < |chains[i]| ==> Table()[i][m] == EntryOf(strings, kvps, chains[i][m])
    {}

    ghost predicate Shows(cell: int, key: MemRef, val: MemRef, e: Entry)
      reads `kvps
    {
      && 0 <= cell < |kvps| && kvps[cell].key == key && kvps[cell].val == val
      && IsKey(strings, key) && KeyOf(strings, key) == e.key && val == e.val
    }

    ghost predicate ShowAll(keys: array<MemRef>, vals: array<MemRef>, cells: array<int>, flat: seq<Entry>, n: nat)
      reads `kvps, keys, vals, cells
    {
      && n <= |flat| && n <= keys.Length == vals.Length == cells.Length
      && forall q :: 0 <= q < n ==> Shows(cells[q], keys[q], vals[q], flat[q])
    }
  }
}
