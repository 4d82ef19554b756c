/** A hash table of datastructs/refhash.c as the collector of memory/gc.c sees it: what scan_graph relies on is
    what the table operations keep. */
module HashGraphs {
  import opened Commons
  import opened MemRefs
  import opened Keys
  import opened Graphs
  import HashSpec
  import ChainStores
  import RefHashes

  type Kvp = ChainStores.Kvp

  /** The reference to key-value cell x; refs[x] is its cell in the reference pool. */
  function Link(refs: seq<nat>, x: int): MemRef {
    if 0 <= x < |refs| then MemRef(KVP, refs[x]) else NULL_REF
  }

  ghost predicate InChains(chains: seq<seq<int>>, x: int) {
    exists i :: 0 <= i < |chains| && x in chains[i]
  }

  /** The graph has the hash at `root`, its bucket array and the cells of its chains; cells that are in no chain
      any more may be gone. */
  ghost predicate Represents(g: Graph, refs: seq<nat>, s: seq<Kvp>, heads: seq<int>, chains: seq<seq<int>>,
                             root: nat, table: nat, count: nat) {
    && root in g && g[root] == HashObj(count, MemRef(ARRAY, table))
    && table in g && g[table] == ArrayObj(seq(|heads|, i requires 0 <= i < |heads| => Link(refs, heads[i])))
    && |refs| == |s| && Distinct(refs)
    && forall x :: 0 <= x < |s| && InChains(chains, x) ==>
         refs[x] in g && g[refs[x]] == KvpObj(s[x].key, s[x].val, Link(refs, s[x].next))
  }

  /** `len` counts the links of these chains as Scannable asks. */
  ghost predicate Counts(g: Graph, len: map<int, nat>, refs: seq<nat>, chains: seq<seq<int>>) {
    forall x :: 0 <= x < |refs| && InChains(chains, x) && refs[x] in g && g[refs[x]].KvpObj? ==>
      refs[x] in len && len[refs[x]] == 1 + ChainLength(len, g[refs[x]].next)
  }

  /** Then the length of a chain is the number of its cells. */
  lemma {:induction false} ChainCounts(g: Graph, len: map<int, nat>, refs: seq<nat>, s: seq<Kvp>, heads: seq<int>,
                                       chains: seq<seq<int>>, root: nat, table: nat, count: nat, head: int, c: seq<int>)
    requires Represents(g, refs, s, heads, chains, root, table, count) && Counts(g, len, refs, chains)
    requires ChainStores.ChainAt(s, head, c) && forall x :: x in c ==> InChains(chains, x)
    ensures ChainLength(len, Link(refs, head)) == |c|
    decreases c
  {
    if c != [] {
      ChainStores.ChainTail(s, head, c);
      assert c[0] in c && InChains(chains, head);
      assert forall x :: x in c[1..] ==> x in c;
      ChainCounts(g, len, refs, s, heads, chains, root, table, count, s[head].next, c[1..]);
    }
  }

  /** The hash and its buckets. */
  lemma Shape(g: Graph, refs: seq<nat>, s: seq<Kvp>, heads: seq<int>, chains: seq<seq<int>>, root: nat, table: nat,
              count: nat)
    requires Represents(g, refs, s, heads, chains, root, table, count)
    ensures root in g && g[root] == HashObj(count, MemRef(ARRAY, table))
    ensures table in g && g[table].ArrayObj? && |g[table].elems| == |heads|
    ensures forall i :: 0 <= i < |heads| ==> g[table].elems[i] == Link(refs, heads[i])
    ensures forall m :: m in g[table].elems ==> m.typ == KVP || IsValue(m)
  {
    forall m | m in g[table].elems ensures m.typ == KVP || IsValue(m) {
      var i :| 0 <= i < |heads| && g[table].elems[i] == m;
    }
  }

  lemma ChainIs(s: seq<Kvp>, heads: seq<int>, chains: seq<seq<int>>, own: map<int, int>, i: nat)
    requires ChainStores.Linked(s, heads, chains, own) && i < |heads|
    ensures |chains| == |heads| && ChainStores.ChainAt(s, heads[i], chains[i])
    ensures forall x :: x in chains[i] ==> InChains(chains, x)
  {}

  /** The entries that the collector counts are the entries of the table. */
  lemma {:induction false} EntriesCounted(g: Graph, len: map<int, nat>, refs: seq<nat>, h: Strings, s: seq<Kvp>,
                                          heads: seq<int>, chains: seq<seq<int>>, own: map<int, int>,
                                          root: nat, table: nat, count: nat, n: nat)
    requires Represents(g, refs, s, heads, chains, root, table, count) && Counts(g, len, refs, chains)
    requires ChainStores.Linked(s, heads, chains, own) && n <= |heads|
    requires ChainStores.AllKeys(h, s) && ChainStores.AllInRange(s, chains)
    ensures table in g && g[table].ArrayObj? && |g[table].elems| == |heads|
    ensures EntryCount(len, g[table].elems[..n]) == HashSpec.Count(ChainStores.TableOf(h, s, chains)[..n])
  {
    hide Represents, Counts, ChainStores.Linked, ChainStores.AllKeys, ChainStores.AllInRange;
    Shape(g, refs, s, heads, chains, root, table, count);
    var elems, t := g[table].elems, ChainStores.TableOf(h, s, chains);
    if n > 0 {
      EntriesCounted(g, len, refs, h, s, heads, chains, own, root, table, count, n - 1);
      ChainIs(s, heads, chains, own, n - 1);
      ChainCounts(g, len, refs, s, heads, chains, root, table, count, heads[n - 1], chains[n - 1]);
      assert elems[..n][..n - 1] == elems[..n - 1] && t[..n][..n - 1] == t[..n - 1];
    }
  }

  /** A sound table has the shape that the collector's scan relies on if and only if kvp_count is not below the
      number of its entries, which RunCounts shows of every run of table operations. */
  lemma TableIsScannable(r: RefHashes.RefHash, g: Graph, len: map<int, nat>, refs: seq<nat>, root: nat, table: nat)
    requires r.Valid() && r.kvpCount >= 0
    requires Represents(g, refs, r.kvps, r.buckets, r.chains, root, table, r.kvpCount) && Counts(g, len, refs, r.chains)
    ensures HashShape(g, len, g[root]) <==> HashSpec.Count(r.Table()) <= r.kvpCount
  {
    hide Represents, Counts, ChainStores.Linked, ChainStores.AllKeys, ChainStores.AllInRange;
    Shape(g, refs, r.kvps, r.buckets, r.chains, root, table, r.kvpCount);
    var n, t, elems := |r.buckets|, r.Table(), g[table].elems;
    EntriesCounted(g, len, refs, r.strings, r.kvps, r.buckets, r.chains, r.own, root, table, r.kvpCount, n);
    assert elems[..n] == elems && t[..n] == t;
  }

  // ---------- chains end ----------

  function IndexOf(s: seq<int>, x: int): (r: nat)
    ensures r <= |s| && (r < |s| ==> s[r] == x) && (x in s ==> r < |s|)
  {
    if s == [] || s[0] == x then 0 else 1 + IndexOf(s[1..], x)
  }

  /** How many cells are left on its chain from cell x on. */
  ghost function Left(chains: seq<seq<int>>, own: map<int, int>, x: int): nat {
    if x in own && 0 <= own[x] < |chains| then |chains[own[x]]| - IndexOf(chains[own[x]], x) else 0
  }

  /** The lengths of the chains, and what was counted elsewhere. */
  ghost function Lengths(len0: map<int, nat>, refs: seq<nat>, chains: seq<seq<int>>,
                         own: map<int, int>): map<int, nat> {
    len0 + map r | r in refs :: Left(chains, own, IndexOf(refs, r))
  }

  lemma IndexIs(s: seq<int>, k: nat)
    requires Distinct(s) && k < |s|
    ensures IndexOf(s, s[k]) == k
  {
    assert s[k] in s;
  }

  /** The chains of a sound table end: their links can be counted, whatever is counted of other cells. */
  lemma TableHasLengths(r: RefHashes.RefHash, g: Graph, len0: map<int, nat>, refs: seq<nat>, root: nat, table: nat)
    requires r.Valid() && r.kvpCount >= 0
    requires Represents(g, refs, r.kvps, r.buckets, r.chains, root, table, r.kvpCount)
    ensures Counts(g, Lengths(len0, refs, r.chains, r.own), refs, r.chains)
    ensures forall x :: x in len0 && x !in refs ==> Lengths(len0, refs, r.chains, r.own)[x] == len0[x]
  {
    hide Represents, Lengths, Left, RefHashes.RefHash.Valid;
    var len := Lengths(len0, refs, r.chains, r.own);
    Opened(r, g, refs, root, table);
    forall x | 0 <= x < |refs| && InChains(r.chains, x)
      ensures refs[x] in len && len[refs[x]] == 1 + ChainLength(len, Link(refs, r.kvps[x].next))
    {
      var i :| 0 <= i < |r.chains| && x in r.chains[i];
      var k :| 0 <= k < |r.chains[i]| && r.chains[i][k] == x;
      LengthFrom(r.kvps, r.buckets, r.chains, r.own, len0, refs, i, k);
    }
    LengthsElsewhere(len0, refs, r.chains, r.own);
  }

  lemma Opened(r: RefHashes.RefHash, g: Graph, refs: seq<nat>, root: nat, table: nat)
    requires r.Valid() && r.kvpCount >= 0
    requires Represents(g, refs, r.kvps, r.buckets, r.chains, root, table, r.kvpCount)
    ensures ChainStores.Linked(r.kvps, r.buckets, r.chains, r.own) && |refs| == |r.kvps| && Distinct(refs)
    ensures forall x :: 0 <= x < |refs| && InChains(r.chains, x) ==>
              refs[x] in g && g[refs[x]].KvpObj? && g[refs[x]].next == Link(refs, r.kvps[x].next)
  {
    hide ChainStores.Linked, ChainStores.AllKeys, ChainStores.AllInRange, Distinct;
  }

  lemma LengthsElsewhere(len0: map<int, nat>, refs: seq<nat>, chains: seq<seq<int>>, own: map<int, int>)
    ensures forall x :: x in len0 && x !in refs ==> Lengths(len0, refs, chains, own)[x] == len0[x]
  {
    hide Left;
  }

  lemma LengthAt(len0: map<int, nat>, refs: seq<nat>, chains: seq<seq<int>>, own: map<int, int>, x: nat)
    requires Distinct(refs) && x < |refs|
    ensures var len := Lengths(len0, refs, chains, own); refs[x] in len && len[refs[x]] == Left(chains, own, x)
  {
    hide Left;
    IndexIs(refs, x);
  }

  /** The cell at position k of chain i, and the one after it. */
  lemma LengthFrom(s: seq<Kvp>, heads: seq<int>, chains: seq<seq<int>>, own: map<int, int>, len0: map<int, nat>,
                   refs: seq<nat>, i: nat, k: nat)
    requires ChainStores.Linked(s, heads, chains, own) && i < |chains| && k < |chains[i]|
    requires |refs| == |s| && Distinct(refs)
    ensures var len, x := Lengths(len0, refs, chains, own), chains[i][k];
            0 <= x < |s| && refs[x] in len && len[refs[x]] == 1 + ChainLength(len, Link(refs, s[x].next))
  {
    hide ChainStores.Linked, Lengths, Left, Distinct;
    LeftAt(s, heads, chains, own, i, k);
    LengthAt(len0, refs, chains, own, chains[i][k]);
    if k + 1 < |chains[i]| {
      LeftAt(s, heads, chains, own, i, k + 1);
      LengthAt(len0, refs, chains, own, chains[i][k + 1]);
    }
  }

  lemma LeftAt(s: seq<Kvp>, heads: seq<int>, chains: seq<seq<int>>, own: map<int, int>, i: nat, k: nat)
    requires ChainStores.Linked(s, heads, chains, own) && i < |chains| && k < |chains[i]|
    ensures Left(chains, own, chains[i][k]) == |chains[i]| - k && 0 <= chains[i][k] < |s|
    ensures s[chains[i][k]].next == if k + 1 < |chains[i]| then chains[i][k + 1] else ChainStores.NO_KVP
  {
    assert ChainStores.ChainAt(s, heads[i], chains[i]) && ChainStores.Owned(own, i, chains[i]);
    IndexIs(chains[i], k);
  }
}
