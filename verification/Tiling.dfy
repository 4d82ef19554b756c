/** The block structure of the dynamic pool, apart from the bytes that encode it: which offsets start
    a block and how long each block is. */
module Tilings {

  const NIL := 0xFFFF_FFFF      // the end of the free list
  const MIN_BLOCK := 8          // a free block holds its size and its link
  const HEADER := 4             // an allocated block holds its size

  /** The blocks of `t` (offset to size) cover the bytes 0..n without gap or overlap. */
  ghost predicate Tiling(t: map<nat, nat>, n: nat) {
    && 0 in t
    && (forall o :: o in t ==> MIN_BLOCK <= t[o] && o + t[o] <= n)
    && (forall o :: o in t ==> o + t[o] == n || o + t[o] in t)
    && (forall o, p :: o in t && p in t && o < p ==> o + t[o] <= p)
  }

  ghost predicate Covers(t: map<nat, nat>, o: nat, b: nat) {
    o in t && o <= b < o + t[o]
  }

  /** What a tiling is for: every byte lies in exactly one block. */
  lemma TilingPartitions(t: map<nat, nat>, n: nat, b: nat)
    requires Tiling(t, n) && b < n
    ensures exists o :: Covers(t, o, b)
    ensures forall o, p :: Covers(t, o, b) && Covers(t, p, b) ==> o == p
  {
    var o: nat := 0;
    while o + t[o] <= b
      invariant o in t && o <= b
      decreases b - o
    {
      o := o + t[o];
    }
    assert Covers(t, o, b);
  }

  /** The block that ends where the region ends. */
  lemma LastBlock(t: map<nat, nat>, n: nat) returns (o: nat)
    requires Tiling(t, n)
    ensures o in t && o + t[o] == n
  {
    o := 0 as nat;
    while o + t[o] != n
      invariant o in t
      decreases n - o
    {
      o := o + t[o];
    }
  }

  /** The block of another tiling that covers the first byte of a block has a different size or is this one. */
  lemma CoverDiffers(t: map<nat, nat>, n: nat, o: nat, s: map<nat, nat>, m: nat) returns (c: nat)
    requires Tiling(t, n) && o in t && o < n && Tiling(s, m) && o < m
    ensures c in s && c <= o && (c != o && c in t ==> t[c] != s[c])
  {
    TilingPartitions(s, m, o);
    c :| Covers(s, c, o);
    if c != o && c in t { Neighbour(t, n, c, o); }
  }

  /** A block that does not end the region has room for another one behind it. */
  lemma BlockBehind(t: map<nat, nat>, n: nat, o: nat)
    requires Tiling(t, n) && o in t && o + t[o] != n
    ensures o + t[o] + MIN_BLOCK <= n
  {
    assert o + t[o] in t;
  }

  /** The first `size` bytes of block `o` stay a block, the rest becomes one of its own. */
  function Split(t: map<nat, nat>, o: nat, size: nat): map<nat, nat>
    requires o in t && size <= t[o]
  {
    t[o := size][o + size := t[o] - size]
  }

  lemma SplitSizes(t: map<nat, nat>, o: nat, size: nat)
    requires o in t && 0 < size <= t[o]
    ensures Split(t, o, size).Keys == t.Keys + {o + size}
    ensures Split(t, o, size)[o] == size && Split(t, o, size)[o + size] == t[o] - size
    ensures forall p :: p in t && p != o && p != o + size ==> Split(t, o, size)[p] == t[p]
  {}

  lemma Neighbour(t: map<nat, nat>, n: nat, o: nat, x: nat)
    requires Tiling(t, n) && o in t && x in t
    ensures x < o ==> x + t[x] <= o
    ensures o < x ==> o + t[o] <= x
  {}

  lemma SplitTiling(t: map<nat, nat>, n: nat, o: nat, size: nat)
    requires Tiling(t, n) && o in t && MIN_BLOCK <= size && size + MIN_BLOCK <= t[o]
    ensures Tiling(Split(t, o, size), n)
    ensures o + size !in t
  {
    hide Tiling;
    BlockFacts(t, n, o);
    SplitSizes(t, o, size);
    hide Split;
    var s, q := Split(t, o, size), o + size;
    if q in t { Neighbour(t, n, o, q); }
    forall x | x in s ensures MIN_BLOCK <= s[x] && x + s[x] <= n && (x + s[x] == n || x + s[x] in s) {
      if x != q { BlockFacts(t, n, x); }
    }
    forall x, y | x in s && y in s && x < y ensures x + s[x] <= y {
      if x != q && y != q {
        Neighbour(t, n, x, y);
      } else if x != q {
        Neighbour(t, n, o, x);
      } else {
        Neighbour(t, n, o, y);
      }
    }
    IsTiling(s, n);
  }

  /** Block `o` swallows block `p`. */
  function Merge(t: map<nat, nat>, o: nat, p: nat): map<nat, nat>
    requires o in t && p in t && o != p
  {
    (t - {p})[o := t[o] + t[p]]
  }

  lemma MergeSizes(t: map<nat, nat>, o: nat, p: nat)
    requires o in t && p in t && o != p
    ensures Merge(t, o, p).Keys == t.Keys - {p} && Merge(t, o, p)[o] == t[o] + t[p]
    ensures forall x :: x in t && x != o && x != p ==> Merge(t, o, p)[x] == t[x]
  {}

  /** What a tiling says of one block. */
  lemma BlockFacts(t: map<nat, nat>, n: nat, o: nat)
    requires Tiling(t, n) && o in t
    ensures 0 in t && MIN_BLOCK <= t[o] && o + t[o] <= n && (o + t[o] == n || o + t[o] in t)
  {}

  lemma MergeTiling(t: map<nat, nat>, n: nat, o: nat, p: nat)
    requires Tiling(t, n) && o in t && o + t[o] == p && p in t
    ensures Tiling(Merge(t, o, p), n)
  {
    hide Tiling;
    BlockFacts(t, n, o);
    MergeSizes(t, o, p);
    hide Merge;
    var s := Merge(t, o, p);
    forall x | x in s ensures MIN_BLOCK <= s[x] && x + s[x] <= n && (x + s[x] == n || x + s[x] in s) {
      MergedBlock(t, n, o, p, x);
    }
    forall x, y | x in s && y in s && x < y ensures x + s[x] <= y {
      Neighbour(t, n, x, y);
      Neighbour(t, n, p, y);
    }
    IsTiling(s, n);
  }

  lemma IsTiling(s: map<nat, nat>, n: nat)
    requires 0 in s && forall x :: x in s ==> MIN_BLOCK <= s[x] && x + s[x] <= n && (x + s[x] == n || x + s[x] in s)
    requires forall x, y :: x in s && y in s && x < y ==> x + s[x] <= y
    ensures Tiling(s, n)
  {}

  lemma MergedBlock(t: map<nat, nat>, n: nat, o: nat, p: nat, x: nat)
    requires Tiling(t, n) && o in t && o + t[o] == p && p in t && x in t && x != p
    ensures var s := Merge(t, o, p);
            x in s && MIN_BLOCK <= s[x] && x + s[x] <= n && (x + s[x] == n || x + s[x] in s)
  {
    hide Tiling, Merge;
    BlockFacts(t, n, o);
    BlockFacts(t, n, p);
    BlockFacts(t, n, x);
    MergeSizes(t, o, p);
    if x != o { Neighbour(t, n, x, o); }
  }

  /** The boundary between the adjacent blocks `o` and `p` moves up by `delta`. */
  function Shift(t: map<nat, nat>, o: nat, p: nat, delta: nat): map<nat, nat>
    requires o in t && p in t && o != p && delta <= t[p]
  {
    Split(Merge(t, o, p), o, t[o] + delta)
  }

  lemma ShiftTiling(t: map<nat, nat>, n: nat, o: nat, p: nat, delta: nat)
    requires Tiling(t, n) && o in t && o + t[o] == p && p in t
    requires 0 < delta && delta + MIN_BLOCK <= t[p]
    ensures Tiling(Shift(t, o, p, delta), n)
    ensures p + delta !in t
  {
    hide Tiling, Merge, Split;
    BlockFacts(t, n, o);
    BlockFacts(t, n, p);
    MergeTiling(t, n, o, p);
    MergeSizes(t, o, p);
    SplitTiling(Merge(t, o, p), n, o, t[o] + delta);
  }

  /** The region and its last block grow by `more`. */
  lemma GrowTiling(t: map<nat, nat>, n: nat, o: nat, more: nat)
    requires Tiling(t, n) && o in t && o + t[o] == n
    ensures Tiling(t[o := t[o] + more], n + more)
  {}
}
