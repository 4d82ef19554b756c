/** How the dynamic pool of memory/dynamic_pool.c encodes its blocks and its free list in bytes, and
    what header writes do to that encoding. */
module DynLayouts {
  import opened Commons
  import opened Tilings

  type byte = x: int | 0 <= x < 256

  function Word(a: int, b: int, c: int, d: int): int {
    a + 0x100 * b + 0x1_0000 * c + 0x100_0000 * d
  }

  /** The little-endian 32-bit word at offset `o`. */
  function Read32(m: seq<byte>, o: nat): int
    requires o + 4 <= |m|
  {
    Word(m[o], m[o + 1], m[o + 2], m[o + 3])
  }

  /** `m1` is `m0` with the word `v` stored at `o`. */
  ghost predicate Wrote32(m0: seq<byte>, m1: seq<byte>, o: nat, v: int) {
    && |m1| == |m0| && o + 4 <= |m0|
    && Read32(m1, o) == v
    && (forall p: nat :: p < |m0| && (p < o || o + 4 <= p) ==> m1[p] == m0[p])
  }

  /** Headers of different blocks do not overlap and lie inside a region of n bytes. */
  ghost predicate Apart(s: set<nat>, n: nat) {
    && (forall o :: o in s ==> o + MIN_BLOCK <= n)
    && (forall o, p :: o in s && p in s && o < p ==> o + MIN_BLOCK <= p)
  }

  lemma TilingApart(t: map<nat, nat>, n: nat)
    requires Tiling(t, n)
    ensures Apart(t.Keys, n)
  {}

  /** Every block of `t` has its size, and every block of `links` its link, in its header. */
  ghost predicate Encodes(m: seq<byte>, t: map<nat, nat>, links: map<nat, nat>) {
    && Apart(t.Keys, |m|) && links.Keys <= t.Keys
    && (forall o :: o in t ==> Read32(m, o) == t[o])
    && (forall o :: o in links ==> Read32(m, o + 4) == links[o])
  }

  lemma WriteSize(m0: seq<byte>, m1: seq<byte>, t: map<nat, nat>, links: map<nat, nat>, o: nat, v: nat)
    requires Encodes(m0, t, links) && Apart(t.Keys + {o}, |m0|)
    requires Wrote32(m0, m1, o, v)
    ensures Encodes(m1, t[o := v], links) && |m1| == |m0|
  {
    hide Word;
    assert t[o := v].Keys == t.Keys + {o};
  }

  lemma WriteLink(m0: seq<byte>, m1: seq<byte>, t: map<nat, nat>, links: map<nat, nat>, o: nat, v: nat)
    requires Encodes(m0, t, links) && o in t
    requires Wrote32(m0, m1, o + 4, v)
    ensures Encodes(m1, t, links[o := v]) && |m1| == |m0|
  {
    hide Word;
  }

  function First(l: seq<nat>): nat {
    if l == [] then NIL else l[0]
  }

  /** The offset that position `k` of the free list holds, NIL outside it. */
  function At(l: seq<nat>, k: int): nat {
    if 0 <= k < |l| then l[k] else NIL
  }

  /** Following `links` from `head` visits exactly the blocks of `l`, each once. */
  ghost predicate Chain(head: nat, links: map<nat, nat>, l: seq<nat>) {
    && head == First(l)
    && Distinct(l)
    && (forall o :: o in links <==> o in l)
    && (forall j, k :: 0 <= j < k < |l| && k == j + 1 ==> links[l[j]] == l[k])
    && (l != [] ==> links[l[|l| - 1]] == NIL)
  }

  function Without(l: seq<nat>, k: nat): (r: seq<nat>)
    requires k < |l|
    ensures |r| == |l| - 1
    ensures forall i :: 0 <= i < |r| ==> r[i] == if i < k then l[i] else l[i + 1]
  {
    l[..k] + l[k + 1..]
  }

  function Insert(l: seq<nat>, k: nat, o: nat): (r: seq<nat>)
    requires k <= |l|
    ensures |r| == |l| + 1
    ensures forall i :: 0 <= i < |r| ==> r[i] == if i < k then l[i] else if i == k then o else l[i - 1]
  {
    l[..k] + [o] + l[k..]
  }

  /** Position `k` of the list is made to lead to `v`: through the head of the pool for k = 0, through
      the link of the block before it otherwise. */
  function Relink(links: map<nat, nat>, l: seq<nat>, k: nat, v: nat): map<nat, nat>
    requires k <= |l|
  {
    if k == 0 then links else links[l[k - 1] := v]
  }

  function NewHead(head: nat, k: nat, v: nat): nat {
    if k == 0 then v else head
  }

  lemma ChainWithout(head: nat, links: map<nat, nat>, l: seq<nat>, k: nat)
    requires Chain(head, links, l) && k < |l|
    ensures Chain(NewHead(head, k, At(l, k + 1)), Relink(links, l, k, At(l, k + 1)) - {l[k]}, Without(l, k))
  {
    hide Without;
    WithoutMembers(l, k);
    WithoutLinks(links, l, k);
    if k > 0 { assert l[k - 1] in l; }
    RelinkKeys(links, l, k, At(l, k + 1));
    WithoutFirst(l, k);
  }

  lemma WithoutFirst(l: seq<nat>, k: nat)
    requires k < |l| && Distinct(l)
    ensures First(Without(l, k)) == if k == 0 then At(l, 1) else l[0]
    ensures Distinct(Without(l, k))
  {}

  lemma WithoutLinks(links: map<nat, nat>, l: seq<nat>, k: nat)
    requires k < |l| && Distinct(l) && (forall o :: o in l ==> o in links)
    requires forall i, j :: 0 <= i < j < |l| && j == i + 1 ==> links[l[i]] == l[j]
    requires links[l[|l| - 1]] == NIL
    ensures var r, links' := Without(l, k), Relink(links, l, k, At(l, k + 1)) - {l[k]};
            && (forall x :: x in r ==> x in links')
            && (forall i, j :: 0 <= i < j < |r| && j == i + 1 ==> r[i] in links' && links'[r[i]] == r[j])
            && (r != [] ==> r[|r| - 1] in links' && links'[r[|r| - 1]] == NIL)
  {
    WithoutMembers(l, k);
  }

  lemma WithoutMembers(l: seq<nat>, k: nat)
    requires k < |l| && Distinct(l)
    ensures forall x :: x in Without(l, k) <==> x in l && x != l[k]
  {
    var r := Without(l, k);
    forall x | x in l && x != l[k] ensures x in r {
      var i :| 0 <= i < |l| && l[i] == x;
      assert r[if i < k then i else i - 1] == x;
    }
  }

  /** What Chain says of a list, apart from its head. */
  ghost predicate ListLinks(links: map<nat, nat>, l: seq<nat>) {
    && (forall o :: o in l ==> o in links)
    && (forall i, j :: 0 <= i < j < |l| && j == i + 1 ==> links[l[i]] == l[j])
    && (l != [] ==> links[l[|l| - 1]] == NIL)
  }

  lemma InsertMembers(l: seq<nat>, k: nat, o: nat)
    requires k <= |l|
    ensures forall x :: x in Insert(l, k, o) <==> x in l || x == o
  {
    var r := Insert(l, k, o);
    assert r[k] == o;
    forall x | x in l ensures x in r {
      var i :| 0 <= i < |l| && l[i] == x;
      assert r[if i < k then i else i + 1] == x;
    }
  }

  lemma InsertLinks(links: map<nat, nat>, l: seq<nat>, k: nat, o: nat)
    requires k <= |l| && o !in l && ListLinks(links, l) && Distinct(l)
    ensures var links' := Relink(links, l, k, o)[o := At(l, k)];
            ListLinks(links', Insert(l, k, o)) && links'.Keys == links.Keys + {o}
  {
    var r, links' := Insert(l, k, o), Relink(links, l, k, o)[o := At(l, k)];
    if k > 0 { assert l[k - 1] in l; }
    RelinkKeys(links, l, k, o);
    InsertMembers(l, k, o);
    forall i, j | 0 <= i < j < |r| && j == i + 1 ensures links'[r[i]] == r[j] {
      if i != k { assert r[i] in l; }
      assert r[i] == if i < k then l[i] else if i == k then o else l[i - 1];
      assert r[j] == if j < k then l[j] else if j == k then o else l[j - 1];
    }
  }

  lemma InsertDistinct(l: seq<nat>, k: nat, o: nat)
    requires k <= |l| && o !in l && Distinct(l)
    ensures Distinct(Insert(l, k, o))
    ensures First(Insert(l, k, o)) == if k == 0 then o else l[0]
  {}

  lemma ChainInsert(head: nat, links: map<nat, nat>, l: seq<nat>, k: nat, o: nat)
    requires Chain(head, links, l) && k <= |l| && o !in l
    ensures Chain(NewHead(head, k, o), Relink(links, l, k, o)[o := At(l, k)], Insert(l, k, o))
  {
    hide Insert, Relink;
    InsertDistinct(l, k, o);
    InsertMembers(l, k, o);
    InsertLinks(links, l, k, o);
  }

  lemma ReplaceMembers(l: seq<nat>, k: nat, o: nat)
    requires k < |l| && o !in l && Distinct(l)
    ensures forall x :: x in l[k := o] <==> x == o || (x in l && x != l[k])
  {
    var r := l[k := o];
    assert r[k] == o;
    forall x | x in l && x != l[k] ensures x in r {
      var i :| 0 <= i < |l| && l[i] == x;
      assert r[i] == x;
    }
    forall x | x in r && x != o ensures x in l && x != l[k] {
      var i :| 0 <= i < |r| && r[i] == x;
      assert l[i] == x;
    }
  }

  lemma ReplaceLinks(links: map<nat, nat>, l: seq<nat>, k: nat, o: nat)
    requires k < |l| && o !in l && ListLinks(links, l) && Distinct(l)
    ensures var links' := Relink((links - {l[k]})[o := At(l, k + 1)], l, k, o);
            ListLinks(links', l[k := o]) && links'.Keys == links.Keys - {l[k]} + {o}
  {
    var r, base := l[k := o], (links - {l[k]})[o := At(l, k + 1)];
    var links' := Relink(base, l, k, o);
    if k > 0 { assert l[k - 1] in l && l[k - 1] != l[k]; }
    RelinkKeys(base, l, k, o);
    ReplaceMembers(l, k, o);
    forall i, j | 0 <= i < j < |r| && j == i + 1 ensures links'[r[i]] == r[j] {
      if i != k { assert r[i] == l[i] && l[i] in l && l[i] != l[k]; }
    }
    if k < |l| - 1 { assert l[|l| - 1] in l && l[|l| - 1] != l[k]; }
  }

  lemma ChainReplace(head: nat, links: map<nat, nat>, l: seq<nat>, k: nat, o: nat)
    requires Chain(head, links, l) && k < |l| && o !in l
    ensures Chain(NewHead(head, k, o), Relink((links - {l[k]})[o := At(l, k + 1)], l, k, o), l[k := o])
  {
    hide Relink;
    ReplaceMembers(l, k, o);
    ReplaceLinks(links, l, k, o);
  }

  lemma DropLink(m: seq<byte>, t: map<nat, nat>, links: map<nat, nat>, o: nat)
    requires Encodes(m, t, links)
    ensures Encodes(m, t, links - {o})
  {
    hide Word;
  }

  lemma DropBlock(m: seq<byte>, t: map<nat, nat>, links: map<nat, nat>, o: nat)
    requires Encodes(m, t, links)
    ensures Encodes(m, t - {o}, links - {o})
  {
    hide Word;
  }

  ghost predicate SameBytes(m0: seq<byte>, m1: seq<byte>, from: nat, to: nat) {
    && to <= |m0| && to <= |m1|
    && forall b :: from <= b < to ==> m1[b] == m0[b]
  }

  /** The payloads of the blocks in `live` are the same in both regions. */
  ghost predicate Kept(m0: seq<byte>, m1: seq<byte>, t: map<nat, nat>, live: set<nat>) {
    forall o :: o in live && o in t ==> SameBytes(m0, m1, o + HEADER, o + t[o])
  }

  /** A write inside a free block, or to the size of a live one, leaves every live payload alone. */
  lemma WriteKeeps(m0: seq<byte>, m1: seq<byte>, t: map<nat, nat>, live: set<nat>, f: nat, at: nat, v: int)
    requires Tiling(t, |m0|) && f in t && f <= at && at + 4 <= f + t[f] && (at == f || f !in live)
    requires Wrote32(m0, m1, at, v)
    ensures Kept(m0, m1, t, live)
  {
    hide Word;
  }

  lemma KeptTransitive(m0: seq<byte>, m1: seq<byte>, m2: seq<byte>, t: map<nat, nat>, live: set<nat>)
    requires Kept(m0, m1, t, live) && Kept(m1, m2, t, live)
    ensures Kept(m0, m2, t, live)
  {
    forall o | o in live && o in t
      ensures SameBytes(m0, m2, o + HEADER, o + t[o])
    {
      assert SameBytes(m0, m1, o + HEADER, o + t[o]) && SameBytes(m1, m2, o + HEADER, o + t[o]);
    }
  }

  /** `Kept` depends on the sizes of the live blocks only, and weakens to fewer of them. */
  lemma KeptFewer(m0: seq<byte>, m1: seq<byte>, t: map<nat, nat>, live: set<nat>, t': map<nat, nat>, live': set<nat>)
    requires Kept(m0, m1, t, live) && live' <= live
    requires forall o :: o in live' && o in t' ==> o in t && t'[o] == t[o]
    ensures Kept(m0, m1, t', live')
  {}

  /** The region `m` with list head `h` encodes the blocks `t` and the free list `l`.  The list is
      acyclic but in no particular order. */
  ghost predicate Good(m: seq<byte>, h: nat, t: map<nat, nat>, links: map<nat, nat>, l: seq<nat>) {
    |m| < NIL && Tiling(t, |m|) && Encodes(m, t, links) && Chain(h, links, l)
  }

  /** What a position of the free list stands for. */
  lemma Listed(m: seq<byte>, h: nat, t: map<nat, nat>, links: map<nat, nat>, l: seq<nat>, k: nat)
    requires Good(m, h, t, links, l) && k < |l|
    ensures l[k] in t && l[k] in links && links[l[k]] == At(l, k + 1)
    ensures k > 0 ==> l[k - 1] in t && l[k - 1] != l[k]
  {
    hide Word;
  }

  /** One free block that covers the region. */
  lemma OneFreeBlock(m0: seq<byte>, m1: seq<byte>, m2: seq<byte>)
    requires MIN_BLOCK <= |m0| < NIL && Wrote32(m0, m1, 0, |m0|) && Wrote32(m1, m2, 4, NIL)
    ensures Good(m2, 0, map[0 := |m0|], map[0 := NIL], [0])
  {
    hide Word;
    assert Read32(m2, 0) == Read32(m1, 0);
  }

  /** What the bytes say of a block, and of a free one. */
  lemma BlockReads(m: seq<byte>, h: nat, t: map<nat, nat>, links: map<nat, nat>, l: seq<nat>, o: nat)
    requires Good(m, h, t, links, l) && o in t
    ensures o + MIN_BLOCK <= o + t[o] <= |m| < NIL && Read32(m, o) == t[o]
    ensures o in links ==> Read32(m, o + 4) == links[o]
  {
    hide Word, Chain;
  }

  lemma SlotReads(m: seq<byte>, h: nat, t: map<nat, nat>, links: map<nat, nat>, l: seq<nat>, k: nat)
    requires Good(m, h, t, links, l) && k < |l|
    ensures l[k] in t && l[k] in links && l[k] + MIN_BLOCK <= l[k] + t[l[k]] <= |m| < NIL
    ensures Read32(m, l[k]) == t[l[k]] && Read32(m, l[k] + 4) == At(l, k + 1)
    ensures At(l, k + 1) == NIL <==> k + 1 == |l|
  {
    hide Good, Read32;
    Listed(m, h, t, links, l, k);
    BlockReads(m, h, t, links, l, l[k]);
    if k + 1 < |l| {
      Listed(m, h, t, links, l, k + 1);
      BlockReads(m, h, t, links, l, l[k + 1]);
    }
  }

  lemma NotListed(m: seq<byte>, h: nat, t: map<nat, nat>, links: map<nat, nat>, l: seq<nat>, o: nat)
    requires Good(m, h, t, links, l) && o !in t
    ensures o !in l
  {
    hide Word;
    assert o !in links;
  }

  /** The bytes after position `k` of the list was made to lead to `v`. */
  ghost predicate Relinked(m0: seq<byte>, m1: seq<byte>, l: seq<nat>, k: nat, v: int) {
    k <= |l| && if k == 0 then m1 == m0 else Wrote32(m0, m1, l[k - 1] + 4, v)
  }

  /** The link before position k, on behalf of a map of blocks that has that block. */
  lemma RelinkEncodes(m0: seq<byte>, m1: seq<byte>, t: map<nat, nat>, links: map<nat, nat>, l: seq<nat>, k: nat, v: nat)
    requires Encodes(m0, t, links) && Relinked(m0, m1, l, k, v) && (k > 0 ==> l[k - 1] in t)
    ensures |m1| == |m0| && Encodes(m1, t, Relink(links, l, k, v))
  {
    hide Word;
    if k > 0 {
      WriteLink(m0, m1, t, links, l[k - 1], v);
    }
  }

  lemma RelinkKeeps(m0: seq<byte>, m1: seq<byte>, t: map<nat, nat>, live: set<nat>, l: seq<nat>, k: nat, v: nat)
    requires Tiling(t, |m0|) && Relinked(m0, m1, l, k, v) && (k > 0 ==> l[k - 1] in t && l[k - 1] !in live)
    ensures Kept(m0, m1, t, live)
  {
    hide Word;
    if k > 0 {
      WriteKeeps(m0, m1, t, live, l[k - 1], l[k - 1] + 4, v);
    }
  }

  /** The size write that adds block `o` to block `p`. */
  lemma MergeEncodes(m0: seq<byte>, m1: seq<byte>, t: map<nat, nat>, links: map<nat, nat>, p: nat, o: nat)
    requires Encodes(m0, t, links) && p in t && o in t && o != p
    requires Wrote32(m0, m1, p, t[p] + t[o])
    ensures Encodes(m1, Merge(t, p, o), links - {o}) && |m1| == |m0|
  {
    hide Word;
    var sum := t[p] + t[o];
    assert t.Keys + {p} == t.Keys;
    WriteSize(m0, m1, t, links, p, sum);
    DropBlock(m1, t[p := sum], links, o);
    assert Merge(t, p, o) == t[p := sum] - {o};
  }

  lemma GoodRelinkKeeps(m0: seq<byte>, m1: seq<byte>, h: nat, t: map<nat, nat>, links: map<nat, nat>,
                        l: seq<nat>, k: nat, v: nat)
    requires Good(m0, h, t, links, l) && Relinked(m0, m1, l, k, v)
    ensures Kept(m0, m1, t, t.Keys - links.Keys)
  {
    hide Word;
    if k > 0 { Listed(m0, h, t, links, l, k - 1); }
    RelinkKeeps(m0, m1, t, t.Keys - links.Keys, l, k, v);
  }

  lemma KeptReflexive(m: seq<byte>, h: nat, t: map<nat, nat>, links: map<nat, nat>, l: seq<nat>)
    requires Good(m, h, t, links, l)
    ensures Kept(m, m, t, t.Keys - links.Keys)
  {
    hide Word;
  }

  /** Freeing block `o` by adding it to the free block l[k-1] right before it. */
  lemma MergeStep(m0: seq<byte>, m1: seq<byte>, m2: seq<byte>, h: nat, t: map<nat, nat>, links: map<nat, nat>,
                  l: seq<nat>, k: nat, o: nat)
    requires Good(m0, h, t, links, l) && 0 < k <= |l| && l[k - 1] in t
    requires o in t && o !in links && l[k - 1] + t[l[k - 1]] == o
    requires Wrote32(m0, m1, l[k - 1], t[l[k - 1]] + t[o]) && Wrote32(m1, m2, l[k - 1] + 4, At(l, k))
    ensures Good(m2, h, Merge(t, l[k - 1], o), links, l)
  {
    hide Word, Tiling, Encodes, Wrote32, Chain;
    Listed(m0, h, t, links, l, k - 1);
    var p := l[k - 1];
    MergeTiling(t, |m0|, p, o);
    MergeEncodes(m0, m1, t, links, p, o);
    assert links - {o} == links;
    WriteLink(m1, m2, Merge(t, p, o), links, p, At(l, k));
    assert links[p] == At(l, k);
    assert links[p := At(l, k)] == links;
  }

  lemma MergeKeeps(m0: seq<byte>, m1: seq<byte>, m2: seq<byte>, h: nat, t: map<nat, nat>, links: map<nat, nat>,
                   l: seq<nat>, k: nat, o: nat)
    requires Good(m0, h, t, links, l) && 0 < k <= |l| && l[k - 1] in t && o in t
    requires Wrote32(m0, m1, l[k - 1], t[l[k - 1]] + t[o]) && Wrote32(m1, m2, l[k - 1] + 4, At(l, k))
    ensures Kept(m0, m2, t, t.Keys - links.Keys - {o})
  {
    hide Word;
    var p := l[k - 1];
    var live := t.Keys - links.Keys - {o};
    WriteKeeps(m0, m1, t, live, p, p, t[p] + t[o]);
    WriteKeeps(m1, m2, t, live, p, p + 4, At(l, k));
    KeptTransitive(m0, m1, m2, t, live);
  }

  /** Freeing block `o` by putting it on the list at position k. */
  lemma PutStep(m0: seq<byte>, m1: seq<byte>, m2: seq<byte>, h: nat, t: map<nat, nat>, links: map<nat, nat>,
                l: seq<nat>, k: nat, o: nat)
    requires Good(m0, h, t, links, l) && k <= |l| && o in t && o !in links
    requires Relinked(m0, m1, l, k, o) && Wrote32(m1, m2, o + 4, At(l, k))
    ensures Good(m2, NewHead(h, k, o), t, Relink(links, l, k, o)[o := At(l, k)], Insert(l, k, o))
  {
    hide Word;
    RelinkEncodes(m0, m1, t, links, l, k, o);
    ChainInsert(h, links, l, k, o);
    WriteLink(m1, m2, t, Relink(links, l, k, o), o, At(l, k));
  }

  /** The keys of the link map after each of the four list operations. */
  lemma RelinkKeys(links: map<nat, nat>, l: seq<nat>, k: nat, v: nat)
    requires k <= |l| && (k > 0 ==> l[k - 1] in links)
    ensures Relink(links, l, k, v).Keys == links.Keys
  {}

  lemma PutKeeps(m0: seq<byte>, m1: seq<byte>, m2: seq<byte>, h: nat, t: map<nat, nat>, links: map<nat, nat>,
                 l: seq<nat>, k: nat, o: nat)
    requires Good(m0, h, t, links, l) && k <= |l| && o in t && o !in links
    requires Relinked(m0, m1, l, k, o) && Wrote32(m1, m2, o + 4, At(l, k))
    ensures Kept(m0, m2, t, t.Keys - links.Keys - {o})
  {
    hide Word;
    var live := t.Keys - links.Keys - {o};
    RelinkKeeps(m0, m1, t, live, l, k, o);
    WriteKeeps(m1, m2, t, live, o, o + 4, At(l, k));
    KeptTransitive(m0, m1, m2, t, live);
  }

  /** Allocating the whole of free block l[k]. */
  lemma TakeStep(m0: seq<byte>, m1: seq<byte>, h: nat, t: map<nat, nat>, links: map<nat, nat>, l: seq<nat>, k: nat)
    requires Good(m0, h, t, links, l) && k < |l|
    requires Relinked(m0, m1, l, k, At(l, k + 1))
    ensures Good(m1, NewHead(h, k, At(l, k + 1)), t, Relink(links, l, k, At(l, k + 1)) - {l[k]}, Without(l, k))
  {
    hide Word;
    hide Tiling;
    RelinkEncodes(m0, m1, t, links, l, k, At(l, k + 1));
    ChainWithout(h, links, l, k);
    hide Chain;
    var links' := Relink(links, l, k, At(l, k + 1));
    assert links'.Keys - {l[k]} <= t.Keys;
  }

  /** The same maps as the order of the size writes builds them. */
  lemma SplitKeys(t: map<nat, nat>, o: nat, size: nat)
    requires o in t && 0 < size <= t[o]
    ensures Split(t, o, size) == t[o + size := t[o] - size][o := size]
    ensures Split(t, o, size).Keys == t.Keys + {o + size} == t[o + size := t[o] - size].Keys + {o}
  {}

  lemma ShiftKeys(t: map<nat, nat>, o: nat, p: nat, delta: nat)
    requires o in t && p in t && o + t[o] == p && o < p && 0 < delta <= t[p]
    ensures Shift(t, o, p, delta) == (t - {p})[p + delta := t[p] - delta][o := t[o] + delta]
    ensures Shift(t, o, p, delta).Keys == (t - {p}).Keys + {p + delta}
         == (t - {p})[p + delta := t[p] - delta].Keys + {o}
  {}

  /** The two size writes that cut block `o` in two. */
  lemma SplitEncodes(m0: seq<byte>, m1: seq<byte>, m2: seq<byte>, t: map<nat, nat>, links: map<nat, nat>, o: nat,
                     size: nat)
    requires Encodes(m0, t, links) && Tiling(t, |m0|) && o in t && MIN_BLOCK <= size && size + MIN_BLOCK <= t[o]
    requires Wrote32(m0, m1, o + size, t[o] - size) && Wrote32(m1, m2, o, size)
    ensures Encodes(m2, Split(t, o, size), links) && |m2| == |m0|
  {
    hide Word, Tiling, Apart, Encodes, Wrote32, Split;
    var q := o + size;
    SplitTiling(t, |m0|, o, size);
    TilingApart(Split(t, o, size), |m0|);
    var t1 := t[q := t[o] - size];
    SplitKeys(t, o, size);
    WriteSize(m0, m1, t, links, q, t[o] - size);
    WriteSize(m1, m2, t1, links, o, size);
  }

  /** The two link writes that put block `q` in the place of free block l[k]. */
  lemma ReplaceEncodes(m0: seq<byte>, m1: seq<byte>, m2: seq<byte>, t: map<nat, nat>, links: map<nat, nat>,
                       l: seq<nat>, k: nat, q: nat)
    requires k < |l| && Encodes(m0, t, links - {l[k]}) && q in t && (k > 0 ==> l[k - 1] in t)
    requires Wrote32(m0, m1, q + 4, At(l, k + 1)) && Relinked(m1, m2, l, k, q)
    ensures Encodes(m2, t, Relink((links - {l[k]})[q := At(l, k + 1)], l, k, q)) && |m2| == |m0|
  {
    hide Word;
    WriteLink(m0, m1, t, links - {l[k]}, q, At(l, k + 1));
    RelinkEncodes(m1, m2, t, (links - {l[k]})[q := At(l, k + 1)], l, k, q);
  }

  /** Carving a block of `size` bytes off the front of free block l[k]. */
  lemma CarveStep(m0: seq<byte>, m1: seq<byte>, m2: seq<byte>, m3: seq<byte>, m4: seq<byte>, h: nat,
                  t: map<nat, nat>, links: map<nat, nat>, l: seq<nat>, k: nat, size: nat)
    requires Good(m0, h, t, links, l) && k < |l| && l[k] in t
    requires MIN_BLOCK <= size && size + MIN_BLOCK <= t[l[k]]
    requires Wrote32(m0, m1, l[k] + size, t[l[k]] - size) && Wrote32(m1, m2, l[k], size)
    requires Wrote32(m2, m3, l[k] + size + 4, At(l, k + 1)) && Relinked(m3, m4, l, k, l[k] + size)
    ensures var q := l[k] + size;
            Good(m4, NewHead(h, k, q), Split(t, l[k], size), Relink((links - {l[k]})[q := At(l, k + 1)], l, k, q),
                 l[k := q])
  {
    hide Word, Tiling, Encodes, Wrote32, Chain, Relinked;
    var o := l[k];
    var q := o + size;
    Listed(m0, h, t, links, l, k);
    SplitTiling(t, |m0|, o, size);
    NotListed(m0, h, t, links, l, q);
    SplitEncodes(m0, m1, m2, t, links, o, size);
    DropLink(m2, Split(t, o, size), links, o);
    ReplaceEncodes(m2, m3, m4, Split(t, o, size), links, l, k, q);
    ChainReplace(h, links, l, k, q);
  }

  lemma SlotFacts(m: seq<byte>, h: nat, t: map<nat, nat>, links: map<nat, nat>, l: seq<nat>, k: nat)
    requires Good(m, h, t, links, l) && k < |l|
    ensures Tiling(t, |m|) && links.Keys <= t.Keys && MIN_BLOCK == 8
    ensures l[k] in t && l[k] in links && 8 <= t[l[k]]
    ensures k > 0 ==> l[k - 1] in t && l[k - 1] in links && l[k - 1] != l[k]
  {
    hide Word;
    Listed(m, h, t, links, l, k);
    if k > 0 { Listed(m, h, t, links, l, k - 1); }
  }

  lemma SlotKeys(links: map<nat, nat>, l: seq<nat>, k: nat, q: nat)
    requires k < |l| && l[k] in links && (k > 0 ==> l[k - 1] in links && l[k - 1] != l[k])
    ensures Relink((links - {l[k]})[q := At(l, k + 1)], l, k, q).Keys == links.Keys - {l[k]} + {q}
  {
    RelinkKeys((links - {l[k]})[q := At(l, k + 1)], l, k, q);
  }

  lemma SlotSize(m: seq<byte>, h: nat, t: map<nat, nat>, links: map<nat, nat>, l: seq<nat>, o: nat)
    requires Good(m, h, t, links, l) && o in t
    ensures 8 <= t[o]
  {
    hide Word;
  }

  lemma SameLength(m0: seq<byte>, m1: seq<byte>, o: nat, v: int)
    requires Wrote32(m0, m1, o, v)
    ensures |m1| == |m0|
  {
    hide Word;
  }

  lemma CarveSizes(m: seq<byte>, h: nat, t: map<nat, nat>, links: map<nat, nat>, l: seq<nat>, o: nat, size: nat)
    requires Good(m, h, t, links, l) && o in t && MIN_BLOCK <= size && size + MIN_BLOCK <= t[o]
    ensures o + size !in t && Split(t, o, size).Keys == t.Keys + {o + size} && Split(t, o, size)[o] == size
    ensures forall p :: p in t && p != o ==> Split(t, o, size)[p] == t[p]
  {
    hide Word, Chain, Encodes, Tiling, Split;
    SplitTiling(t, |m|, o, size);
    SplitSizes(t, o, size);
  }

  lemma CarveKeys(m: seq<byte>, h: nat, t: map<nat, nat>, links: map<nat, nat>, l: seq<nat>, k: nat, q: nat)
    requires Good(m, h, t, links, l) && k < |l|
    ensures Relink((links - {l[k]})[q := At(l, k + 1)], l, k, q).Keys == links.Keys - {l[k]} + {q}
  {
    hide *;
    SlotFacts(m, h, t, links, l, k);
    SlotKeys(links, l, k, q);
  }

  /** Two writes into free block f, with one to the size field of a block g in between. */
  lemma ThreeWritesKeep(m0: seq<byte>, m1: seq<byte>, m2: seq<byte>, m3: seq<byte>, t: map<nat, nat>, live: set<nat>,
                        f: nat, at1: nat, v1: int, g: nat, at2: nat, v2: int, at3: nat, v3: int)
    requires Tiling(t, |m0|) && f in t && f !in live && g in t && at2 == g && 4 <= t[g]
    requires f <= at1 && at1 + 4 <= f + t[f] && f <= at3 && at3 + 4 <= f + t[f]
    requires Wrote32(m0, m1, at1, v1) && Wrote32(m1, m2, at2, v2) && Wrote32(m2, m3, at3, v3)
    ensures Kept(m0, m3, t, live) && |m3| == |m0|
  {
    hide *;
    SameLength(m0, m1, at1, v1);
    SameLength(m1, m2, at2, v2);
    SameLength(m2, m3, at3, v3);
    WriteKeeps(m0, m1, t, live, f, at1, v1);
    WriteKeeps(m1, m2, t, live, g, at2, v2);
    WriteKeeps(m2, m3, t, live, f, at3, v3);
    KeptThrice(m0, m1, m2, m3, t, live);
  }

  lemma CarveKeeps(m0: seq<byte>, m1: seq<byte>, m2: seq<byte>, m3: seq<byte>, m4: seq<byte>, h: nat,
                   t: map<nat, nat>, links: map<nat, nat>, l: seq<nat>, k: nat, size: nat)
    requires Good(m0, h, t, links, l) && k < |l| && l[k] in t && size + MIN_BLOCK <= t[l[k]]
    requires Wrote32(m0, m1, l[k] + size, t[l[k]] - size) && Wrote32(m1, m2, l[k], size)
    requires Wrote32(m2, m3, l[k] + size + 4, At(l, k + 1)) && Relinked(m3, m4, l, k, l[k] + size)
    ensures Kept(m0, m4, t, t.Keys - links.Keys)
  {
    var o := l[k];
    var live := t.Keys - links.Keys;
    hide *;
    SlotFacts(m0, h, t, links, l, k);
    ThreeWritesKeep(m0, m1, m2, m3, t, live, o, o + size, t[o] - size, o, o, size, o + size + 4, At(l, k + 1));
    RelinkKeeps(m3, m4, t, live, l, k, o + size);
    KeptTransitive(m0, m3, m4, t, live);
  }

  /** A live block takes `delta` bytes from the free block l[k] right behind it, which moves up. */
  lemma ShiftStep(m0: seq<byte>, m1: seq<byte>, m2: seq<byte>, m3: seq<byte>, m4: seq<byte>, h: nat,
                  t: map<nat, nat>, links: map<nat, nat>, l: seq<nat>, k: nat, o: nat, delta: nat)
    requires Good(m0, h, t, links, l) && k < |l| && l[k] in t && o in t && o !in links
    requires o + t[o] == l[k] && 0 < delta && delta + MIN_BLOCK <= t[l[k]]
    requires Wrote32(m0, m1, l[k] + delta, t[l[k]] - delta) && Wrote32(m1, m2, o, t[o] + delta)
    requires Wrote32(m2, m3, l[k] + delta + 4, At(l, k + 1)) && Relinked(m3, m4, l, k, l[k] + delta)
    ensures var q := l[k] + delta;
            Good(m4, NewHead(h, k, q), Shift(t, o, l[k], delta), Relink((links - {l[k]})[q := At(l, k + 1)], l, k, q),
                 l[k := q])
  {
    hide Word, Tiling, Encodes, Wrote32, Chain, Relinked;
    var p := l[k];
    var q := p + delta;
    Listed(m0, h, t, links, l, k);
    ShiftTiling(t, |m0|, o, p, delta);
    NotListed(m0, h, t, links, l, q);
    ShiftEncodes(m0, m1, m2, t, links, o, p, delta);
    ReplaceEncodes(m2, m3, m4, Shift(t, o, p, delta), links, l, k, q);
    ChainReplace(h, links, l, k, q);
  }

  lemma ShiftEncodes(m0: seq<byte>, m1: seq<byte>, m2: seq<byte>, t: map<nat, nat>, links: map<nat, nat>, o: nat,
                     p: nat, delta: nat)
    requires Encodes(m0, t, links) && Tiling(t, |m0|) && o in t && o + t[o] == p && p in t
    requires 0 < delta && delta + MIN_BLOCK <= t[p]
    requires Wrote32(m0, m1, p + delta, t[p] - delta) && Wrote32(m1, m2, o, t[o] + delta)
    ensures Encodes(m2, Shift(t, o, p, delta), links - {p}) && |m2| == |m0|
  {
    hide *;
    ShiftApart(t, |m0|, o, p, delta);
    DropBlock(m0, t, links, p);
    ShiftKeys(t, o, p, delta);
    TwoSizeWrites(m0, m1, m2, t - {p}, links - {p}, p + delta, t[p] - delta, o, t[o] + delta);
  }

  lemma ShiftApart(t: map<nat, nat>, n: nat, o: nat, p: nat, delta: nat)
    requires Tiling(t, n) && o in t && o + t[o] == p && p in t && 0 < delta && delta + MIN_BLOCK <= t[p]
    ensures Apart((t - {p}).Keys + {p + delta}, n) && p != o && o < p && delta <= t[p]
  {
    ShiftTiling(t, n, o, p, delta);
    TilingApart(Shift(t, o, p, delta), n);
    ShiftKeys(t, o, p, delta);
  }

  lemma TwoSizeWrites(m0: seq<byte>, m1: seq<byte>, m2: seq<byte>, t: map<nat, nat>, links: map<nat, nat>,
                      q: nat, v: nat, o: nat, w: nat)
    requires Encodes(m0, t, links) && o in t && Apart(t.Keys + {q}, |m0|)
    requires Wrote32(m0, m1, q, v) && Wrote32(m1, m2, o, w)
    ensures Encodes(m2, t[q := v][o := w], links) && |m2| == |m0|
  {
    hide Word, Apart, Encodes, Wrote32, Read32;
    WriteSize(m0, m1, t, links, q, v);
    assert t[q := v].Keys + {o} == t.Keys + {q};
    SameLength(m0, m1, q, v);
    SameLength(m1, m2, o, w);
    WriteSize(m1, m2, t[q := v], links, o, w);
  }

  /** All four writes stay inside the free block, apart from the size of the live one. */
  lemma ShiftKeeps(m0: seq<byte>, m1: seq<byte>, m2: seq<byte>, m3: seq<byte>, m4: seq<byte>, h: nat,
                   t: map<nat, nat>, links: map<nat, nat>, l: seq<nat>, k: nat, o: nat, delta: nat)
    requires Good(m0, h, t, links, l) && k < |l| && l[k] in t && o in t
    requires delta + MIN_BLOCK <= t[l[k]]
    requires Wrote32(m0, m1, l[k] + delta, t[l[k]] - delta) && Wrote32(m1, m2, o, t[o] + delta)
    requires Wrote32(m2, m3, l[k] + delta + 4, At(l, k + 1)) && Relinked(m3, m4, l, k, l[k] + delta)
    ensures Kept(m0, m4, t, t.Keys - links.Keys)
  {
    hide *;
    var p := l[k];
    var live := t.Keys - links.Keys;
    SlotFacts(m0, h, t, links, l, k);
    SlotSize(m0, h, t, links, l, o);
    ThreeWritesKeep(m0, m1, m2, m3, t, live, p, p + delta, t[p] - delta, o, o, t[o] + delta, p + delta + 4,
                    At(l, k + 1));
    RelinkKeeps(m3, m4, t, live, l, k, p + delta);
    KeptTransitive(m0, m3, m4, t, live);
  }

  lemma ShiftFacts(m: seq<byte>, h: nat, t: map<nat, nat>, links: map<nat, nat>, l: seq<nat>, k: nat, o: nat,
                   delta: nat)
    requires Good(m, h, t, links, l) && k < |l| && l[k] in t && o in t && o !in links
    requires o + t[o] == l[k] && 0 < delta && delta + MIN_BLOCK <= t[l[k]]
    ensures var q := l[k] + delta;
            var t' := Shift(t, o, l[k], delta);
            && t'.Keys - Relink((links - {l[k]})[q := At(l, k + 1)], l, k, q).Keys == t.Keys - links.Keys
            && o in t' && t'[o] == t[o] + delta
            && forall x :: x in t && x !in links && x != o ==> x in t' && t'[x] == t[x]
  {
    hide Word;
    var p := l[k];
    var q := p + delta;
    ShiftTiling(t, |m|, o, p, delta);
    Listed(m, h, t, links, l, k);
    if k > 0 { Listed(m, h, t, links, l, k - 1); }
    assert o < p && links.Keys <= t.Keys;
    ReplacedKeys(t, links, l, k, o, delta);
  }

  /** The live blocks after the boundary between `o` and the free block l[k] moved. */
  lemma ReplacedKeys(t: map<nat, nat>, links: map<nat, nat>, l: seq<nat>, k: nat, o: nat, delta: nat)
    requires k < |l| && l[k] in t && l[k] in links && links.Keys <= t.Keys && o in t && o !in links && o < l[k]
    requires k > 0 ==> l[k - 1] in links && l[k - 1] != l[k]
    requires o + t[o] == l[k] && 0 < delta <= t[l[k]] && l[k] + delta !in t
    ensures var q := l[k] + delta;
            var t' := Shift(t, o, l[k], delta);
            && t'.Keys - Relink((links - {l[k]})[q := At(l, k + 1)], l, k, q).Keys == t.Keys - links.Keys
            && o in t' && t'[o] == t[o] + delta
            && forall x :: x in t && x !in links && x != o ==> x in t' && t'[x] == t[x]
  {
    hide Shift;
    var p := l[k];
    var q := p + delta;
    ShiftKeys(t, o, p, delta);
    var links' := (links - {p})[q := At(l, k + 1)];
    RelinkKeys(links', l, k, q);
    assert links'.Keys == links.Keys - {p} + {q};
  }

  lemma SwallowFacts(m: seq<byte>, h: nat, t: map<nat, nat>, links: map<nat, nat>, l: seq<nat>, k: nat, o: nat)
    requires Good(m, h, t, links, l) && k < |l| && l[k] in t && o in t && o !in links
    ensures var t' := Merge(t, o, l[k]);
            && t'.Keys - (Relink(links, l, k, At(l, k + 1)) - {l[k]}).Keys == t.Keys - links.Keys
            && o in t' && t'[o] == t[o] + t[l[k]]
            && forall x :: x in t && x !in links && x != o ==> x in t' && t'[x] == t[x]
  {
    hide Word, Good, Tiling, Chain, Encodes;
    SlotFacts(m, h, t, links, l, k);
    RelinkKeys(links, l, k, At(l, k + 1));
  }

  /** A live block swallows the whole free block l[k] right behind it. */
  lemma SwallowStep(m0: seq<byte>, m1: seq<byte>, m2: seq<byte>, h: nat, t: map<nat, nat>, links: map<nat, nat>,
                    l: seq<nat>, k: nat, o: nat)
    requires Good(m0, h, t, links, l) && k < |l| && l[k] in t && o in t && o !in links && o + t[o] == l[k]
    requires Relinked(m0, m1, l, k, At(l, k + 1)) && Wrote32(m1, m2, o, t[o] + t[l[k]])
    ensures Good(m2, NewHead(h, k, At(l, k + 1)), Merge(t, o, l[k]), Relink(links, l, k, At(l, k + 1)) - {l[k]},
                 Without(l, k))
  {
    hide Word;
    RelinkEncodes(m0, m1, t, links, l, k, At(l, k + 1));
    MergeEncodes(m1, m2, t, Relink(links, l, k, At(l, k + 1)), o, l[k]);
    MergeTiling(t, |m0|, o, l[k]);
    ChainWithout(h, links, l, k);
  }

  lemma SwallowKeeps(m0: seq<byte>, m1: seq<byte>, m2: seq<byte>, h: nat, t: map<nat, nat>, links: map<nat, nat>,
                     l: seq<nat>, k: nat, o: nat)
    requires Good(m0, h, t, links, l) && k < |l| && l[k] in t && o in t && o !in links
    requires Relinked(m0, m1, l, k, At(l, k + 1)) && Wrote32(m1, m2, o, t[o] + t[l[k]])
    ensures Kept(m0, m2, t, t.Keys - links.Keys)
  {
    hide Word;
    var live := t.Keys - links.Keys;
    RelinkKeeps(m0, m1, t, live, l, k, At(l, k + 1));
    WriteKeeps(m1, m2, t, live, o, o, t[o] + t[l[k]]);
    KeptTransitive(m0, m1, m2, t, live);
  }

  /** The region grows and the last block, a free one, with it. */
  lemma GrowStep(m0: seq<byte>, m1: seq<byte>, m2: seq<byte>, h: nat, t: map<nat, nat>, links: map<nat, nat>,
                 l: seq<nat>, o: nat, more: nat)
    requires Good(m0, h, t, links, l) && o in t && o + t[o] == |m0|
    requires m0 <= m1 && |m1| == |m0| + more < NIL
    requires Wrote32(m1, m2, o, t[o] + more)
    ensures Good(m2, h, t[o := t[o] + more], links, l)
  {
    hide Word;
    GrowTiling(t, |m0|, o, more);
    GrownEncodes(m0, m1, t, links);
    assert t.Keys + {o} == t.Keys;
    WriteSize(m1, m2, t, links, o, t[o] + more);
  }

  lemma GrowKeeps(m0: seq<byte>, m1: seq<byte>, m2: seq<byte>, h: nat, t: map<nat, nat>, links: map<nat, nat>,
                  l: seq<nat>, o: nat, more: nat)
    requires Good(m0, h, t, links, l) && o in links && o in t && m0 <= m1 && Wrote32(m1, m2, o, t[o] + more)
    ensures Kept(m0, m2, t[o := t[o] + more], t[o := t[o] + more].Keys - links.Keys)
  {
    hide Word;
    assert forall b :: 0 <= b < |m0| ==> m1[b] == m0[b];
  }

  lemma GrownEncodes(m0: seq<byte>, m1: seq<byte>, t: map<nat, nat>, links: map<nat, nat>)
    requires Encodes(m0, t, links) && m0 <= m1
    ensures Encodes(m1, t, links)
  {
    hide Word;
    forall o | o in t ensures Read32(m1, o) == t[o] { assert Read32(m1, o) == Read32(m0, o); }
    forall o | o in links ensures Read32(m1, o + 4) == links[o] { assert Read32(m1, o + 4) == Read32(m0, o + 4); }
  }

  /** The last block of the free list is the last block of the region. */
  ghost predicate LastIsFree(n: nat, t: map<nat, nat>, l: seq<nat>) {
    l != [] && l[|l| - 1] in t && l[|l| - 1] + t[l[|l| - 1]] == n
  }

  /** The live blocks and their sizes. */
  ghost function LiveBlocks(t: map<nat, nat>, links: map<nat, nat>): map<nat, nat> {
    t - links.Keys
  }

  lemma SameLiveBlocks(t: map<nat, nat>, links: map<nat, nat>, t': map<nat, nat>, links': map<nat, nat>)
    requires LiveBlocks(t, links) == LiveBlocks(t', links')
    ensures t.Keys - links.Keys == t'.Keys - links'.Keys
    ensures forall o :: o in t && o !in links ==> o in t' && t'[o] == t[o]
  {
    assert forall o :: o in LiveBlocks(t, links) <==> o in t && o !in links;
    assert forall o :: o in LiveBlocks(t', links') <==> o in t' && o !in links';
  }

  /** Some reading of the region's free list, together with the blocks `live`, tiles the region. */
  ghost predicate Tileable(m: seq<byte>, h: nat, live: map<nat, nat>) {
    exists t, links, l :: Good(m, h, t, links, l) && LiveBlocks(t, links) == live
  }

  /** A list that starts at the one block whose link is NIL has no other block. */
  lemma SingletonChain(m: seq<byte>, h: nat, t: map<nat, nat>, links: map<nat, nat>, l: seq<nat>)
    requires Good(m, h, t, links, l) && h + MIN_BLOCK <= |m| && Read32(m, h + 4) == NIL
    ensures links.Keys == {h} && h in t && t[h] == Read32(m, h)
  {
    hide Word;
    assert l != [] && l[0] == h;
    Listed(m, h, t, links, l, 0);
    if |l| > 1 { Listed(m, h, t, links, l, 1); }
    assert |l| == 1;
    assert forall o :: o in links <==> o in l;
  }

  /** A block placed over the last word of the old region overlaps the block that ends there, or
      leaves that block out of the list: no reading of the result tiles the region. */
  lemma MisplacedBlockBreaks(m0: seq<byte>, h0: nat, t0: map<nat, nat>, links0: map<nat, nat>, l0: seq<nat>,
                             m: seq<byte>, t: map<nat, nat>, links: map<nat, nat>, l: seq<nat>)
    requires Good(m0, h0, t0, links0, l0) && !LastIsFree(|m0|, t0, l0)
    requires |m| >= |m0| + 4 && Read32(m, |m0|) == NIL
    requires Good(m, |m0| - 4, t, links, l)
    ensures LiveBlocks(t, links) != LiveBlocks(t0, links0)
  {
    RegionSize(m0, h0, t0, links0, l0);
    SingletonChain(m, |m0| - 4, t, links, l);
    hide *;
    GoodTiling(m0, h0, t0, links0, l0);
    GoodTiling(m, |m0| - 4, t, links, l);
    LiveBlocksDiffer(|m0|, t0, links0, |m|, t, links);
  }

  /** Blocks that tile n bytes, and blocks that tile more with a free block at n - 4 and no other before n: they
      do not have the same live blocks. */
  lemma LiveBlocksDiffer(n: nat, t0: map<nat, nat>, links0: map<nat, nat>, m: nat, t: map<nat, nat>,
                         links: map<nat, nat>)
    requires Tiling(t0, n) && Tiling(t, m) && n <= m && n >= 8 && n - 4 in t && links.Keys == {n - 4}
    ensures LiveBlocks(t, links) != LiveBlocks(t0, links0)
  {
    hide Tiling;
    var last: nat := LastBlock(t0, n);
    BlockFacts(t0, n, last);
    var live, live' := LiveBlocks(t0, links0), LiveBlocks(t, links);
    if last !in links0 {
      if last in t { Neighbour(t, m, last, n - 4); }
      assert last in live && live[last] == t0[last];
    } else {
      var c := CoverDiffers(t0, n, last, t, m);
      assert c in live' && (c in live ==> c in t0 && live[c] == t0[c]);
    }
  }

  lemma RegionSize(m: seq<byte>, h: nat, t: map<nat, nat>, links: map<nat, nat>, l: seq<nat>)
    requires Good(m, h, t, links, l)
    ensures |m| >= MIN_BLOCK
  {
    hide Word;
  }

  lemma GoodTiling(m: seq<byte>, h: nat, t: map<nat, nat>, links: map<nat, nat>, l: seq<nat>)
    requires Good(m, h, t, links, l)
    ensures Tiling(t, |m|)
  {}

  lemma MisplacedBlockUntileable(m0: seq<byte>, h0: nat, t0: map<nat, nat>, links0: map<nat, nat>, l0: seq<nat>,
                                 m: seq<byte>, h: nat)
    requires Good(m0, h0, t0, links0, l0) && !LastIsFree(|m0|, t0, l0)
    requires |m| >= |m0| + 4 && h == |m0| - 4 && Read32(m, |m0|) == NIL
    ensures !Tileable(m, h, LiveBlocks(t0, links0))
  {
    hide Word;
    forall t, links, l | Good(m, h, t, links, l)
      ensures LiveBlocks(t, links) != LiveBlocks(t0, links0)
    {
      MisplacedBlockBreaks(m0, h0, t0, links0, l0, m, t, links, l);
    }
  }

  /** Some tiling has the blocks `live` and one more at o. */
  ghost predicate TileableWith(m: seq<byte>, h: nat, live: map<nat, nat>, o: nat) {
    exists t, links, l :: Good(m, h, t, links, l) && o in t && LiveBlocks(t, links) == live[o := t[o]]
  }

  /** The list that is left when the misplaced block was handed out has no block in the old region. */
  lemma OnlyBehind(n: nat, m: seq<byte>, h: nat, t: map<nat, nat>, links: map<nat, nat>, l: seq<nat>)
    requires Good(m, h, t, links, l)
    requires h == NIL || (n <= h && h + MIN_BLOCK <= |m| && Read32(m, h + 4) == NIL)
    ensures forall o :: o in links ==> n <= o
  {
    hide Word;
    if h == NIL {
      if l != [] { Listed(m, h, t, links, l, 0); }
    } else {
      SingletonChain(m, h, t, links, l);
    }
  }

  /** Nor does any reading tile the region once the misplaced block has been handed out. */
  lemma HandedOutBreaks(m0: seq<byte>, h0: nat, t0: map<nat, nat>, links0: map<nat, nat>, l0: seq<nat>,
                        m: seq<byte>, h: nat, t: map<nat, nat>, links: map<nat, nat>, l: seq<nat>)
    requires Good(m0, h0, t0, links0, l0) && !LastIsFree(|m0|, t0, l0) && Good(m, h, t, links, l)
    requires 8 <= |m0| <= |m| && |m0| - 4 in t && forall o :: o in links ==> |m0| <= o
    ensures LiveBlocks(t, links) != LiveBlocks(t0, links0)[|m0| - 4 := t[|m0| - 4]]
  {
    hide Good, Tiling, LastIsFree;
    GoodTiling(m0, h0, t0, links0, l0);
    GoodTiling(m, h, t, links, l);
    var n := |m0|;
    var last: nat := LastBlock(t0, n);
    BlockFacts(t0, n, last);
    var live := LiveBlocks(t0, links0)[n - 4 := t[n - 4]];
    if last !in links0 {
      if last in t { Neighbour(t, |m|, last, n - 4); }
      assert last in live && live[last] == t0[last];
    } else {
      var c := CoverDiffers(t0, n, last, t, |m|);
      assert c in LiveBlocks(t, links);
      assert c in live ==> c in t0 && live[c] == t0[c];
    }
  }

  lemma MisplacedBlockSpoils(m0: seq<byte>, h0: nat, t0: map<nat, nat>, links0: map<nat, nat>, l0: seq<nat>,
                             m: seq<byte>, h: nat)
    requires Good(m0, h0, t0, links0, l0) && !LastIsFree(|m0|, t0, l0) && 8 <= |m0| <= |m|
    requires h == NIL || (|m0| <= h && h + MIN_BLOCK <= |m| && Read32(m, h + 4) == NIL)
    ensures !TileableWith(m, h, LiveBlocks(t0, links0), |m0| - 4)
  {
    hide Word, Good, LiveBlocks, LastIsFree, Read32;
    forall t, links, l | Good(m, h, t, links, l) && |m0| - 4 in t
      ensures LiveBlocks(t, links) != LiveBlocks(t0, links0)[|m0| - 4 := t[|m0| - 4]]
    {
      OnlyBehind(|m0|, m, h, t, links, l);
      HandedOutBreaks(m0, h0, t0, links0, l0, m, h, t, links, l);
    }
  }

  /** A region of eight bytes that is one live block cannot be enlarged: whatever the new bytes are, with
      the new block at offset 4 and the list starting there, they do not describe the one live block. */
  lemma FullRegionUntileable(m: seq<byte>)
    requires |m| >= 12 && Read32(m, 8) == NIL
    ensures !Tileable(m, 4, map[0 := 8])
  {
    var m0: seq<byte> := [8, 0, 0, 0, 0, 0, 0, 0];
    var t: map<nat, nat> := map[0 := 8];
    assert Good(m0, NIL, t, map[], []) by {
      assert Read32(m0, 0) == 8;
      assert Tiling(t, 8);
    }
    assert LiveBlocks(t, map[]) == t;
    MisplacedBlockUntileable(m0, NIL, t, map[], [], m, 4);
  }

  /** Only the bytes from `from` to `to` may differ. */
  ghost predicate ChangedWithin(m0: seq<byte>, m1: seq<byte>, from: nat, to: nat) {
    |m1| == |m0| && forall b :: 0 <= b < |m0| && (b < from || to <= b) ==> m1[b] == m0[b]
  }

  /** Filling the payload of a live block changes neither the encoding nor another payload. */
  lemma PayloadEncodes(m0: seq<byte>, m1: seq<byte>, h: nat, t: map<nat, nat>, links: map<nat, nat>, l: seq<nat>,
                       o: nat)
    requires Good(m0, h, t, links, l) && o in t && o !in links
    requires ChangedWithin(m0, m1, o + HEADER, o + t[o])
    ensures Good(m1, h, t, links, l)
  {
    hide Word;
    forall p | p in t ensures Read32(m1, p) == Read32(m0, p) { }
    forall p | p in links ensures Read32(m1, p + 4) == Read32(m0, p + 4) { assert p in t && p != o; }
  }

  lemma PayloadKeeps(m0: seq<byte>, m1: seq<byte>, h: nat, t: map<nat, nat>, links: map<nat, nat>, l: seq<nat>, o: nat)
    requires Good(m0, h, t, links, l) && o in t
    requires ChangedWithin(m0, m1, o + HEADER, o + t[o])
    ensures Kept(m0, m1, t, t.Keys - links.Keys - {o})
  {
    hide Word;
  }

  /** `count` bytes of `m0` from `from` on are at `to` in `m1`. */
  ghost predicate CopiedBytes(m0: seq<byte>, m1: seq<byte>, from: nat, to: nat, count: int) {
    && 0 <= count && from + count <= |m0| && to + count <= |m1|
    && m1[to..to + count] == m0[from..from + count]
  }

  /** A payload that was kept is copied in place. */
  lemma KeptIsCopied(m0: seq<byte>, m1: seq<byte>, t: map<nat, nat>, live: set<nat>, o: nat)
    requires Kept(m0, m1, t, live) && o in live && o in t && t[o] >= HEADER
    ensures CopiedBytes(m0, m1, o + HEADER, o + HEADER, t[o] - HEADER)
  {
    assert SameBytes(m0, m1, o + HEADER, o + t[o]);
    assert m1[o + HEADER..o + t[o]] == m0[o + HEADER..o + t[o]];
  }

  lemma CopiedThenKept(m0: seq<byte>, m1: seq<byte>, m2: seq<byte>, from: nat, to: nat, count: nat, t: map<nat, nat>,
                       live: set<nat>)
    requires CopiedBytes(m0, m1, from, to, count) && to >= HEADER
    requires to - HEADER in live && to - HEADER in t && count + HEADER <= t[to - HEADER]
    requires Kept(m1, m2, t, live)
    ensures CopiedBytes(m0, m2, from, to, count)
  {
    assert SameBytes(m1, m2, to, to - HEADER + t[to - HEADER]);
    assert m2[to..to + count] == m1[to..to + count];
  }

  /** Copying a payload, when the source was kept before and the target after. */
  lemma CopyBetween(m0: seq<byte>, m1: seq<byte>, m2: seq<byte>, m3: seq<byte>, t0: map<nat, nat>, live0: set<nat>,
                    t3: map<nat, nat>, live3: set<nat>, o: nat, r: nat)
    requires Kept(m0, m1, t0, live0) && o in live0 && o in t0 && HEADER <= t0[o]
    requires CopiedBytes(m1, m2, o + HEADER, r + HEADER, t0[o] - HEADER)
    requires Kept(m2, m3, t3, live3) && r in live3 && r in t3 && t0[o] <= t3[r]
    ensures CopiedBytes(m0, m3, o + HEADER, r + HEADER, t0[o] - HEADER)
  {
    KeptIsCopied(m0, m1, t0, live0, o);
    var count := t0[o] - HEADER;
    assert m2[r + HEADER..r + HEADER + count] == m0[o + HEADER..o + HEADER + count];
    CopiedThenKept(m0, m2, m3, o + HEADER, r + HEADER, count, t3, live3);
  }

  lemma KeptThrice(m0: seq<byte>, m1: seq<byte>, m2: seq<byte>, m3: seq<byte>, t: map<nat, nat>, live: set<nat>)
    requires Kept(m0, m1, t, live) && Kept(m1, m2, t, live) && Kept(m2, m3, t, live)
    ensures Kept(m0, m3, t, live)
  {
    KeptTransitive(m0, m1, m2, t, live);
    KeptTransitive(m0, m2, m3, t, live);
  }
}
