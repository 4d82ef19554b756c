/** memory/dynamic_pool.c: first-fit allocation from a byte region whose free blocks are threaded on a
    singly linked list.  Offsets and sizes are in bytes, relative to the start of the data. */
module DynPools {
  import opened Tilings
  import opened DynLayouts
  import opened DynSpoils

  const POOL_HEADER := 12   // total_size counts the pool's own header, less one word

  class DynPool {
    var mem: array<byte>      // the data of the pool
    var freeOffset: nat       // the first free block, NIL when there is none
    ghost var tiles: map<nat, nat>   // every block and its size
    ghost var links: map<nat, nat>   // every free block and its link
    ghost var fl: seq<nat>           // the free list in order

    ghost predicate Valid()
      reads this, mem
    {
      Good(mem[..], freeOffset, tiles, links, fl)
    }

    ghost function Live(): set<nat>
      reads this
    {
      tiles.Keys - links.Keys
    }

    function Get(o: nat): int
      requires o + 4 <= mem.Length
      reads `mem, mem
    {
      Word(mem[o], mem[o + 1], mem[o + 2], mem[o + 3])
    }

    method Put(o: nat, v: nat)
      requires o + 4 <= mem.Length && v < 0x1_0000_0000
      modifies mem
      ensures Wrote32(old(mem[..]), mem[..], o, v)
    {
      var v1 := v / 0x100;
      var v2 := v1 / 0x100;
      mem[o], mem[o + 1], mem[o + 2], mem[o + 3] := v % 0x100, v1 % 0x100, v2 % 0x100, v2 / 0x100;
    }

    /** What the header of a block says. */
    lemma SizeAt(o: nat)
      requires Valid() && o in tiles
      ensures o + MIN_BLOCK <= o + tiles[o] <= mem.Length < NIL
      ensures Get(o) == tiles[o]
    {
      hide Good, Word;
      BlockReads(mem[..], freeOffset, tiles, links, fl, o);
      GetIs(o);
    }

    lemma GetIs(o: nat)
      requires o + 4 <= mem.Length
      ensures Get(o) == Read32(mem[..], o)
    {
      hide Word;
    }

    lemma FreeBlockAt(k: nat)
      requires Valid() && k < |fl|
      ensures fl[k] in tiles && fl[k] in links && fl[k] + MIN_BLOCK <= fl[k] + tiles[fl[k]] <= mem.Length < NIL
      ensures Get(fl[k]) == tiles[fl[k]] && GoodNode(k)
    {
      hide Good, Get, Read32;
      SlotReads(mem[..], freeOffset, tiles, links, fl, k);
      GetIs(fl[k]);
      GetIs(fl[k] + 4);
    }

    /** The k-th free block can be read and leads to the next one. */
    ghost predicate GoodNode(k: nat)
      reads this, mem
    {
      && k < |fl|
      && fl[k] + MIN_BLOCK <= mem.Length < NIL
      && MIN_BLOCK <= Get(fl[k]) && fl[k] + Get(fl[k]) <= mem.Length
      && Get(fl[k] + 4) == At(fl, k + 1)
      && (At(fl, k + 1) == NIL <==> k + 1 == |fl|)
    }

    /** What walking the free list relies on. */
    ghost predicate Walkable()
      reads this, mem
    {
      && freeOffset == First(fl)
      && (fl != [] ==> freeOffset != NIL)
      && forall k: nat :: k < |fl| ==> GoodNode(k)
    }

    lemma ValidWalkable()
      requires Valid()
      ensures Walkable()
    {
      forall k: nat | k < |fl| ensures GoodNode(k) { FreeBlockAt(k); }
      if fl != [] { FreeBlockAt(0); }
    }

    /** dyn_pool_init: one free block. */
    constructor (size: nat)
      requires MIN_BLOCK <= size < NIL
      ensures Valid() && fresh(mem) && mem.Length == size
      ensures tiles == map[0 := size] && fl == [0] && Live() == {}
    {
      hide Good, Wrote32;
      mem := new byte[size](_ => 0);
      freeOffset := 0;
      tiles, links, fl := map[0 := size], map[0 := NIL], [0];
      new;
      ghost var m0 := mem[..];
      Put(0, size);
      ghost var m1 := mem[..];
      Put(4, NIL);
      OneFreeBlock(m0, m1, mem[..]);
    }

    /** Where the walk of find_adjacent_blocks stops. */
    ghost predicate WalkedTo(alloc: nat, k: nat)
      reads this
    {
      && k < |fl| && (alloc <= fl[k] || k == |fl| - 1)
      && forall j :: 0 <= j < k ==> fl[j] < alloc
    }

    /** find_adjacent_blocks: walks the list until it passes `alloc` or reaches the last free block,
        whichever comes first; so `next` may lie before `alloc`.  NIL stands for NULL. */
    method FindAdjacent(alloc: nat) returns (previous: nat, next: nat, ghost k: nat)
      requires Walkable()
      ensures k <= |fl| && next == At(fl, k) && (fl != [] ==> k < |fl|)
      ensures previous == At(fl, k - 1)
      ensures k < |fl| ==> WalkedTo(alloc, k)
      ensures next == NIL <==> fl == []
      ensures previous != NIL ==> previous in fl && previous < alloc
    {
      previous, next, k := NIL, freeOffset, 0;
      if next != NIL {
        assert GoodNode(0);
        while next < alloc && Get(next + 4) != NIL
          invariant GoodNode(k) && next == fl[k]
          invariant previous == At(fl, k - 1)
          invariant forall j :: 0 <= j < k ==> fl[j] < alloc
          decreases |fl| - k
        {
          assert GoodNode(k + 1);
          previous, next, k := next, Get(next + 4), k + 1;
        }
      }
    }

    /** Makes position k of the list lead to v; `previous` is the block before it or NULL. */
    method SetLink(previous: nat, v: nat, ghost k: nat)
      requires k <= |fl| && v <= NIL && previous == At(fl, k - 1)
      requires k > 0 ==> previous < NIL && previous + 8 <= mem.Length
      modifies this`freeOffset, mem
      ensures Relinked(old(mem[..]), mem[..], fl, k, v) && freeOffset == NewHead(old(freeOffset), k, v)
    {
      if previous == NIL {
        freeOffset := v;
      } else {
        Put(previous + 4, v);
      }
    }

    /** dyn_pool_free: the block is merged into the free block that the walk found before it, if that
        one ends where the block starts; otherwise it goes on the list between the two blocks found.
        The source's attempt to merge with the block after it is guarded by a condition that no
        address satisfies, so nothing is merged forward. */
    method Free(offset: nat)
      requires Valid() && offset in Live()
      modifies this`freeOffset, this`tiles, this`links, this`fl, mem
      ensures Valid()
      ensures Live() == old(Live()) - {offset}
      ensures forall o :: o in Live() ==> tiles[o] == old(tiles)[o]
      ensures Kept(old(mem[..]), mem[..], tiles, Live())
      ensures exists k: nat :: StopsAt(old(fl), offset, k) && FreedAt(old(tiles), old(fl), offset, k)
    {
      FreeAs(offset, true);
    }

    /** Where the walk of find_adjacent_blocks stops on a list. */
    static ghost predicate StopsAt(l: seq<nat>, offset: nat, k: nat) {
      && (l == [] ==> k == 0) && (l != [] ==> k < |l| && (offset <= l[k] || k == |l| - 1))
      && forall j :: 0 <= j < k < |l| ==> l[j] < offset
    }

    /** The block was added to the free block before place k of the list if that one ends where the block starts,
        and is at place k of the list itself otherwise. */
    ghost predicate FreedAt(t0: map<nat, nat>, l0: seq<nat>, offset: nat, k: nat)
      reads this
    {
      && k <= |l0| && offset in t0 && (k > 0 ==> l0[k - 1] in t0)
      && if k > 0 && l0[k - 1] + t0[l0[k - 1]] == offset
         then fl == l0 && tiles == (t0 - {offset})[l0[k - 1] := t0[l0[k - 1]] + t0[offset]]
         else tiles == t0 && fl == l0[..k] + [offset] + l0[k..]
    }

    /** The same on any pool with a list that can be walked: where the list has no block before the freed one,
        that becomes its head. */
    method FreeAs(offset: nat, ghost good: bool)
      requires good ==> Valid() && offset in Live()
      requires !good ==> offset + MIN_BLOCK <= mem.Length && ShortList(mem[..], freeOffset, fl, offset)
      modifies this`freeOffset, this`tiles, this`links, this`fl, mem
      ensures good ==> Valid() && Live() == old(Live()) - {offset}
      ensures good ==> forall o :: o in Live() ==> tiles[o] == old(tiles)[o]
      ensures good ==> Kept(old(mem[..]), mem[..], tiles, Live())
      ensures good ==> exists k: nat :: StopsAt(old(fl), offset, k) && FreedAt(old(tiles), old(fl), offset, k)
      ensures !good ==> freeOffset == offset && Wrote32(old(mem[..]), mem[..], offset + 4, old(freeOffset))
    {
      hide Word, Walkable, Kept, Tiling, Encodes, Chain, ShortList, Wrote32;
      if good {
        ValidWalkable();
        SizeAt(offset);
      } else {
        ShortWalkable(offset);
      }
      var previous, next, k := FindAdjacent(offset);
      if good && k > 0 { FreeBlockAt(k - 1); }
      if good && k < |fl| { FreeBlockAt(k); }
      ghost var t, live, m, l := tiles, Live() - {offset}, mem[..], fl;
      hide Good;
      if previous != NIL && previous + Get(previous) == offset {
        MergeIntoPrevious(offset, previous, next, k);
        assert Live() == live == t.Keys - links.Keys - {offset};
      } else {
        PutOnList(offset, previous, next, k, good);
        assert good ==> Live() == live;
      }
      if good {
        KeptFewer(m, mem[..], t, live, tiles, live);
        assert StopsAt(l, offset, k) && FreedAt(t, l, offset, k);
      }
    }

    lemma ShortWalkable(from: nat)
      requires ShortList(mem[..], freeOffset, fl, from)
      ensures Walkable() && |fl| <= 1 && At(fl, 0) == freeOffset <= NIL && mem.Length < NIL
    {
      hide Word;
      if fl != [] {
        GetIs(fl[0]);
        GetIs(fl[0] + 4);
        assert GoodNode(0);
      }
    }

    method MergeIntoPrevious(offset: nat, previous: nat, next: nat, ghost k: nat)
      requires Good(mem[..], freeOffset, tiles, links, fl)
      requires offset in tiles && offset !in links && offset + 4 <= mem.Length && Get(offset) == tiles[offset]
      requires 0 < k <= |fl| && next == At(fl, k) && next < 0x1_0000_0000
      requires previous == fl[k - 1] && previous in tiles && previous in links && previous + 8 <= mem.Length
      requires previous + tiles[previous] == offset && Get(previous) == tiles[previous]
      requires tiles[previous] + tiles[offset] < 0x1_0000_0000
      modifies this`tiles, mem
      ensures Good(mem[..], freeOffset, tiles, links, fl)
      ensures tiles == (old(tiles) - {offset})[previous := old(tiles)[previous] + old(tiles)[offset]]
      ensures Kept(old(mem[..]), mem[..], old(tiles), old(tiles).Keys - links.Keys - {offset})
    {
      hide *;
      ghost var t, m0 := tiles, mem[..];
      Put(previous, Get(previous) + Get(offset));
      ghost var m1 := mem[..];
      Put(previous + 4, next);
      MergeStep(m0, m1, mem[..], freeOffset, t, links, fl, k, offset);
      MergeKeeps(m0, m1, mem[..], freeOffset, t, links, fl, k, offset);
      MergeIs(t, previous, offset);
      tiles := Merge(t, previous, offset);
    }

    static lemma MergeIs(t: map<nat, nat>, o: nat, p: nat)
      requires o in t && p in t && o != p
      ensures Merge(t, o, p) == (t - {p})[o := t[o] + t[p]]
    {}

    method PutOnList(offset: nat, previous: nat, next: nat, ghost k: nat, ghost good: bool)
      requires good ==> Good(mem[..], freeOffset, tiles, links, fl) && offset in tiles && offset !in links
      requires offset + 8 <= mem.Length && next < 0x1_0000_0000 && offset < NIL
      requires k <= |fl| && previous == At(fl, k - 1) && next == At(fl, k)
      requires k > 0 ==> previous == fl[k - 1] < NIL && previous + 8 <= mem.Length
      requires good && k > 0 ==> previous in links
      modifies this`freeOffset, this`links, this`fl, mem
      ensures good ==> Good(mem[..], freeOffset, tiles, links, fl)
      ensures good ==> links.Keys == old(links).Keys + {offset}
      ensures good ==> Kept(old(mem[..]), mem[..], tiles, tiles.Keys - old(links).Keys - {offset})
      ensures fl == Insert(old(fl), k, offset)
      ensures k == 0 ==> freeOffset == offset && Wrote32(old(mem[..]), mem[..], offset + 4, next)
    {
      hide *;
      ghost var h, m0 := freeOffset, mem[..];
      SetLink(previous, offset, k);
      ghost var m1 := mem[..];
      HeadSet(m0, k, offset);
      Put(offset + 4, next);
      if good {
        PutStep(m0, m1, mem[..], h, tiles, links, fl, k, offset);
        PutKeeps(m0, m1, mem[..], h, tiles, links, fl, k, offset);
        RelinkKeys(links, fl, k, offset);
        links := Relink(links, fl, k, offset)[offset := next];
      }
      fl := Insert(fl, k, offset);
    }

    lemma HeadSet(m0: seq<byte>, k: nat, v: nat)
      requires Relinked(m0, mem[..], fl, k, v)
      ensures k == 0 ==> mem[..] == m0
      ensures forall h :: NewHead(h, 0, v) == v
    {}

    /** The walk of dyn_pool_alloc_internal: stops at the first free block of at least `size` bytes, or
        at the last one. */
    method FindFit(size: nat) returns (previous: nat, current: nat, ghost k: nat)
      requires Walkable() && fl != []
      ensures GoodNode(k) && current == fl[k] && previous == At(fl, k - 1)
      ensures forall j: nat :: j < k ==> GoodNode(j) && Get(fl[j]) < size
      ensures Get(current) < size ==> k == |fl| - 1
    {
      hide Get;
      assert GoodNode(0);
      previous, current, k := NIL, freeOffset, 0;
      while Get(current) < size && Get(current + 4) != NIL
        invariant GoodNode(k) && current == fl[k] && previous == At(fl, k - 1)
        invariant forall j: nat :: j < k ==> GoodNode(j) && Get(fl[j]) < size
        decreases |fl| - k
      {
        assert GoodNode(k + 1);
        previous, current, k := current, Get(current + 4), k + 1;
      }
    }

    /** Block k of the free list is the first that has room for `size` bytes. */
    ghost predicate FirstFit(size: nat, k: nat)
      reads this, mem
    {
      && GoodNode(k) && size <= Get(fl[k])
      && forall j: nat :: j < k ==> GoodNode(j) && Get(fl[j]) < size
    }

    /** No block of the free list has room for `size` bytes. */
    ghost predicate NoFit(size: nat)
      reads this, mem
    {
      forall j: nat :: j < |fl| ==> GoodNode(j) && Get(fl[j]) < size
    }

    /** The search of dyn_pool_alloc_internal: the first block with room, or NIL. */
    method Search(size: nat) returns (previous: nat, current: nat, ghost k: nat)
      requires Walkable()
      ensures current == NIL <==> NoFit(size)
      ensures current != NIL ==> Slot(previous, current, k) && FirstFit(size, k)
      ensures current != NIL ==> current + 4 <= mem.Length && size <= Get(current) && k < |fl| && current == fl[k]
    {
      if freeOffset == NIL {
        return NIL, NIL, 0;
      }
      previous, current, k := FindFit(size);
      SlotAt(k);
      if Get(current) < size {
        current := NIL;
      }
    }

    /** What writing to the k-th free block and its neighbours relies on. */
    ghost predicate Slot(previous: nat, current: nat, k: nat)
      reads this, mem
    {
      && k < |fl| && current == fl[k] && previous == At(fl, k - 1)
      && current + MIN_BLOCK <= mem.Length < NIL
      && MIN_BLOCK <= Get(current) && current + Get(current) <= mem.Length
      && Get(current + 4) == At(fl, k + 1) <= NIL
      && (k > 0 ==> previous == fl[k - 1] < NIL && previous + 8 <= mem.Length)
    }

    lemma SlotAt(k: nat)
      requires Walkable() && k < |fl|
      ensures Slot(At(fl, k - 1), fl[k], k)
    {
      assert GoodNode(k);
      if k > 0 { assert GoodNode(k - 1); }
      if k + 1 < |fl| { assert GoodNode(k + 1); }
    }

    /** dyn_pool_alloc_internal: first fit.  What is left of the block stays free if it is more than 12
        bytes, and goes to the caller otherwise.  It fails only if no free block has room; it walks any
        list that can be walked, and keeps a valid pool valid. */
    method AllocInternal(requested: nat) returns (offset: nat)
      requires Walkable() && requested >= 4
      modifies this`freeOffset, this`tiles, this`links, this`fl, mem
      ensures offset == NIL <==> old(NoFit(requested + HEADER))
      ensures offset == NIL ==> mem[..] == old(mem[..]) && freeOffset == old(freeOffset)
      ensures offset == NIL ==> tiles == old(tiles) && links == old(links) && fl == old(fl)
      ensures offset != NIL ==> offset + requested + HEADER <= mem.Length == old(mem.Length)
      ensures offset != NIL ==> exists k: nat :: old(FirstFit(requested + HEADER, k)) && offset == old(fl)[k]
      ensures offset != NIL && |old(fl)| == 1 ==> ShortList(mem[..], freeOffset, fl, offset + requested + HEADER)
      ensures offset != NIL && |old(fl)| == 1 ==> ChangedWithin(old(mem[..]), mem[..], offset, mem.Length)
      ensures old(Valid()) ==> Valid()
      ensures old(Valid()) && offset != NIL ==> Obtained(old(Live()), old(tiles), offset, requested)
      ensures old(Valid()) && offset != NIL ==> Placed(old(tiles), old(fl), requested + HEADER, offset)
      ensures old(Valid()) ==> Kept(old(mem[..]), mem[..], old(tiles), old(Live()))
    {
      hide Good, Kept, NoFit, FirstFit, Walkable, GoodNode, Slot, InTiles, Obtained, Get, CutAt, FitsAt;
      var size := requested + HEADER;
      assert 8 <= size && size - HEADER == requested;
      var previous, current, k := Search(size);
      offset := current;
      ghost var good := Valid();
      if good {
        KeptReflexive(mem[..], freeOffset, tiles, links, fl);
        if current != NIL {
          SlotInTiles(k);
          FitsInTiles(size, k);
        }
      }
      if current != NIL {
        Take(previous, current, size, k, good);
      }
    }

    /** Block k of the list is the first with room for `size` bytes. */
    static ghost predicate FitsAt(t0: map<nat, nat>, l0: seq<nat>, k: nat, size: nat) {
      && k < |l0| && l0[k] in t0 && size <= t0[l0[k]]
      && forall j :: 0 <= j < k ==> l0[j] in t0 && t0[l0[j]] < size
    }

    /** Block k of the list was cut: its first `size` bytes are a block now and the rest is one in its place on the
        list, unless the rest is 12 bytes at most: those stay with the block, which leaves the list. */
    ghost predicate CutAt(t0: map<nat, nat>, l0: seq<nat>, k: nat, size: nat)
      reads this
    {
      && k < |l0| && l0[k] in t0 && size <= t0[l0[k]]
      && var o, rest := l0[k], t0[l0[k]] - size;
         if rest <= 12 then tiles == t0 && fl == l0[..k] + l0[k + 1..]
         else tiles == t0[o := size][o + size := rest] && fl == l0[k := o + size]
    }

    /** The first block with room was handed out, cut or whole. */
    ghost predicate Placed(t0: map<nat, nat>, l0: seq<nat>, size: nat, offset: nat)
      reads this
    {
      exists k: nat :: FitsAt(t0, l0, k, size) && l0[k] == offset && CutAt(t0, l0, k, size)
    }

    lemma FitsInTiles(size: nat, k: nat)
      requires Valid() && FirstFit(size, k)
      ensures FitsAt(tiles, fl, k, size)
    {
      hide Good, Get;
      FreeBlockAt(k);
      forall j | 0 <= j < k ensures fl[j] in tiles && tiles[fl[j]] < size { FreeBlockAt(j); }
    }

    /** Block `offset` is live now, was not before, has room for the request and at most 12 bytes more, and no other
        live block came, went or changed its size. */
    ghost predicate Obtained(live: set<nat>, sizes: map<nat, nat>, offset: nat, requested: nat)
      reads this
    {
      && Live() == live + {offset} && offset !in live
      && offset in tiles && requested + HEADER <= tiles[offset] <= requested + HEADER + 12
      && forall o :: o in live && o in sizes ==> o in tiles && tiles[o] == sizes[o]
    }

    ghost predicate InTiles(k: nat)
      reads this, mem
    {
      && k < |fl| && fl[k] in tiles && fl[k] in links
      && fl[k] + 4 <= mem.Length && tiles[fl[k]] == Get(fl[k])
      && (k > 0 ==> fl[k - 1] in links)
    }

    lemma SlotInTiles(k: nat)
      requires Valid() && k < |fl|
      ensures InTiles(k)
    {
      FreeBlockAt(k);
      if k > 0 { FreeBlockAt(k - 1); }
    }

    /** Hands `size` bytes of the k-th free block to the caller, or all of it if the rest is too small. */
    method Take(previous: nat, current: nat, size: nat, ghost k: nat, ghost good: bool)
      requires Slot(previous, current, k) && MIN_BLOCK <= size <= Get(current)
      requires good ==> Good(mem[..], freeOffset, tiles, links, fl) && InTiles(k)
      modifies this`freeOffset, this`tiles, this`links, this`fl, mem
      ensures good ==> Good(mem[..], freeOffset, tiles, links, fl)
      ensures good ==> Obtained(old(Live()), old(tiles), current, size - HEADER)
      ensures good ==> CutAt(old(tiles), old(fl), k, size)
      ensures good ==> Kept(old(mem[..]), mem[..], old(tiles), old(Live()))
      ensures |old(fl)| == 1 ==> ShortList(mem[..], freeOffset, fl, current + size)
      ensures |old(fl)| == 1 ==> ChangedWithin(old(mem[..]), mem[..], current, mem.Length)
    {
      hide Good, Kept;
      ghost var live := Live();
      if Get(current) - size <= 12 {
        ghost var m0, l := mem[..], fl;
        TakeWhole(previous, current, k, good);
        if |l| == 1 {
          TakenShort(m0, l, current);
          TakenShort(m0, l, current + size);
        }
      } else {
        Carve(previous, current, size, k, good);
      }
      assert good ==> Live() == live + {current};
    }

    /** What carving leaves of a list of one block. */
    lemma CarvedShort(m0: seq<byte>, m1: seq<byte>, m2: seq<byte>, m3: seq<byte>, l: seq<nat>, current: nat, q: nat,
                      rest: nat)
      requires Wrote32(m0, m1, q, rest) && Wrote32(m1, m2, current, q - current) && Wrote32(m2, m3, q + 4, NIL)
      requires Relinked(m3, mem[..], l, 0, q) && current + 4 <= q && 8 <= rest && q + rest <= |m0| < NIL
      ensures ShortList(mem[..], q, [q], q) && ChangedWithin(m0, mem[..], current, |m0|) && mem.Length == |m0|
    {
      hide Word;
    }

    /** Handing out the only block of the list leaves none. */
    lemma TakenShort(m0: seq<byte>, l: seq<nat>, from: nat)
      requires Relinked(m0, mem[..], l, 0, NIL) && mem.Length < NIL && from <= |m0|
      ensures ShortList(mem[..], NIL, [], from) && ChangedWithin(m0, mem[..], from, |m0|) && mem.Length == |m0|
    {
      hide Word;
    }

    /** For proofs that hide everything else. */
    lemma Constants()
      ensures MIN_BLOCK == 8 && HEADER == 4 && NIL == 0xFFFF_FFFF
    {}

    lemma OnlyBlock(k: nat)
      requires k < |fl|
      ensures |fl| == 1 ==> k == 0 && At(fl, k - 1) == NIL && At(fl, k + 1) == NIL && Without(fl, k) == []
      ensures |fl| == 1 ==> forall q: nat :: fl[k := q] == [q]
      ensures forall h, v :: NewHead(h, 0, v) == v
    {}

    /** The whole of the k-th free block goes to the caller. */
    method TakeWhole(previous: nat, current: nat, ghost k: nat, ghost good: bool)
      requires k < |fl| && current == fl[k] && current + 8 <= mem.Length
      requires previous == At(fl, k - 1) && Get(current + 4) == At(fl, k + 1) && Get(current + 4) <= NIL
      requires k > 0 ==> previous == fl[k - 1] < NIL && previous + 8 <= mem.Length
      requires good ==> Good(mem[..], freeOffset, tiles, links, fl) && current in tiles && current in links
      requires good && k > 0 ==> previous in links
      modifies this`freeOffset, this`links, this`fl, mem
      ensures good ==> Good(mem[..], freeOffset, tiles, links, fl)
      ensures good ==> links.Keys == old(links).Keys - {current}
      ensures good ==> Kept(old(mem[..]), mem[..], tiles, tiles.Keys - old(links).Keys)
      ensures fl == Without(old(fl), k)
      ensures |old(fl)| == 1 ==> freeOffset == NIL && fl == [] && Relinked(old(mem[..]), mem[..], old(fl), 0, NIL)
    {
      hide *;
      ghost var h, m0, n := freeOffset, mem[..], At(fl, k + 1);
      OnlyBlock(k);
      SetLink(previous, Get(current + 4), k);
      if good {
        TakeStep(m0, mem[..], h, tiles, links, fl, k);
        GoodRelinkKeeps(m0, mem[..], h, tiles, links, fl, k, n);
        RelinkKeys(links, fl, k, n);
        links := Relink(links, fl, k, n) - {current};
      }
      fl := Without(fl, k);
    }

    /** The first `size` bytes of the k-th free block go to the caller, the rest takes its place. */
    method Carve(previous: nat, current: nat, size: nat, ghost k: nat, ghost good: bool)
      requires k < |fl| && current == fl[k] && current + 8 <= mem.Length
      requires MIN_BLOCK <= size && size + MIN_BLOCK <= Get(current) && current + Get(current) <= mem.Length < NIL
      requires previous == At(fl, k - 1) && Get(current + 4) == At(fl, k + 1) && Get(current + 4) <= NIL
      requires k > 0 ==> previous == fl[k - 1] < NIL && previous + 8 <= mem.Length
      requires good ==> Good(mem[..], freeOffset, tiles, links, fl)
      requires good ==> current in tiles && current in links && tiles[current] == Get(current)
      modifies this`freeOffset, this`tiles, this`links, this`fl, mem
      ensures good ==> Good(mem[..], freeOffset, tiles, links, fl)
      ensures good ==> links.Keys == old(links).Keys - {current} + {current + size}
      ensures good ==> tiles.Keys == old(tiles).Keys + {current + size} && current + size !in old(tiles)
      ensures good ==> tiles == old(tiles)[current := size][current + size := old(tiles)[current] - size]
      ensures fl == old(fl)[k := current + size]
      ensures good ==> Kept(old(mem[..]), mem[..], old(tiles), old(tiles).Keys - old(links).Keys)
      ensures |old(fl)| == 1 ==> ShortList(mem[..], freeOffset, fl, current + size)
      ensures |old(fl)| == 1 ==> ChangedWithin(old(mem[..]), mem[..], current, mem.Length)
    {
      hide *;
      ghost var h, m0, n, q := freeOffset, mem[..], At(fl, k + 1), current + size;
      Constants();
      OnlyBlock(k);
      var rest, next := Get(current) - size, Get(current + 4);
      Put(current + size, rest);
      ghost var m1 := mem[..];
      Put(current, size);
      ghost var m2 := mem[..];
      Put(current + size + 4, next);
      ghost var m3 := mem[..];
      SetLink(previous, current + size, k);
      if |fl| == 1 { CarvedShort(m0, m1, m2, m3, fl, current, q, rest); }
      if good {
        CarveStep(m0, m1, m2, m3, mem[..], h, tiles, links, fl, k, size);
        CarveKeeps(m0, m1, m2, m3, mem[..], h, tiles, links, fl, k, size);
        CarveSizes(m0, h, tiles, links, fl, current, size);
        CarveKeys(m0, h, tiles, links, fl, k, q);
        SplitIs(tiles, current, size);
        tiles := Split(tiles, current, size);
        links := Relink((links - {current})[q := n], fl, k, q);
      }
      fl := fl[k := q];
    }

    static lemma SplitIs(t: map<nat, nat>, o: nat, size: nat)
      requires o in t && size <= t[o]
      ensures Split(t, o, size) == t[o := size][o + size := t[o] - size]
    {}

    /** By how much dyn_pool_resize enlarges the pool. */
    static function Growth(n: nat, requestedBlock: nat): nat {
      if requestedBlock + 4 > n + POOL_HEADER then (requestedBlock + 4) * 2 else n + POOL_HEADER
    }

    /** The total at least doubles, and it exactly doubles unless the request is larger than that; then twice the
        request is added. */
    static lemma GrowthDoubles(n: nat, requestedBlock: nat)
      ensures var total, total' := n + POOL_HEADER, n + POOL_HEADER + Growth(n, requestedBlock);
              && total' >= 2 * total && Growth(n, requestedBlock) >= requestedBlock + 4
              && (requestedBlock + 4 <= total ==> total' == 2 * total)
              && (requestedBlock + 4 > total ==> total' == total + 2 * (requestedBlock + 4))
    {}

    /** realloc: a larger region that starts with the old bytes; the new ones are arbitrary. */
    method Reallocate(more: nat)
      requires Walkable() && mem.Length + more < NIL
      modifies this`mem
      ensures fresh(mem) && mem.Length == old(mem.Length) + more
      ensures old(mem[..]) <= mem[..]
      ensures forall o: nat :: o + 4 <= old(mem.Length) ==> Get(o) == old(Get(o))
      ensures Walkable()
    {
      var m := new byte[mem.Length + more];
      forall i | 0 <= i < mem.Length { m[i] := mem[i]; }
      ghost var n := mem.Length;
      assert forall k: nat :: k < |fl| ==> GoodNode(k);
      mem := m;
      forall k: nat | k < |fl| ensures GoodNode(k) {
        assert old(GoodNode(k));
      }
    }

    /** The walk of dyn_pool_resize to the last free block. */
    method FindLast() returns (current: nat)
      requires Walkable() && fl != []
      ensures current == fl[|fl| - 1] && GoodNode(|fl| - 1)
    {
      current := freeOffset;
      ghost var k := 0;
      assert GoodNode(0);
      while Get(current + 4) != NIL
        invariant GoodNode(k) && current == fl[k]
        decreases |fl| - k
      {
        current, k := Get(current + 4), k + 1;
        assert GoodNode(k);
      }
    }

    /** The blocks when the last of the list got `more` bytes. */
    static ghost function GrownLast(t: map<nat, nat>, l: seq<nat>, more: nat): map<nat, nat> {
      if l != [] && l[|l| - 1] in t then t[l[|l| - 1] := t[l[|l| - 1]] + more] else t
    }

    /** The extend branch of dyn_pool_resize: the last block of the list grows by the new bytes. */
    method GrowLast(ghost m0: seq<byte>, current: nat, growth: nat)
      requires Good(m0, freeOffset, tiles, links, fl)
      requires m0 <= mem[..] && mem.Length == |m0| + growth < NIL
      requires LastIsFree(|m0|, tiles, fl) && current == fl[|fl| - 1]
      requires current in links && current in tiles && current + 4 <= mem.Length && Get(current) == tiles[current]
      requires tiles[current] + growth < 0x1_0000_0000
      modifies this`tiles, mem
      ensures Good(mem[..], freeOffset, tiles, links, fl)
      ensures LiveBlocks(tiles, links) == old(LiveBlocks(tiles, links))
      ensures tiles == old(tiles)[current := old(tiles)[current] + growth] && tiles[current] >= growth
      ensures Kept(m0, mem[..], tiles, tiles.Keys - links.Keys)
    {
      hide Good, Kept, Tiling, Encodes, Chain, Wrote32, Read32;
      ghost var m1, t := mem[..], tiles;
      Put(current, Get(current) + growth);
      GrowStep(m0, m1, mem[..], freeOffset, t, links, fl, current, growth);
      GrowKeeps(m0, m1, mem[..], freeOffset, t, links, fl, current, growth);
      tiles := t[current := t[current] + growth];
      assert LiveBlocks(tiles, links) == LiveBlocks(t, links);
    }

    /** The other branches: the block header goes over the last word of the old data and the word after
        it, and the block becomes the head of the list. */
    method Misplace(n: nat, growth: nat)
      requires MIN_BLOCK <= n && POOL_HEADER <= growth && mem.Length == n + growth < NIL
      modifies this`freeOffset, this`fl, mem
      ensures freeOffset == n - 4 && fl == [n - 4]
      ensures Get(n - 4) == growth && Get(n) == NIL
      ensures forall b :: 0 <= b < n - 4 ==> mem[b] == old(mem[b])
    {
      Put(n, NIL);
      ghost var m := mem[..];
      Put(n - 4, growth);
      freeOffset := n - 4;
      fl := [n - 4];
      assert Read32(mem[..], n) == Read32(m, n);
    }

    /** A one-block list with a readable header can be walked. */
    lemma SingletonWalkable(n: nat, growth: nat)
      requires MIN_BLOCK <= n && POOL_HEADER <= growth && mem.Length == n + growth < NIL
      requires freeOffset == n - 4 && fl == [n - 4] && Get(n - 4) == growth && Get(n) == NIL
      ensures Walkable() && GoodNode(0)
    {}

    lemma HasRoom(k: nat, size: nat)
      requires GoodNode(k) && size <= Get(fl[k])
      ensures !NoFit(size)
    {}

    /** Where the last block of the list lies in a region of n bytes. */
    ghost predicate LastAt(n: nat)
      reads this, mem
    {
      && (freeOffset == NIL <==> fl == [])
      && (fl == [] ==> !LastIsFree(n, tiles, fl))
      && (fl != [] ==>
            var c := fl[|fl| - 1];
            && c in tiles && c in links && c + tiles[c] <= n && c + 4 <= n <= mem.Length && tiles[c] == Get(c)
            && (LastIsFree(n, tiles, fl) <==> c + Get(c) == n)
            && (LastIsFree(n, tiles, fl) || c + 16 <= n))
    }

    lemma LastEnds()
      requires Valid()
      ensures LastAt(mem.Length)
    {
      hide Get, Good, GoodNode;
      ValidWalkable();
      if fl != [] {
        FreeBlockAt(|fl| - 1);
        FreeBlockAt(0);
        if !LastIsFree(mem.Length, tiles, fl) { LastBehind(); }
      }
    }

    lemma LastBehind()
      requires Valid() && fl != [] && fl[|fl| - 1] in tiles && !LastIsFree(mem.Length, tiles, fl)
      ensures fl[|fl| - 1] + tiles[fl[|fl| - 1]] + MIN_BLOCK <= mem.Length && MIN_BLOCK <= tiles[fl[|fl| - 1]]
    {
      BlockBehind(tiles, mem.Length, fl[|fl| - 1]);
    }

    method Extend(ghost m0: seq<byte>, current: nat, growth: nat, ghost requestedBlock: nat)
      requires Good(m0, freeOffset, tiles, links, fl)
      requires m0 <= mem[..] && mem.Length == |m0| + growth < NIL && requestedBlock <= growth
      requires LastIsFree(|m0|, tiles, fl) && fl != [] && current == fl[|fl| - 1]
      requires current in links && current in tiles && current + 4 <= mem.Length && Get(current) == tiles[current]
      requires tiles[current] + growth < 0x1_0000_0000
      modifies this`tiles, mem
      ensures Good(mem[..], freeOffset, tiles, links, fl)
      ensures LiveBlocks(tiles, links) == old(LiveBlocks(tiles, links))
      ensures Tileable(mem[..], freeOffset, LiveBlocks(tiles, links))
      ensures tiles == GrownLast(old(tiles), fl, growth)
      ensures Walkable() && !NoFit(requestedBlock)
      ensures Kept(m0, mem[..], tiles, tiles.Keys - links.Keys)
    {
      hide *;
      ghost var t0 := tiles;
      GrowLast(m0, current, growth);
      Extended(t0, current, growth, requestedBlock);
    }

    lemma Extended(t0: map<nat, nat>, current: nat, growth: nat, requestedBlock: nat)
      requires Good(mem[..], freeOffset, tiles, links, fl) && fl != [] && current == fl[|fl| - 1]
      requires current in t0 && tiles == t0[current := t0[current] + growth] && requestedBlock <= growth
      ensures Walkable() && !NoFit(requestedBlock) && Tileable(mem[..], freeOffset, LiveBlocks(tiles, links))
      ensures tiles == GrownLast(t0, fl, growth)
    {
      hide Good, Get, GoodNode, NoFit, Walkable, LiveBlocks;
      ValidWalkable();
      FreeBlockAt(|fl| - 1);
      HasRoom(|fl| - 1, requestedBlock);
    }

    /** The header of the misplaced block over the end of a region of n bytes, which `last`, the last block of the list
        or NIL, leads to. */
    predicate Misplaced(n: nat, growth: nat, last: nat)
      reads this, mem
    {
      && 4 <= n && n + 4 <= mem.Length && Get(n - 4) == growth && Get(n) == NIL
      && (last != NIL ==> last + 8 <= mem.Length && Get(last + 4) == n - 4)
    }

    /** The branches that place a new block; `current` is the last block of the old list or NIL. */
    method PlaceNew(ghost m0: seq<byte>, current: nat, n: nat, growth: nat, ghost requestedBlock: nat)
      requires Good(m0, freeOffset, tiles, links, fl) && !LastIsFree(|m0|, tiles, fl)
      requires n == |m0| >= MIN_BLOCK && mem.Length == n + growth < NIL && POOL_HEADER <= growth
               && requestedBlock <= growth
      requires m0 <= mem[..] && (current == NIL || (current + 16 <= n && current in tiles && current in links))
      modifies this`freeOffset, this`fl, mem
      ensures Walkable() && !NoFit(requestedBlock) && |fl| == 1 && fl[0] == n - 4
      ensures Misplaced(n, growth, current)
      ensures !Tileable(mem[..], freeOffset, LiveBlocks(tiles, links)) && LiveBelow(m0, mem[..], tiles, links)
    {
      ghost var h0, l0, m1 := freeOffset, fl, mem[..];
      hide Good, Tileable, Walkable, GoodNode, NoFit, LastIsFree, Wrote32, LiveBelow;
      Misplace(n, growth);
      ghost var m2 := mem[..];
      if current != NIL {
        PutBelow(current, n);
      }
      MisplacedKeepsLive(m0, h0, tiles, links, l0, m1, m2, mem[..], current);
      SingletonWalkable(n, growth);
      HasRoom(0, requestedBlock);
      assert Misplaced(n, growth, current);
      assert Read32(mem[..], n) == Get(n);
      MisplacedBlockUntileable(m0, h0, tiles, links, l0, mem[..], freeOffset);
    }

    /** The link from the old last block, which lies below the new header. */
    method PutBelow(current: nat, n: nat)
      requires current + 16 <= n <= n + 4 <= mem.Length && n < 0x1_0000_0000
      modifies mem
      ensures Get(n - 4) == old(Get(n - 4)) && Get(n) == old(Get(n)) && Get(current + 4) == n - 4
      ensures ChangedWithin(old(mem[..]), mem[..], current + 4, current + 8)
    {
      Put(current + 4, n - 4);
    }

    /** dyn_pool_resize, with the answer of realloc as a parameter.  When the last block of the list ends
        at the end of the data it is extended.  Otherwise the source places the new block one word
        before the end of the data and makes it the head of the list; then no reading of the pool
        tiles it any more, so extending is exactly when the structure survives.  Either way a block
        with room for the request is on the list afterwards. */
    method Resize(requestedBlock: nat, granted: bool) returns (ok: bool)
      requires Valid()
      modifies this`mem, this`freeOffset, this`tiles, this`fl
      ensures ok <==> granted && old(mem.Length) + Growth(old(mem.Length), requestedBlock) < NIL
      ensures !ok ==> mem == old(mem) && freeOffset == old(freeOffset) && tiles == old(tiles) && fl == old(fl)
      ensures ok ==> fresh(mem) && mem.Length == old(mem.Length) + Growth(old(mem.Length), requestedBlock)
      ensures ok ==> Walkable() && !NoFit(requestedBlock)
      ensures ok ==> (Tileable(mem[..], freeOffset, old(LiveBlocks(tiles, links)))
                      <==> old(LastIsFree(mem.Length, tiles, fl)))
      ensures ok && old(LastIsFree(mem.Length, tiles, fl)) ==>
                Valid() && LiveBlocks(tiles, links) == old(LiveBlocks(tiles, links))
      ensures ok && old(LastIsFree(mem.Length, tiles, fl)) ==> Kept(old(mem[..]), mem[..], tiles, Live())
      ensures ok && old(LastIsFree(mem.Length, tiles, fl)) ==>
                fl == old(fl) && tiles == GrownLast(old(tiles), fl, Growth(old(mem.Length), requestedBlock))
      ensures ok && !old(LastIsFree(mem.Length, tiles, fl)) ==> |fl| == 1 && fl[0] == old(mem.Length) - 4 >= 4
      ensures ok && !old(LastIsFree(mem.Length, tiles, fl)) ==> LiveBelow(old(mem[..]), mem[..], old(tiles), links)
      ensures ok && !old(LastIsFree(mem.Length, tiles, fl)) ==>
                Misplaced(old(mem.Length), Growth(old(mem.Length), requestedBlock), At(old(fl), |old(fl)| - 1))
    {
      var n := mem.Length;
      var growth := Growth(n, requestedBlock);
      if !granted || n + growth >= NIL {
        return false;
      }
      ok := true;
      ValidWalkable();
      LastEnds();
      SomeBlock();
      hide Good, Valid, Kept, Tileable, Walkable, NoFit, Get, LiveBlocks, LastIsFree, LastAt, LiveBelow, GrownLast,
           Misplaced;
      ghost var m0 := mem[..];
      Reallocate(growth);
      StillAt(n);
      Attach(m0, n, growth, requestedBlock);
    }

    twostate lemma StillAt(n: nat)
      requires old(LastAt(n)) && n <= mem.Length && freeOffset == old(freeOffset) && tiles == old(tiles)
               && links == old(links) && fl == old(fl)
      requires forall o: nat :: o + 4 <= old(mem.Length) ==> o + 4 <= mem.Length && Get(o) == old(Get(o))
      ensures LastAt(n)
    {
      hide Get, LastIsFree;
    }

    /** The new bytes behind the old n become part of the last free block or a block of their own. */
    method Attach(ghost m0: seq<byte>, n: nat, growth: nat, ghost requestedBlock: nat)
      requires Good(m0, freeOffset, tiles, links, fl) && Walkable() && LastAt(n) && n == |m0| >= MIN_BLOCK
      requires m0 <= mem[..] && mem.Length == n + growth < NIL && POOL_HEADER <= growth && requestedBlock <= growth
      modifies this`freeOffset, this`tiles, this`fl, mem
      ensures Walkable() && !NoFit(requestedBlock)
      ensures Tileable(mem[..], freeOffset, old(LiveBlocks(tiles, links))) <==> old(LastIsFree(n, tiles, fl))
      ensures old(LastIsFree(n, tiles, fl)) ==> Valid() && LiveBlocks(tiles, links) == old(LiveBlocks(tiles, links))
      ensures old(LastIsFree(n, tiles, fl)) ==> Kept(m0, mem[..], tiles, Live())
      ensures old(LastIsFree(n, tiles, fl)) ==> fl == old(fl) && tiles == GrownLast(old(tiles), fl, growth)
      ensures !old(LastIsFree(n, tiles, fl)) ==>
                |fl| == 1 && fl[0] == n - 4 && LiveBelow(m0, mem[..], old(tiles), links)
                && Misplaced(n, growth, At(old(fl), |old(fl)| - 1))
    {
      hide Good, Kept, Tileable, Walkable, GoodNode, NoFit, Get, LiveBlocks, LastIsFree, LiveBelow, GrownLast,
           Misplaced;
      var current := NIL;
      if freeOffset != NIL {
        current := FindLast();
      }
      if freeOffset != NIL && current + Get(current) == n {
        Extend(m0, current, growth, requestedBlock);
      } else {
        PlaceNew(m0, current, n, growth, requestedBlock);
      }
    }

    lemma SomeBlock()
      requires Valid()
      ensures Good(mem[..], freeOffset, tiles, links, fl) && mem.Length >= MIN_BLOCK
    {}

    /** The system can enlarge the pool as dyn_pool_resize asks. */
    predicate CanGrow(requested: nat, granted: bool)
      reads this
    {
      granted && mem.Length + Growth(mem.Length, requested + HEADER) < NIL
    }

    /** Allocation finds room, or extends the last block of the list to make it. */
    ghost predicate Accommodates(requested: nat)
      reads this, mem
    {
      !NoFit(requested + HEADER) || LastIsFree(mem.Length, tiles, fl)
    }

    /** The blocks among which the allocation finds its own: where there is no room the last of the list is made
        larger first. */
    ghost function BlocksFor(requested: nat): map<nat, nat>
      reads this, mem
    {
      if NoFit(requested + HEADER) then GrownLast(tiles, fl, Growth(mem.Length, requested + HEADER)) else tiles
    }

    lemma BlocksForIs(requested: nat)
      ensures BlocksFor(requested)
           == if NoFit(requested + HEADER) then GrownLast(tiles, fl, Growth(mem.Length, requested + HEADER)) else tiles
    {}

    /** What an allocation leaves of a pool with bytes m0 and blocks t0: where it was accommodated, a valid pool
        with one more live block; otherwise a block over the last word of the old region. */
    ghost predicate Allocated(m0: seq<byte>, t0: map<nat, nat>, links0: map<nat, nat>, offset: nat, requested: nat,
                              accommodated: bool)
      reads this, mem
    {
      && offset + requested + HEADER <= mem.Length
      && if accommodated then
           && Valid() && Obtained(t0.Keys - links0.Keys, t0, offset, requested)
           && Kept(m0, mem[..], t0, t0.Keys - links0.Keys)
         else
           8 <= |m0| && offset == |m0| - 4 && Spoilt(m0, t0, links0, mem[..], freeOffset, fl, requested)
    }

    /** dyn_pool_alloc: fails only if there is no room and the system refuses to enlarge the pool.  The
        second search, after a successful resize, never fails.  The blocks and the new one still tile the
        region if and only if there was room or the last free block could be extended. */
    method Alloc(requested: nat, granted: bool) returns (offset: nat)
      requires Valid() && requested >= 4
      modifies this`mem, this`freeOffset, this`tiles, this`links, this`fl, mem
      ensures mem == old(mem) || fresh(mem)
      ensures offset == NIL <==> old(NoFit(requested + HEADER) && !CanGrow(requested, granted))
      ensures offset == NIL ==> mem == old(mem) && mem[..] == old(mem[..]) && Valid() && Live() == old(Live())
      ensures offset != NIL ==>
                (old(Accommodates(requested))
                 <==> TileableWith(mem[..], freeOffset, old(LiveBlocks(tiles, links)), offset))
      ensures offset != NIL ==>
                Allocated(old(mem[..]), old(tiles), old(links), offset, requested, old(Accommodates(requested)))
      ensures old(!NoFit(requested + HEADER)) ==> mem == old(mem)
      ensures offset != NIL && old(Accommodates(requested)) ==>
                Placed(old(BlocksFor(requested)), old(fl), requested + HEADER, offset)
    {
      hide *;
      ghost var m0, h0, t0, links0, l0, good := mem[..], freeOffset, tiles, links, fl, Accommodates(requested);
      IsGood();
      ValidWalkable();
      Accommodating(requested);
      BlocksForIs(requested);
      offset := AllocInternal(requested);
      if offset == NIL {
        offset := AllocEnlarged(requested, granted);
      } else {
        FoundRoom(m0, t0, links0, offset, requested);
      }
      if offset != NIL { AllocatedTiles(m0, h0, t0, links0, l0, offset, requested, good); }
    }

    lemma Accommodating(requested: nat)
      requires Valid()
      ensures Accommodates(requested) <==> !NoFit(requested + HEADER) || LastIsFree(mem.Length, tiles, fl)
      ensures Live() == tiles.Keys - links.Keys && |mem[..]| == mem.Length
    {
      hide NoFit, LastIsFree;
    }

    lemma FoundRoom(m0: seq<byte>, t0: map<nat, nat>, links0: map<nat, nat>, offset: nat, requested: nat)
      requires offset + requested + HEADER <= mem.Length && Valid()
      requires Obtained(t0.Keys - links0.Keys, t0, offset, requested) && Kept(m0, mem[..], t0, t0.Keys - links0.Keys)
      ensures Allocated(m0, t0, links0, offset, requested, true)
    {
      hide Obtained, Kept, Valid;
    }

    /** The allocation succeeded where it was accommodated, and only there is there a tiling. */
    lemma AllocatedTiles(m0: seq<byte>, h0: nat, t0: map<nat, nat>, links0: map<nat, nat>, l0: seq<nat>, offset: nat,
                         requested: nat, accommodated: bool)
      requires Good(m0, h0, t0, links0, l0) && (!accommodated ==> !LastIsFree(|m0|, t0, l0))
      requires Allocated(m0, t0, links0, offset, requested, accommodated)
      ensures accommodated <==> TileableWith(mem[..], freeOffset, LiveBlocks(t0, links0), offset)
    {
      hide Good, TileableWith, LastIsFree, LiveBlocks, Valid, Obtained, Kept, Spoilt;
      if accommodated {
        ObtainedTiles(t0, links0, offset, requested);
      } else {
        SpoiltUntileable(m0, h0, t0, links0, l0, mem[..], freeOffset, fl, requested);
      }
    }

    /** The rest of dyn_pool_alloc when the first search has failed. */
    method AllocEnlarged(requested: nat, granted: bool) returns (offset: nat)
      requires Valid() && requested >= 4
      modifies this`mem, this`freeOffset, this`tiles, this`links, this`fl, mem
      ensures mem == old(mem) || fresh(mem)
      ensures offset == NIL <==> !old(CanGrow(requested, granted))
      ensures offset == NIL ==> mem == old(mem) && mem[..] == old(mem[..]) && Valid() && Live() == old(Live())
      ensures offset != NIL ==>
                Allocated(old(mem[..]), old(tiles), old(links), offset, requested,
                          old(LastIsFree(mem.Length, tiles, fl)))
      ensures offset != NIL && old(LastIsFree(mem.Length, tiles, fl)) ==>
                Placed(GrownLast(old(tiles), old(fl), Growth(old(mem.Length), requested + HEADER)), old(fl),
                       requested + HEADER, offset)
    {
      hide *;
      ghost var m0, t0, links0, good := mem[..], tiles, links, LastIsFree(mem.Length, tiles, fl);
      Constants();
      offset := NIL;
      EnlargedFacts(requested, granted);
      var ok := Resize(requested + HEADER, granted);
      if ok {
        offset := Retry(requested, m0, t0, links0, good);
      }
    }

    lemma StillLive(t0: map<nat, nat>, links0: map<nat, nat>)
      requires LiveBlocks(tiles, links) == LiveBlocks(t0, links0)
      ensures Live() == t0.Keys - links0.Keys && SameSizes(Live(), t0, tiles)
    {
      SameLiveBlocks(t0, links0, tiles, links);
    }

    lemma EnlargedFacts(requested: nat, granted: bool)
      ensures CanGrow(requested, granted)
         <==> granted && mem.Length + Growth(mem.Length, requested + HEADER) < NIL
      ensures |mem[..]| == mem.Length
    {
      hide Growth;
    }

    lemma FoundMisplaced(m0: seq<byte>, t0: map<nat, nat>, links0: map<nat, nat>, m1: seq<byte>, offset: nat,
                         requested: nat)
      requires 8 <= |m0| && offset == |m0| - 4 && offset + requested + HEADER <= mem.Length
      requires LiveBelow(m0, m1, t0, links0) && ChangedWithin(m1, mem[..], offset, mem.Length)
      requires ShortList(mem[..], freeOffset, fl, offset + requested + HEADER)
      ensures Allocated(m0, t0, links0, offset, requested, false)
    {
      hide ShortList;
      LiveBelowFrame(m0, m1, mem[..], t0, links0, |m0| - 4, mem.Length);
    }

    lemma ObtainedTiles(t0: map<nat, nat>, links0: map<nat, nat>, offset: nat, requested: nat)
      requires Valid() && Obtained(t0.Keys - links0.Keys, t0, offset, requested)
      ensures TileableWith(mem[..], freeOffset, LiveBlocks(t0, links0), offset)
    {
      hide Good;
      var live := LiveBlocks(t0, links0)[offset := tiles[offset]];
      assert LiveBlocks(tiles, links).Keys == live.Keys;
      assert LiveBlocks(tiles, links) == live;
    }

    /** dyn_pool_alloc again and again in a pool with one free block: requests that leave more than 12 bytes of it get
        consecutive blocks of exactly their size, in order and without the system. */
    method AllocAll(requests: seq<nat>) returns (offsets: seq<nat>)
      requires Valid() && |fl| == 1 && fl[0] in tiles
      requires (forall i :: 0 <= i < |requests| ==> requests[i] >= 4) && BlockSum(requests) + 12 < tiles[fl[0]]
      modifies this`mem, this`freeOffset, this`tiles, this`links, this`fl, mem
      ensures Valid() && mem == old(mem) && |offsets| == |requests|
      ensures forall i :: 0 <= i < |offsets| ==> offsets[i] == old(fl)[0] + BlockSum(requests[..i])
      ensures forall i :: 0 <= i < |offsets| ==>
                offsets[i] in Live() && offsets[i] in tiles && tiles[offsets[i]] == requests[i] + HEADER
      ensures tiles == CutOff(old(tiles), old(fl)[0], requests, |requests|)
      ensures fl == [old(fl)[0] + BlockSum(requests)]
    {
      hide *;
      ghost var t0, f := tiles, fl[0];
      offsets := [];
      NothingCut(t0, f, requests);
      var n := 0;
      while n < |requests|
        invariant Valid() && mem == old(mem) && 0 <= n == |offsets| <= |requests|
        invariant forall i :: 0 <= i < n ==> offsets[i] == f + BlockSum(requests[..i])
        invariant f in t0 && tiles == CutOff(t0, f, requests, n) && fl == [f + BlockSum(requests[..n])]
      {
        RoomForNext(t0, f, requests, n);
        ghost var m1, t1, links1, l1 := mem[..], tiles, links, fl;
        var offset := Alloc(requests[n], false);
        AllocatedValid(m1, t1, links1, offset, requests[n]);
        NextCut(t0, f, requests, n, t1, l1, offset);
        offsets := offsets + [offset];
        n := n + 1;
      }
      assert requests[..n] == requests;
      forall i | 0 <= i < n
        ensures offsets[i] in Live() && offsets[i] in tiles && tiles[offsets[i]] == requests[i] + HEADER
      {
        CutSizes(t0, f, requests, i, n);
        OnlyFree(offsets[i]);
      }
    }

    lemma AllocatedValid(m0: seq<byte>, t0: map<nat, nat>, links0: map<nat, nat>, offset: nat, requested: nat)
      requires Allocated(m0, t0, links0, offset, requested, true)
      ensures Valid()
    {
      hide Good, Obtained, Kept;
    }

    lemma OnlyFree(o: nat)
      requires Valid() && |fl| == 1 && o in tiles && o != fl[0]
      ensures o in Live()
    {
      hide Word;
      assert o in links <==> o in fl;
    }

    static lemma {:induction false} CutSizes(t0: map<nat, nat>, f: nat, requests: seq<nat>, i: nat, n: nat)
      requires f in t0 && i < n <= |requests| && BlockSum(requests) <= t0[f]
      ensures var o, t := f + BlockSum(requests[..i]), CutOff(t0, f, requests, n);
              o in t && t[o] == requests[i] + HEADER && o != f + BlockSum(requests[..n])
      decreases n
    {
      PrefixSum(requests, n - 1);
      PrefixSum(requests, i);
      if i < n - 1 { CutSizes(t0, f, requests, i, n - 1); SumsGrow(requests, i, n - 1); }
    }

    static lemma {:induction false} SumsGrow(requests: seq<nat>, i: nat, n: nat)
      requires i < n <= |requests|
      ensures BlockSum(requests[..i]) + HEADER <= BlockSum(requests[..n])
      decreases n
    {
      PrefixSum(requests, n - 1);
      if i < n - 1 { SumsGrow(requests, i, n - 1); }
    }

    /** The sizes of the blocks for these requests. */
    static function BlockSum(requests: seq<nat>): nat {
      if requests == [] then 0 else BlockSum(requests[..|requests| - 1]) + requests[|requests| - 1] + HEADER
    }

    /** Block f after the first n requests were cut off it. */
    static ghost function CutOff(t0: map<nat, nat>, f: nat, requests: seq<nat>, n: nat): map<nat, nat>
      requires f in t0 && n <= |requests|
    {
      if n == 0 then t0
      else
        var o := f + BlockSum(requests[..n - 1]);
        var rest := t0[f] - BlockSum(requests[..n]);
        var size := requests[n - 1] + HEADER;
        CutOff(t0, f, requests, n - 1)[o := size][o + size := if rest >= 0 then rest else 0]
    }

    lemma NothingCut(t0: map<nat, nat>, f: nat, requests: seq<nat>)
      requires f in t0
      ensures CutOff(t0, f, requests, 0) == t0 && BlockSum(requests[..0]) == 0
    {}

    static lemma {:induction false} PrefixSum(requests: seq<nat>, n: nat)
      requires n <= |requests|
      ensures BlockSum(requests[..n]) <= BlockSum(requests)
      ensures n < |requests| ==> BlockSum(requests[..n + 1]) == BlockSum(requests[..n]) + requests[n] + HEADER
      ensures n < |requests| ==> BlockSum(requests[..n + 1]) <= BlockSum(requests)
      decreases |requests| - n
    {
      if n < |requests| {
        assert requests[..n + 1][..n] == requests[..n];
        PrefixSum(requests, n + 1);
      } else {
        assert requests[..n] == requests;
      }
    }

    lemma RoomForNext(t0: map<nat, nat>, f: nat, requests: seq<nat>, n: nat)
      requires Valid() && f in t0 && n < |requests| && requests[n] >= 4 && BlockSum(requests) + 12 < t0[f]
      requires tiles == CutOff(t0, f, requests, n) && fl == [f + BlockSum(requests[..n])]
      ensures !NoFit(requests[n] + HEADER) && BlocksFor(requests[n]) == tiles && Accommodates(requests[n])
    {
      PrefixSum(requests, n);
      LastCut(t0, f, requests, n);
      hide Good, Get, CutOff;
      FreeBlockAt(0);
      HasRoom(0, requests[n] + HEADER);
    }

    static lemma LastCut(t0: map<nat, nat>, f: nat, requests: seq<nat>, n: nat)
      requires f in t0 && n <= |requests| && BlockSum(requests) <= t0[f]
      ensures var o, t := f + BlockSum(requests[..n]), CutOff(t0, f, requests, n);
              o in t && t[o] == t0[f] - BlockSum(requests[..n])
    {
      PrefixSum(requests, n);
      if n > 0 { PrefixSum(requests, n - 1); }
    }

    lemma NextCut(t0: map<nat, nat>, f: nat, requests: seq<nat>, n: nat, t1: map<nat, nat>, l1: seq<nat>, offset: nat)
      requires f in t0 && n < |requests| && BlockSum(requests) + 12 < t0[f]
      requires t1 == CutOff(t0, f, requests, n) && l1 == [f + BlockSum(requests[..n])]
      requires Placed(t1, l1, requests[n] + HEADER, offset)
      ensures offset == f + BlockSum(requests[..n])
      ensures tiles == CutOff(t0, f, requests, n + 1) && fl == [f + BlockSum(requests[..n + 1])]
    {
      PrefixSum(requests, n);
      LastCut(t0, f, requests, n);
    }

    static ghost predicate SameSizes(live: set<nat>, t0: map<nat, nat>, t: map<nat, nat>) {
      forall o :: o in live ==> o in t0 && o in t && t[o] == t0[o]
    }

    /** The second search of dyn_pool_alloc, in a pool that was enlarged. */
    method Retry(requested: nat, ghost m0: seq<byte>, ghost t0: map<nat, nat>, ghost links0: map<nat, nat>,
                 ghost good: bool)
        returns (offset: nat)
      requires Walkable() && !NoFit(requested + HEADER) && requested >= 4
      requires good ==>
                 Valid() && LiveBlocks(tiles, links) == LiveBlocks(t0, links0) && Kept(m0, mem[..], tiles, Live())
      requires !good ==> 8 <= |m0| && |fl| == 1 && fl[0] == |m0| - 4 && LiveBelow(m0, mem[..], t0, links0)
      modifies this`freeOffset, this`tiles, this`links, this`fl, mem
      ensures offset != NIL && Allocated(m0, t0, links0, offset, requested, good)
      ensures good ==> Placed(old(tiles), old(fl), requested + HEADER, offset)
    {
      hide *;
      ghost var m1, t1, live1 := mem[..], tiles, Live();
      Constants();
      OnlyFit(requested + 4);
      if good { StillLive(t0, links0); }
      offset := AllocInternal(requested);
      if good {
        RetriedGood(m0, m1, t0, t1, live1, offset, requested);
        FoundRoom(m0, t0, links0, offset, requested);
      } else {
        FoundMisplaced(m0, t0, links0, m1, offset, requested);
      }
    }

    /** On a list of one block there is only one that can be found. */
    lemma OnlyFit(size: nat)
      ensures |fl| == 1 ==> forall k: nat :: FirstFit(size, k) ==> k == 0
    {
      hide Get;
    }

    lemma RetriedGood(m0: seq<byte>, m1: seq<byte>, t0: map<nat, nat>, t1: map<nat, nat>, live0: set<nat>,
                      offset: nat, requested: nat)
      requires Kept(m0, m1, t1, live0) && Kept(m1, mem[..], t1, live0) && SameSizes(live0, t0, t1)
      requires Obtained(live0, t1, offset, requested)
      ensures Kept(m0, mem[..], t0, live0) && Obtained(live0, t0, offset, requested)
    {
      hide Kept;
      KeptTransitive(m0, m1, mem[..], t1, live0);
      KeptFewer(m0, mem[..], t1, live0, t0, live0);
    }

    /** dyn_pool_alloc_set with initial value 0: allocates and zeroes the requested bytes. */
    method AllocSet(amount: nat, granted: bool) returns (offset: nat)
      requires Valid() && amount >= 4
      modifies this`mem, this`freeOffset, this`tiles, this`links, this`fl, mem
      ensures mem == old(mem) || fresh(mem)
      ensures offset == NIL <==> old(NoFit(amount + HEADER) && !CanGrow(amount, granted))
      ensures offset == NIL ==> mem == old(mem) && mem[..] == old(mem[..]) && Valid() && Live() == old(Live())
      ensures offset != NIL ==> Blank(mem[..], offset + HEADER, amount)
      ensures offset != NIL ==>
                (old(Accommodates(amount))
                 <==> TileableWith(mem[..], freeOffset, old(LiveBlocks(tiles, links)), offset))
      ensures offset != NIL ==>
                Allocated(old(mem[..]), old(tiles), old(links), offset, amount, old(Accommodates(amount)))
      ensures offset != NIL && old(Accommodates(amount)) ==>
                Placed(old(BlocksFor(amount)), old(fl), amount + HEADER, offset)
    {
      hide *;
      ghost var m0, h0, t0, links0, l0, good := mem[..], freeOffset, tiles, links, fl, Accommodates(amount);
      IsGood();
      Accommodating(amount);
      offset := Alloc(amount, granted);
      if offset != NIL {
        ghost var m1 := mem[..];
        PayloadInside(m0, t0, links0, offset, amount, good);
        Zero(mem, offset + 4, amount);
        BlankIs(offset, amount);
        PayloadWritten(m0, t0, links0, m1, offset, amount, good, offset + 4, offset + 4 + amount);
        AllocatedTiles(m0, h0, t0, links0, l0, offset, amount, good);
      }
    }

    lemma PayloadInside(m0: seq<byte>, t0: map<nat, nat>, links0: map<nat, nat>, offset: nat, amount: nat,
                        accommodated: bool)
      requires Allocated(m0, t0, links0, offset, amount, accommodated)
      ensures offset + 4 + amount <= mem.Length < 0xFFFF_FFFF
      ensures AllocatedIn(m0, t0, links0, mem[..], offset, amount, accommodated)
    {
      hide Tiling, Encodes, Chain, Obtained, Kept, LiveBelow, Read32;
    }

    /** The same of the bytes m, the other fields being what they are. */
    ghost predicate AllocatedIn(m0: seq<byte>, t0: map<nat, nat>, links0: map<nat, nat>, m: seq<byte>, offset: nat,
                                amount: nat, accommodated: bool)
      reads this
    {
      && offset + amount + HEADER <= |m|
      && if accommodated then
           && Good(m, freeOffset, tiles, links, fl) && Obtained(t0.Keys - links0.Keys, t0, offset, amount)
           && Kept(m0, m, t0, t0.Keys - links0.Keys)
         else
           8 <= |m0| && offset == |m0| - 4 && Spoilt(m0, t0, links0, m, freeOffset, fl, amount)
    }

    /** Writing the new payload changes nothing of this. */
    lemma PayloadWritten(m0: seq<byte>, t0: map<nat, nat>, links0: map<nat, nat>, m1: seq<byte>, offset: nat,
                         amount: nat, accommodated: bool, from: nat, to: nat)
      requires AllocatedIn(m0, t0, links0, m1, offset, amount, accommodated)
      requires ChangedWithin(m1, mem[..], from, to) && offset + 4 <= from <= to <= offset + 4 + amount
      ensures Allocated(m0, t0, links0, offset, amount, accommodated)
      ensures AllocatedIn(m0, t0, links0, mem[..], offset, amount, accommodated)
    {
      LengthKept(m1, mem[..], from, to);
      hide ChangedWithin, Good, Obtained, Kept, Spoilt;
      if accommodated {
        var live0 := t0.Keys - links0.Keys;
        UnpackObtained(live0, t0, offset, amount);
        Within(m1, mem[..], from, to, offset + HEADER, offset + tiles[offset]);
        FilledPayload(m1, offset);
        KeptFewer(m1, mem[..], tiles, Live() - {offset}, t0, live0);
        KeptTransitive(m0, m1, mem[..], t0, live0);
      } else {
        SpoiltFrame(m0, t0, links0, m1, mem[..], freeOffset, fl, amount, from, to);
      }
    }

    lemma Within(m: seq<byte>, m': seq<byte>, from: nat, to: nat, a: nat, b: nat)
      requires ChangedWithin(m, m', from, to) && a <= from && to <= b
      ensures ChangedWithin(m, m', a, b)
    {}

    lemma UnpackObtained(live: set<nat>, sizes: map<nat, nat>, offset: nat, requested: nat)
      requires Obtained(live, sizes, offset, requested)
      ensures offset in Live() && offset in tiles && requested + HEADER <= tiles[offset] <= requested + HEADER + 12
      ensures Live() == live + {offset} && Live() - {offset} == live && offset !in live
      ensures live <= tiles.Keys && forall o :: o in live && o in sizes ==> tiles[o] == sizes[o]
    {}

    lemma IsGood()
      requires Valid()
      ensures Good(mem[..], freeOffset, tiles, links, fl)
    {}

    /** memset. */
    static method Zero(mem: array<byte>, from: nat, count: nat)
      requires from + count <= mem.Length
      modifies mem
      ensures Blank(mem[..], from, count) && ChangedWithin(old(mem[..]), mem[..], from, from + count)
    {
      forall b | from <= b < from + count {
        mem[b] := 0;
      }
    }

    static ghost predicate Blank(m: seq<byte>, from: nat, count: nat) {
      from + count <= |m| && forall b :: from <= b < from + count ==> m[b] == 0
    }

    lemma BlankIs(offset: nat, amount: nat)
      requires Blank(mem[..], offset + 4, amount)
      ensures Blank(mem[..], offset + HEADER, amount)
    {}

    /** The pool stays valid while the payload of live block `o` is written. */
    lemma FilledPayload(m1: seq<byte>, o: nat)
      requires Good(m1, freeOffset, tiles, links, fl) && o in Live()
      requires ChangedWithin(m1, mem[..], o + HEADER, o + tiles[o])
      ensures Valid() && Kept(m1, mem[..], tiles, Live() - {o})
    {
      PayloadEncodes(m1, mem[..], freeOffset, tiles, links, fl, o);
      PayloadKeeps(m1, mem[..], freeOffset, tiles, links, fl, o);
    }

    /** The free block that the walk finds starts where the block ends and has room for the rest. */
    ghost predicate ExtendsInto(offset: nat, newSize: nat, k: nat)
      reads this
    {
      && WalkedTo(offset, k) && offset in tiles && fl[k] in tiles
      && offset + tiles[offset] == fl[k] && newSize + HEADER <= tiles[offset] + tiles[fl[k]]
    }

    /** The block keeps its place: it is big enough by the source's test, or it can be extended. */
    ghost predicate StaysPut(offset: nat, newSize: nat)
      reads this
    {
      (offset in tiles && newSize < tiles[offset]) || exists k: nat :: ExtendsInto(offset, newSize, k)
    }

    /** A reallocation keeps the block in place, or finds room elsewhere, or makes room by enlarging the pool. */
    ghost predicate MemoryFor(offset: nat, newSize: nat, granted: bool)
      reads this, mem
    {
      StaysPut(offset, newSize) || !NoFit(newSize + 2 * HEADER) || CanGrow(newSize + HEADER, granted)
    }

    /** It does so without the misplaced block of dyn_pool_resize. */
    ghost predicate CanRealloc(offset: nat, newSize: nat, granted: bool)
      reads this, mem
    {
      MemoryFor(offset, newSize, granted) && (StaysPut(offset, newSize) || Accommodates(newSize + HEADER))
    }

    /** What a reallocation leaves of a pool with bytes `m0`, blocks `t0` and live blocks `live0`: the
        old payload is a prefix of the new one, and every other live block is where it was, with the
        size and payload it had. */
    ghost predicate Reallocated(m0: seq<byte>, t0: map<nat, nat>, live0: set<nat>, offset: nat, ret: nat)
      reads this, mem
    {
      && ret in Live() && Live() - {ret} == live0 - {offset}
      && (forall o :: o in live0 && o != offset && o in t0 ==> o in tiles && tiles[o] == t0[o])
      && Kept(m0, mem[..], t0, live0 - {offset})
      && offset in t0 && t0[offset] <= tiles[ret]
      && CopiedBytes(m0, mem[..], offset + HEADER, ret + HEADER, t0[offset] - HEADER)
    }

    /** Whether a reallocation is possible, found out without changing anything. */
    method ForeseeRealloc(offset: nat, newSize: nat, granted: bool) returns (possible: bool)
      requires Valid() && offset in Live() && offset in tiles
      ensures possible <==> CanRealloc(offset, newSize, granted)
    {
      hide Good, Walkable, GoodNode, NoFit, LastIsFree, StaysPut, CanGrow, Get, Behind, Slot, FirstFit;
      SizeAt(offset);
      ValidWalkable();
      if Get(offset) > newSize {
        BigEnough(offset, newSize);
        return true;
      }
      var _, _, inPlace, _ := FindBehind(offset, newSize);
      if inPlace {
        return true;
      }
      var _, fit, _ := Search(newSize + 2 * HEADER);
      if fit != NIL {
        return true;
      }
      var ends := EndsWithFree();
      possible := ends && CanGrow(newSize + HEADER, granted);
    }

    /** The test of dyn_pool_resize for extending the last block of the list. */
    method EndsWithFree() returns (ends: bool)
      requires Valid()
      ensures ends <==> LastIsFree(mem.Length, tiles, fl)
    {
      hide Good, GoodNode, Get;
      ValidWalkable();
      if freeOffset == NIL {
        return false;
      }
      LastEnds();
      var last := FindLast();
      ends := last + Get(last) == mem.Length;
    }

    /** dyn_pool_realloc.  A block that the walk can extend grows in place; otherwise a new block is
        allocated, the payload copied and the old block freed.  The other blocks and the reallocated one tile
        the region afterwards if and only if the block stays or the new one was accommodated. */
    method Realloc(offset: nat, newSize: nat, granted: bool) returns (ret: nat)
      requires Valid() && offset in Live() && MemoryFor(offset, newSize, granted)
      modifies this`mem, this`freeOffset, this`tiles, this`links, this`fl, mem
      ensures mem == old(mem) || fresh(mem)
      ensures old(CanRealloc(offset, newSize, granted))
         <==> TileableWith(mem[..], freeOffset, old(LiveBlocks(tiles, links)) - {offset}, ret)
      ensures old(CanRealloc(offset, newSize, granted)) ==>
                Valid() && Reallocated(old(mem[..]), old(tiles), old(Live()), offset, ret)
                && (ret != offset ==> newSize + 2 * HEADER <= tiles[ret] <= newSize + 2 * HEADER + 12)
                && (newSize + HEADER <= tiles[ret] <==> !(newSize < old(tiles)[offset] < newSize + HEADER))
      ensures !old(CanRealloc(offset, newSize, granted)) ==>
                Displaced(old(mem[..]), old(tiles), old(links), offset, mem[..], freeOffset, ret, newSize + HEADER)
      ensures ret == offset <==> old(StaysPut(offset, newSize))
      ensures ret == offset && old(tiles)[offset] <= newSize ==>
                exists k: nat ::
                  old(ExtendsInto(offset, newSize, k)) && GrewInto(old(tiles), old(fl), offset, k, newSize)
      ensures newSize < old(tiles)[offset] ==>
                mem == old(mem) && mem[..] == old(mem[..]) && freeOffset == old(freeOffset)
                && tiles == old(tiles) && links == old(links) && fl == old(fl)
    {
      hide Good, Kept, Reallocated, Accommodates, NoFit, CanGrow, Behind, StaysPut, Get, Displaced, TileableWith,
           LiveBlocks, GrewInto, ExtendsInto;
      ghost var m0, t0, links0, live0 := mem[..], tiles, links, Live();
      SizeAt(offset);
      if Get(offset) > newSize {
        Unmoved(m0, t0, live0, offset);
        BigEnough(offset, newSize);
        ReallocatedTiles(m0, t0, links0, offset, offset);
        return offset;
      }
      var previous, next, inPlace, k := FindBehind(offset, newSize);
      if inPlace {
        GrowInPlace(offset, previous, next, newSize, k);
        ret := offset;
        ReallocatedTiles(m0, t0, links0, offset, ret);
      } else {
        ret := Move(offset, newSize + 4, granted);
      }
    }

    lemma ReallocatedTiles(m0: seq<byte>, t0: map<nat, nat>, links0: map<nat, nat>, offset: nat, ret: nat)
      requires Valid() && Reallocated(m0, t0, t0.Keys - links0.Keys, offset, ret)
      ensures TileableWith(mem[..], freeOffset, LiveBlocks(t0, links0) - {offset}, ret)
    {
      hide Good, Kept, CopiedBytes;
      OthersTile(t0, links0, offset, ret);
    }

    /** Block `ret` and the others that were live are the live blocks. */
    lemma OthersTile(t0: map<nat, nat>, links0: map<nat, nat>, offset: nat, ret: nat)
      requires Valid() && ret in Live() && Live() - {ret} == t0.Keys - links0.Keys - {offset}
      requires forall o :: o in t0.Keys - links0.Keys && o != offset && o in t0 ==> o in tiles && tiles[o] == t0[o]
      ensures TileableWith(mem[..], freeOffset, LiveBlocks(t0, links0) - {offset}, ret)
    {
      hide Good;
      var live := (LiveBlocks(t0, links0) - {offset})[ret := tiles[ret]];
      forall o ensures o in LiveBlocks(tiles, links) <==> o in live {
        assert o in Live() - {ret} <==> o in t0.Keys - links0.Keys - {offset};
      }
      assert LiveBlocks(tiles, links) == live;
    }

    lemma BigEnough(offset: nat, newSize: nat)
      requires offset in tiles && newSize < tiles[offset]
      ensures StaysPut(offset, newSize)
    {}

    lemma Unmoved(m0: seq<byte>, t0: map<nat, nat>, live0: set<nat>, offset: nat)
      requires Valid() && m0 == mem[..] && t0 == tiles && live0 == Live() && offset in Live()
      ensures Reallocated(m0, t0, live0, offset, offset)
    {
      KeptReflexive(mem[..], freeOffset, tiles, links, fl);
      SizeAt(offset);
    }

    /** What growing into the k-th free block relies on. */
    ghost predicate Behind(offset: nat, previous: nat, next: nat, k: nat)
      reads this, mem
    {
      && offset in tiles && offset !in links && offset + 4 <= mem.Length && Get(offset) == tiles[offset]
      && k < |fl| && next == fl[k] && next in tiles && next + 8 <= mem.Length && Get(next) == tiles[next]
      && previous == At(fl, k - 1) && Get(next + 4) == At(fl, k + 1) && Get(next + 4) <= NIL
      && (k > 0 ==> previous == fl[k - 1] < NIL && previous + 8 <= mem.Length)
      && offset + tiles[offset] == next && MIN_BLOCK <= tiles[offset] && MIN_BLOCK <= tiles[next]
      && next + tiles[next] <= mem.Length < NIL
    }

    /** The test of dyn_pool_realloc for growing in place. */
    method FindBehind(offset: nat, newSize: nat) returns (previous: nat, next: nat, inPlace: bool, ghost k: nat)
      requires Valid() && offset in Live() && offset in tiles && tiles[offset] <= newSize
      ensures inPlace <==> StaysPut(offset, newSize)
      ensures inPlace ==> Behind(offset, previous, next, k) && newSize + HEADER <= tiles[offset] + tiles[next]
      ensures inPlace ==> ExtendsInto(offset, newSize, k)
    {
      hide Good, Walkable, GoodNode, Get;
      SizeAt(offset);
      ValidWalkable();
      previous, next, k := FindAdjacent(offset);
      if k < |fl| {
        SlotAt(k);
        SlotInTiles(k);
        SizeAt(next);
      }
      var size := Get(offset);
      inPlace := next != NIL && next == offset + size && Get(next) >= newSize + 4 - size;
      if inPlace {
        assert ExtendsInto(offset, newSize, k);
      } else {
        forall k': nat | ExtendsInto(offset, newSize, k') ensures false {
          OneStop(offset, k, k');
        }
      }
    }

    /** The walk stops at one place only. */
    lemma OneStop(offset: nat, k: nat, k': nat)
      requires k < |fl| ==> WalkedTo(offset, k)
      requires k >= |fl| ==> fl == []
      requires WalkedTo(offset, k')
      ensures k == k'
    {}

    /** The block took what it asked for from block k of the list, right behind it, whose rest keeps its place on the
        list if it is more than eight bytes and goes to the block as well otherwise. */
    ghost predicate GrewInto(t0: map<nat, nat>, l0: seq<nat>, offset: nat, k: nat, newSize: nat)
      reads this
    {
      && k < |l0| && offset in t0 && l0[k] in t0 && newSize + HEADER <= t0[offset] + t0[l0[k]]
      && var next, end, rest := l0[k], offset + newSize + HEADER, t0[offset] + t0[l0[k]] - (newSize + HEADER);
         if rest > 8 then tiles == (t0 - {next})[end := rest][offset := newSize + HEADER] && fl == l0[k := end]
         else tiles == (t0 - {next})[offset := t0[offset] + t0[next]] && fl == l0[..k] + l0[k + 1..]
    }

    /** dyn_pool_realloc, the block behind being big enough. */
    method GrowInPlace(offset: nat, previous: nat, next: nat, newSize: nat, ghost k: nat)
      requires Valid() && Behind(offset, previous, next, k)
      requires tiles[offset] <= newSize && newSize + HEADER <= tiles[offset] + tiles[next]
      modifies this`freeOffset, this`tiles, this`links, this`fl, mem
      ensures Valid() && Reallocated(old(mem[..]), old(tiles), old(Live()), offset, offset)
      ensures newSize + HEADER <= tiles[offset] && GrewInto(old(tiles), old(fl), offset, k, newSize)
    {
      hide *;
      ghost var m0, t0, l0, live0 := mem[..], tiles, fl, Live();
      Constants();
      IsGood();
      BehindFacts(offset, previous, next, k);
      var rem := Get(offset) + Get(next) - (newSize + 4);
      if rem > 8 {
        ShiftInto(offset, previous, next, newSize + 4 - Get(offset), k);
        FinishGrow(m0, t0, live0, offset, newSize + 4 - t0[offset]);
        GrewPart(t0, l0, offset, k, newSize);
      } else {
        Swallow(offset, previous, next, k);
        FinishGrow(m0, t0, live0, offset, t0[next]);
        GrewAll(t0, l0, offset, k, newSize);
      }
    }

    lemma BehindFacts(offset: nat, previous: nat, next: nat, k: nat)
      requires Valid() && Behind(offset, previous, next, k)
      ensures offset in tiles && offset !in links && offset + 4 <= mem.Length && Get(offset) == tiles[offset]
      ensures k < |fl| && next == fl[k] && next in tiles && next + 8 <= mem.Length && Get(next) == tiles[next]
      ensures previous == At(fl, k - 1) && Get(next + 4) == At(fl, k + 1) && Get(next + 4) <= NIL
      ensures k > 0 ==> previous == fl[k - 1] < NIL && previous + 8 <= mem.Length
      ensures offset + tiles[offset] == next && offset < next && 8 <= tiles[offset] && 8 <= tiles[next]
      ensures next + tiles[next] <= mem.Length < NIL
      ensures offset in Live() && Live() == tiles.Keys - links.Keys
    {
      hide Good, Get;
    }

    lemma GrewPart(t0: map<nat, nat>, l0: seq<nat>, offset: nat, k: nat, newSize: nat)
      requires k < |l0| && offset in t0 && l0[k] in t0 && offset + t0[offset] == l0[k]
      requires t0[offset] <= newSize + 4 && newSize + 4 + 8 < t0[offset] + t0[l0[k]]
      requires var next, delta := l0[k], newSize + 4 - t0[offset];
               tiles == (t0 - {next})[next + delta := t0[next] - delta][offset := t0[offset] + delta]
               && fl == l0[k := next + delta]
      ensures GrewInto(t0, l0, offset, k, newSize)
    {}

    lemma GrewAll(t0: map<nat, nat>, l0: seq<nat>, offset: nat, k: nat, newSize: nat)
      requires k < |l0| && offset in t0 && l0[k] in t0
      requires newSize + 4 <= t0[offset] + t0[l0[k]] <= newSize + 12
      requires tiles == (t0 - {l0[k]})[offset := t0[offset] + t0[l0[k]]] && fl == Without(l0, k)
      ensures GrewInto(t0, l0, offset, k, newSize)
    {}

    lemma FinishGrow(m0: seq<byte>, t0: map<nat, nat>, live0: set<nat>, offset: nat, delta: nat)
      requires Grown(t0, live0, offset, delta) && offset in live0 && offset in t0 && HEADER <= t0[offset]
      requires Kept(m0, mem[..], t0, live0) && Good(mem[..], freeOffset, tiles, links, fl)
      ensures Reallocated(m0, t0, live0, offset, offset) && offset in tiles && tiles[offset] == t0[offset] + delta
      ensures Valid()
    {
      hide Good;
      KeptIsCopied(m0, mem[..], t0, live0, offset);
      KeptFewer(m0, mem[..], t0, live0, t0, live0 - {offset});
    }

    /** The block takes `delta` bytes from the free block behind it, which stays on the list. */
    method ShiftInto(offset: nat, previous: nat, next: nat, delta: nat, ghost k: nat)
      requires Good(mem[..], freeOffset, tiles, links, fl)
      requires offset in tiles && offset !in links && offset + 4 <= mem.Length && Get(offset) == tiles[offset]
      requires k < |fl| && next == fl[k] && next in tiles && next + 8 <= mem.Length && Get(next) == tiles[next]
      requires previous == At(fl, k - 1) && Get(next + 4) == At(fl, k + 1) && Get(next + 4) <= NIL
      requires k > 0 ==> previous == fl[k - 1] < NIL && previous + 8 <= mem.Length
      requires offset + tiles[offset] == next && 0 < delta && delta + MIN_BLOCK <= tiles[next]
      requires next + tiles[next] <= mem.Length < NIL
      modifies this`freeOffset, this`tiles, this`links, this`fl, mem
      ensures Good(mem[..], freeOffset, tiles, links, fl)
      ensures Grown(old(tiles), old(tiles).Keys - old(links).Keys, offset, delta)
      ensures tiles
              == (old(tiles) - {next})[next + delta := old(tiles)[next] - delta][offset := old(tiles)[offset] + delta]
      ensures fl == old(fl)[k := next + delta]
      ensures Kept(old(mem[..]), mem[..], old(tiles), old(tiles).Keys - old(links).Keys)
    {
      hide *;
      ghost var h, m0, t, links0, l, n, q := freeOffset, mem[..], tiles, links, fl, At(fl, k + 1), next + delta;
      Constants();
      var rem, size, oldNext := Get(next) - delta, Get(offset) + delta, Get(next + 4);
      Put(next + delta, rem);
      ghost var m1 := mem[..];
      Put(offset, size);
      ghost var m2 := mem[..];
      Put(next + delta + 4, oldNext);
      ghost var m3 := mem[..];
      SetLink(previous, next + delta, k);
      ShiftStep(m0, m1, m2, m3, mem[..], h, t, links0, l, k, offset, delta);
      ShiftKeeps(m0, m1, m2, m3, mem[..], h, t, links0, l, k, offset, delta);
      ShiftFacts(m0, h, t, links0, l, k, offset, delta);
      ShiftKeys(t, offset, next, delta);
      tiles := Shift(t, offset, next, delta);
      links := Relink((links0 - {next})[q := n], l, k, q);
      fl := l[k := q];
      GrownIs(t, t.Keys - links0.Keys, offset, delta);
    }

    /** The block takes the whole of the free block behind it. */
    method Swallow(offset: nat, previous: nat, next: nat, ghost k: nat)
      requires Good(mem[..], freeOffset, tiles, links, fl)
      requires offset in tiles && offset !in links && offset + 4 <= mem.Length && Get(offset) == tiles[offset]
      requires k < |fl| && next == fl[k] && next in tiles && next + 8 <= mem.Length && Get(next) == tiles[next]
      requires previous == At(fl, k - 1) && Get(next + 4) == At(fl, k + 1) && Get(next + 4) <= NIL
      requires k > 0 ==> previous == fl[k - 1] < NIL && previous + 8 <= mem.Length
      requires offset + tiles[offset] == next && offset != next && tiles[offset] + tiles[next] < 0x1_0000_0000
      modifies this`freeOffset, this`tiles, this`links, this`fl, mem
      ensures Good(mem[..], freeOffset, tiles, links, fl)
      ensures Grown(old(tiles), old(tiles).Keys - old(links).Keys, offset, old(tiles)[next])
      ensures tiles == (old(tiles) - {next})[offset := old(tiles)[offset] + old(tiles)[next]]
              && fl == Without(old(fl), k)
      ensures Kept(old(mem[..]), mem[..], old(tiles), old(tiles).Keys - old(links).Keys)
    {
      hide *;
      ghost var h, m0, t, links0, l, n := freeOffset, mem[..], tiles, links, fl, At(fl, k + 1);
      var size := Get(offset) + Get(next);
      SetLink(previous, Get(next + 4), k);
      ghost var m1 := mem[..];
      Put(offset, size);
      SwallowStep(m0, m1, mem[..], h, t, links0, l, k, offset);
      SwallowKeeps(m0, m1, mem[..], h, t, links0, l, k, offset);
      SwallowFacts(m0, h, t, links0, l, k, offset);
      MergeIs(t, offset, next);
      tiles := Merge(t, offset, next);
      links := Relink(links0, l, k, n) - {next};
      fl := Without(l, k);
      GrownIs(t, t.Keys - links0.Keys, offset, t[next]);
    }

    /** The live blocks are the same, and only `offset` changed its size. */
    ghost predicate Grown(t: map<nat, nat>, live: set<nat>, offset: nat, delta: nat)
      reads this
    {
      && Live() == live && offset in t && offset in tiles && tiles[offset] == t[offset] + delta
      && forall o :: o in live && o in t && o != offset ==> o in tiles && tiles[o] == t[o]
    }

    lemma GrownIs(t: map<nat, nat>, live: set<nat>, offset: nat, delta: nat)
      requires tiles.Keys - links.Keys == live && offset in t && offset in tiles && tiles[offset] == t[offset] + delta
      requires forall o :: o in live && o in t && o != offset ==> o in tiles && tiles[o] == t[o]
      ensures Grown(t, live, offset, delta)
    {}

    /** The last resort of dyn_pool_realloc: `amount` bytes elsewhere, the payload copied, the old block
        freed.  Where the new block was misplaced, freeing the old one does not make up for it. */
    method Move(offset: nat, amount: nat, granted: bool) returns (ret: nat)
      requires Valid() && offset in Live() && offset in tiles && 4 <= amount
      requires HEADER <= tiles[offset] <= amount + HEADER
      requires !NoFit(amount + HEADER) || CanGrow(amount, granted)
      modifies this`mem, this`freeOffset, this`tiles, this`links, this`fl, mem
      ensures mem == old(mem) || fresh(mem)
      ensures old(Accommodates(amount))
         <==> TileableWith(mem[..], freeOffset, old(LiveBlocks(tiles, links)) - {offset}, ret)
      ensures old(Accommodates(amount)) ==> Valid() && Reallocated(old(mem[..]), old(tiles), old(Live()), offset, ret)
      ensures old(Accommodates(amount)) ==> ret in tiles && amount + HEADER <= tiles[ret] <= amount + HEADER + 12
      ensures !old(Accommodates(amount)) ==>
                Displaced(old(mem[..]), old(tiles), old(links), offset, mem[..], freeOffset, ret, amount)
      ensures ret != offset
    {
      hide *;
      ghost var m0, h0, t0, links0, l0, live0 := mem[..], freeOffset, tiles, links, fl, Live();
      ghost var good := Accommodates(amount);
      IsGood();
      Accommodating(amount);
      ret := AllocSet(amount, granted);
      ghost var m1, t1 := mem[..], tiles;
      CopyReady(m0, h0, t0, links0, l0, offset, ret, amount, good);
      CopyPayload(offset, ret, good);
      ghost var m2, h2, l2 := mem[..], freeOffset, fl;
      FreeReady(m0, h0, t0, links0, l0, m1, offset, ret, amount, good);
      FreeAs(offset, good);
      if good {
        LiveInTiles();
        ghost var others := live0 - {offset};
        KeptFewer(m0, m1, t0, live0, t0, others);
        KeptFewer(m1, m2, t1, live0 + {ret} - {ret}, t0, others);
        KeptFewer(m2, mem[..], tiles, Live(), t0, others);
        KeptThrice(m0, m1, m2, mem[..], t0, others);
        CopyBetween(m0, m1, m2, mem[..], t0, live0, tiles, Live(), offset, ret);
        PackReallocated(m0, t0, live0, offset, ret);
        ReallocatedTiles(m0, t0, links0, offset, ret);
      } else {
        DisplacedIs(m0, h0, t0, links0, l0, m1, h2, l2, amount, m2, mem[..], offset);
        DisplacedUntileable(m0, h0, t0, links0, l0, offset, ret, amount);
      }
    }

    /** Where the payload is and where it goes. */
    lemma CopyReady(m0: seq<byte>, h0: nat, t0: map<nat, nat>, links0: map<nat, nat>, l0: seq<nat>,
                    offset: nat, ret: nat, amount: nat, accommodated: bool)
      requires Good(m0, h0, t0, links0, l0) && Allocated(m0, t0, links0, ret, amount, accommodated)
      requires offset in t0 && offset !in links0 && HEADER <= t0[offset] <= amount + HEADER
      ensures CanCopy(offset, ret) && Get(offset) == t0[offset] && offset != ret
      ensures accommodated ==> Valid() && offset in Live() && ret in Live()
      ensures accommodated ==>
                ret in tiles && offset in tiles && tiles[offset] == t0[offset] && tiles[offset] <= tiles[ret]
      ensures accommodated ==> amount + HEADER <= tiles[ret] <= amount + HEADER + 12
      ensures accommodated ==> Live() == t0.Keys - links0.Keys + {ret} && ret !in t0.Keys - links0.Keys
      ensures accommodated ==> Kept(m0, mem[..], t0, t0.Keys - links0.Keys)
      ensures accommodated ==> forall o :: o in t0.Keys - links0.Keys && o in t0 ==> o in tiles && tiles[o] == t0[o]
      ensures !accommodated ==> Spoilt(m0, t0, links0, mem[..], freeOffset, fl, amount)
      ensures !accommodated ==> ret + 4 == ret + HEADER == |m0|
    {
      hide Good, Obtained, Kept, ShortList, LiveBelow, Get;
      if accommodated {
        UnpackObtained(t0.Keys - links0.Keys, t0, ret, amount);
        SizeAt(offset);
        SizeAt(ret);
        BlocksApart(offset, ret);
      } else {
        LiveHeader(m0, h0, t0, links0, l0, mem[..], offset);
        OffWord(m0, h0, t0, links0, l0, offset);
        GetIs(offset);
      }
    }

    lemma FreeReady(m0: seq<byte>, h0: nat, t0: map<nat, nat>, links0: map<nat, nat>, l0: seq<nat>, m1: seq<byte>,
                    offset: nat, ret: nat, amount: nat, accommodated: bool)
      requires Good(m0, h0, t0, links0, l0) && offset in t0 && offset !in links0 && t0[offset] <= amount + HEADER
      requires !accommodated ==> Spoilt(m0, t0, links0, m1, freeOffset, fl, amount) && ret + 4 == |m0|
      requires ChangedWithin(m1, mem[..], ret + HEADER, ret + t0[offset])
      ensures !accommodated ==> offset + MIN_BLOCK <= mem.Length && ShortList(mem[..], freeOffset, fl, offset)
    {
      hide Good, LiveBelow, Read32, ChangedWithin;
      if !accommodated {
        LengthKept(m1, mem[..], ret + HEADER, ret + t0[offset]);
        LiveHeader(m0, h0, t0, links0, l0, m1, offset);
        SpoiltFrame(m0, t0, links0, m1, mem[..], freeOffset, fl, amount, ret + HEADER, ret + t0[offset]);
      }
    }

    lemma DisplacedUntileable(m0: seq<byte>, h0: nat, t0: map<nat, nat>, links0: map<nat, nat>, l0: seq<nat>,
                              offset: nat, ret: nat, amount: nat)
      requires Good(m0, h0, t0, links0, l0) && !LastIsFree(|m0|, t0, l0)
      requires Displaced(m0, t0, links0, offset, mem[..], freeOffset, ret, amount)
      ensures !TileableWith(mem[..], freeOffset, LiveBlocks(t0, links0) - {offset}, ret)
    {
      hide Good, LastIsFree, LiveBelow, CopiedBytes, TileableWith, LiveBlocks, MovedList;
      MovedUntileable(m0, h0, t0, links0, l0, offset, mem[..], freeOffset, amount);
    }

    lemma PackReallocated(m0: seq<byte>, t0: map<nat, nat>, live0: set<nat>, offset: nat, ret: nat)
      requires ret in Live() && Live() - {ret} == live0 - {offset}
      requires forall o :: o in live0 && o != offset && o in t0 ==> o in tiles && tiles[o] == t0[o]
      requires Kept(m0, mem[..], t0, live0 - {offset})
      requires offset in t0 && ret in tiles && t0[offset] <= tiles[ret]
      requires CopiedBytes(m0, mem[..], offset + HEADER, ret + HEADER, t0[offset] - HEADER)
      ensures Reallocated(m0, t0, live0, offset, ret)
    {}

    lemma LiveInTiles()
      ensures Live() <= tiles.Keys
    {}

    /** The payload at `offset` can be copied to `ret`. */
    predicate CanCopy(offset: nat, ret: nat)
      reads this, mem
    {
      && offset + 4 <= mem.Length && HEADER <= Get(offset) && offset != ret
      && offset + Get(offset) <= mem.Length && ret + Get(offset) <= mem.Length
      && (offset + Get(offset) <= ret + HEADER || ret + Get(offset) <= offset + HEADER)
    }

    /** memcpy of the payload of one live block to another. */
    method CopyPayload(offset: nat, ret: nat, ghost good: bool)
      requires CanCopy(offset, ret)
      requires good ==> Valid() && offset in Live() && ret in Live() && offset in tiles && ret in tiles
      requires good ==> tiles[offset] == Get(offset) <= tiles[ret]
      modifies mem
      ensures good ==> Valid() && Kept(old(mem[..]), mem[..], tiles, Live() - {ret})
      ensures CopiedBytes(old(mem[..]), mem[..], offset + HEADER, ret + HEADER, old(Get(offset)) - HEADER)
      ensures ChangedWithin(old(mem[..]), mem[..], ret + HEADER, ret + old(Get(offset)))
    {
      hide Kept, CopiedBytes, Good, Get;
      ghost var m1 := mem[..];
      if good { IsGood(); }
      var count := Get(offset) - HEADER;
      CopyWithin(mem, offset + HEADER, ret + HEADER, count);
      if good { FilledPayload(m1, ret); }
    }

    /** memcpy between ranges that do not overlap. */
    static method CopyWithin(mem: array<byte>, from: nat, to: nat, count: nat)
      requires from + count <= mem.Length && to + count <= mem.Length && (from + count <= to || to + count <= from)
      modifies mem
      ensures CopiedBytes(old(mem[..]), mem[..], from, to, count)
      ensures ChangedWithin(old(mem[..]), mem[..], to, to + count)
    {
      forall i | 0 <= i < count {
        mem[to + i] := mem[from + i];
      }
      assert mem[to..to + count] == old(mem[from..from + count]);
    }

    lemma BlocksApart(o: nat, p: nat)
      requires Valid() && o in tiles && p in tiles && o != p
      ensures o + tiles[o] <= p || p + tiles[p] <= o
    {}
  }
}
