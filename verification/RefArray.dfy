/** datastructs/refarray.c: growable arrays in blocks of the dynamic pool, at the byte level. */
module RefArrays {
  import opened Tilings
  import opened DynLayouts
  import opened DynSpoils
  import opened DynOverruns
  import opened DynPools
  import opened ArrayLayouts

  class RefArray {
    const pool: DynPool
    var offset: nat   // targ_off of the reference

    /** The reference leads to a live block of the pool. */
    ghost predicate InPool()
      reads this, pool, pool.mem
    {
      && pool.Valid() && offset in pool.Live() && offset in pool.tiles
      && 16 <= pool.tiles[offset] && offset + pool.tiles[offset] <= pool.mem.Length < NIL
    }

    /** The array has these fields and elements, and its block room for the capacity. */
    ghost predicate Is(es: int, count: int, cap: int, data: seq<byte>)
      reads this, pool, pool.mem
    {
      && InPool() && Sized(es, count, cap, data, pool.tiles[offset])
      && ArrayAt(pool.mem[..], offset, es, count, cap, data, |data|, |data|)
    }

    function Field(at: nat): int
      requires offset + HEADER + at + 4 <= pool.mem.Length
      reads this, pool, pool.mem
    {
      pool.Get(offset + HEADER + at)
    }

    lemma FieldIs(at: nat)
      requires offset + 4 + at + 4 <= pool.mem.Length
      ensures offset + HEADER + at + 4 <= pool.mem.Length
      ensures 0 <= Field(at) == Read32(pool.mem[..], offset + 4 + at) < 0x1_0000_0000
    {
      assert Read32(pool.mem[..], offset + HEADER + at) == Field(at);
    }

    lemma FieldsAre(es: int, count: int, cap: int, data: seq<byte>)
      requires Is(es, count, cap, data)
      ensures offset + HEADER + 12 <= pool.mem.Length
      ensures Field(0) == es && Field(4) == count && Field(8) == cap && 1 <= es < 0x1_0000_0000 && 0 <= count <= cap
      ensures |data| == Area(es, count) <= Area(es, cap) && cap <= Area(es, cap)
      ensures count < cap ==> Area(es, count) + es <= Area(es, cap)
      ensures Area(es, count + 1) == Area(es, count) + es
      ensures Area(es, cap) + 16 <= pool.tiles[offset] && offset + pool.tiles[offset] <= pool.mem.Length < 0xFFFF_FFFF
      ensures offset in pool.tiles && offset in pool.Live() && 16 <= pool.tiles[offset]
      ensures pool.Valid() && offset !in pool.links && pool.Live() == pool.tiles.Keys - pool.links.Keys
    {
      hide Read32, DynPool.Valid, Field;
      Fits(es, count, cap);
      FieldIs(0);
      FieldIs(4);
      FieldIs(8);
    }

    /** The array as the bytes have it. */
    lemma Here(es: int, count: int, cap: int, data: seq<byte>)
      requires Is(es, count, cap, data)
      ensures ArrayAt(pool.mem[..], offset, es, count, cap, data, |data|, |data|)
      ensures MostAt(pool.mem[..], offset, es, count, data, |data|, |data|)
      ensures offset in pool.tiles && Sized(es, count, cap, data, pool.tiles[offset]) && 16 <= pool.tiles[offset]
      ensures |data| + 16 <= pool.tiles[offset] && offset + pool.tiles[offset] <= |pool.mem[..]|
    {
      Fits(es, count, cap);
    }

    lemma Packed(es: int, count: int, cap: int, data: seq<byte>)
      requires InPool() && Sized(es, count, cap, data, pool.tiles[offset])
      requires ArrayAt(pool.mem[..], offset, es, count, cap, data, |data|, |data|)
      ensures Is(es, count, cap, data)
    {}

    /** Every other live block keeps its payload. */
    ghost predicate OthersKept(m0: seq<byte>)
      reads this, pool, pool.mem
    {
      Kept(m0, pool.mem[..], pool.tiles, pool.Live() - {offset})
    }

    /** Writing the payload leaves the pool valid and every other block alone. */
    lemma Rewritten(m0: seq<byte>, from: nat, to: nat)
      requires Good(m0, pool.freeOffset, pool.tiles, pool.links, pool.fl)
      requires offset in pool.Live() && offset in pool.tiles && 16 <= pool.tiles[offset]
      requires ChangedWithin(m0, pool.mem[..], from, to) && offset + 4 <= from && to <= offset + pool.tiles[offset]
      ensures InPool() && OthersKept(m0)
    {
      hide Good;
      pool.FilledPayload(m0, offset);
      pool.SizeAt(offset);
    }

    static method CopyInto(mem: array<byte>, target: nat, element: seq<byte>)
      requires target + |element| <= mem.Length
      modifies mem
      ensures ChangedWithin(old(mem[..]), mem[..], target, target + |element|)
      ensures mem[..][target..target + |element|] == element
    {
      forall i | 0 <= i < |element| {
        mem[target + i] := element[i];
      }
    }

    /** ra_init_raw.  `granted` says whether the system would enlarge the pool.  The fields are as asked for in any
        case; the array has a block of its own if and only if that could be accommodated. */
    constructor (pool: DynPool, es: nat, cap: nat, granted: bool)
      requires pool.Valid() && 1 <= es < 0x1_0000_0000
      requires !pool.NoFit(SizeFor(es, cap) + HEADER) || pool.CanGrow(SizeFor(es, cap), granted)
      modifies pool`mem, pool`freeOffset, pool`tiles, pool`links, pool`fl, pool.mem
      ensures this.pool == pool && (pool.mem == old(pool.mem) || fresh(pool.mem))
      ensures ArrayAt(pool.mem[..], offset, es, 0, cap, [], 0, 0)
      ensures old(pool.Accommodates(SizeFor(es, cap)))
         <==> TileableWith(pool.mem[..], pool.freeOffset, old(LiveBlocks(pool.tiles, pool.links)), offset)
      ensures pool.Allocated(old(pool.mem[..]), old(pool.tiles), old(pool.links), offset, SizeFor(es, cap),
                             old(pool.Accommodates(SizeFor(es, cap))))
      ensures old(pool.Accommodates(SizeFor(es, cap))) ==>
                Is(es, 0, cap, []) && pool.Live() == old(pool.Live()) + {offset} && offset !in old(pool.Live())
                && Kept(old(pool.mem[..]), pool.mem[..], old(pool.tiles), old(pool.Live()))
    {
      hide *;
      this.pool := pool;
      offset := 0;
      new;
      Allocate(es, cap, SizeFor(es, cap), granted);
    }

    method Allocate(es: nat, cap: nat, bytes: nat, granted: bool)
      requires pool.Valid() && 1 <= es < 0x1_0000_0000 && bytes == SizeFor(es, cap)
      requires !pool.NoFit(bytes + HEADER) || pool.CanGrow(bytes, granted)
      modifies this, pool`mem, pool`freeOffset, pool`tiles, pool`links, pool`fl, pool.mem
      ensures pool.mem == old(pool.mem) || fresh(pool.mem)
      ensures ArrayAt(pool.mem[..], offset, es, 0, cap, [], 0, 0)
      ensures old(pool.Accommodates(bytes))
         <==> TileableWith(pool.mem[..], pool.freeOffset, old(LiveBlocks(pool.tiles, pool.links)), offset)
      ensures pool.Allocated(old(pool.mem[..]), old(pool.tiles), old(pool.links), offset, bytes,
                             old(pool.Accommodates(bytes)))
      ensures old(pool.Accommodates(bytes)) ==>
                Is(es, 0, cap, []) && pool.Live() == old(pool.Live()) + {offset} && offset !in old(pool.Live())
                && Kept(old(pool.mem[..]), pool.mem[..], old(pool.tiles), old(pool.Live()))
    {
      hide *;
      ghost var m0, h0, t0, links0, l0 := pool.mem[..], pool.freeOffset, pool.tiles, pool.links, pool.fl;
      ghost var good := pool.Accommodates(bytes);
      SizeIs(es, cap);
      pool.IsGood();
      pool.Accommodating(bytes);
      offset := pool.AllocSet(bytes, granted);
      ghost var m1 := pool.mem[..];
      pool.PayloadInside(m0, t0, links0, offset, bytes, good);
      Fits(es, 0, cap);
      pool.Put(offset + 4, es);
      ghost var m2 := pool.mem[..];
      pool.Put(offset + 12, cap);
      ghost var m3 := pool.mem[..];
      pool.Put(offset + 8, 0);
      NewFields(m1, m2, m3, pool.mem[..], offset, es, cap);
      pool.PayloadWritten(m0, t0, links0, m1, offset, bytes, good, offset + 4, offset + 16);
      pool.AllocatedTiles(m0, h0, t0, links0, l0, offset, bytes, good);
      if good { Obtained(m0, t0, links0, bytes, es, 0, cap, []); }
    }

    /** An allocation that was accommodated, with the bytes of an array in it. */
    lemma Obtained(m0: seq<byte>, t0: map<nat, nat>, links0: map<nat, nat>, bytes: nat,
                   es: nat, count: nat, cap: nat, data: seq<byte>)
      requires pool.Allocated(m0, t0, links0, offset, bytes, true) && bytes == SizeFor(es, cap)
      requires 1 <= es && count <= cap && |data| == Area(es, count)
      requires ArrayAt(pool.mem[..], offset, es, count, cap, data, |data|, |data|)
      ensures Is(es, count, cap, data) && pool.Live() == t0.Keys - links0.Keys + {offset}
      ensures offset !in t0.Keys - links0.Keys && Kept(m0, pool.mem[..], t0, t0.Keys - links0.Keys)
      ensures pool.Valid() && forall o :: o in t0.Keys - links0.Keys && o in t0 ==>
                o in pool.tiles && pool.tiles[o] == t0[o]
    {
      hide Good, Kept, ArrayAt;
      pool.UnpackObtained(t0.Keys - links0.Keys, t0, offset, bytes);
      pool.SizeAt(offset);
      SizeIs(es, cap);
    }

    /** What happened to the rest of the pool since it had bytes m0, blocks t0 and live blocks live0, when
        this array was at o0: every other live block is where it was, with its size and payload. */
    ghost predicate RestKept(m0: seq<byte>, t0: map<nat, nat>, live0: set<nat>, o0: nat)
      reads this, pool, pool.mem
    {
      && pool.Live() - {offset} == live0 - {o0}
      && (forall o :: o in live0 && o != o0 && o in t0 ==> o in pool.tiles && pool.tiles[o] == t0[o])
      && Kept(m0, pool.mem[..], t0, live0 - {o0})
    }

    lemma RestStays(m0: seq<byte>, t0: map<nat, nat>, live0: set<nat>, o0: nat, m1: seq<byte>)
      requires Kept(m0, m1, t0, live0 - {o0}) && OthersKept(m1) && pool.Live() - {offset} == live0 - {o0}
      requires forall o :: o in live0 && o != o0 && o in t0 ==> o in pool.tiles && pool.tiles[o] == t0[o]
      ensures RestKept(m0, t0, live0, o0)
    {
      KeptFewer(m1, pool.mem[..], pool.tiles, pool.Live() - {offset}, t0, live0 - {o0});
      KeptTransitive(m0, m1, pool.mem[..], t0, live0 - {o0});
    }

    /** What dyn_pool_realloc leaves is the same array in the new place. */
    lemma Moved(m0: seq<byte>, t0: map<nat, nat>, live0: set<nat>, o0: nat, es: int, count: int, cap: int,
                data: seq<byte>)
      requires pool.Valid() && pool.Reallocated(m0, t0, live0, o0, offset)
      requires o0 in t0 && Sized(es, count, cap, data, t0[o0]) && 16 + |data| <= t0[o0]
      requires ArrayAt(m0, o0, es, count, cap, data, |data|, |data|)
      ensures Is(es, count, cap, data) && RestKept(m0, t0, live0, o0)
    {
      hide Kept, CopiedBytes, ArrayAt, Good;
      pool.SizeAt(offset);
      CopiedArray(m0, pool.mem[..], o0, offset, t0[o0] - 4, es, count, cap, data);
    }

    lemma RestNow()
      requires InPool()
      ensures RestKept(pool.mem[..], pool.tiles, pool.Live(), offset)
    {}

    lemma RestFacts(m0: seq<byte>, t0: map<nat, nat>, live0: set<nat>, o0: nat)
      requires RestKept(m0, t0, live0, o0)
      ensures Kept(m0, pool.mem[..], t0, live0 - {o0}) && pool.Live() - {offset} == live0 - {o0}
      ensures forall o :: o in live0 && o != o0 && o in t0 ==> o in pool.tiles && pool.tiles[o] == t0[o]
    {}

    /** The reallocation of ra_append.  Where it can be done without misplacing a block the array is the same, and
        there is room for the payload if and only if the size of the old block was not too close to it; where it
        was too close nothing changes.  A misplaced block has the count and most of the elements. */
    method Reallocate(want: nat, granted: bool, ghost es: int, ghost count: int, ghost cap: int, ghost data: seq<byte>)
      requires Is(es, count, cap, data) && 12 + |data| <= want
      requires offset in pool.tiles && pool.MemoryFor(offset, want, granted)
      modifies `offset, pool`mem, pool`freeOffset, pool`tiles, pool`links, pool`fl, pool.mem
      ensures pool.mem == old(pool.mem) || fresh(pool.mem)
      ensures old(pool.CanRealloc(offset, want, granted)) ==>
                Is(es, count, cap, data) && RestKept(old(pool.mem[..]), old(pool.tiles), old(pool.Live()), old(offset))
                && (want + 4 <= pool.tiles[offset] <==> !TooClose(old(pool.tiles[offset]), want))
      ensures TooClose(old(pool.tiles[offset]), want) ==>
                old(pool.CanRealloc(offset, want, granted)) && offset == old(offset) && want < old(pool.tiles[offset])
                && pool.mem[..] == old(pool.mem[..]) && pool.freeOffset == old(pool.freeOffset)
                && pool.tiles == old(pool.tiles) && pool.links == old(pool.links) && pool.fl == old(pool.fl)
      ensures !old(pool.CanRealloc(offset, want, granted)) ==>
                offset + 4 == old(pool.mem.Length) && offset + 8 + want <= pool.mem.Length < 0xFFFF_FFFF
                && MovedList(old(pool.mem[..]), old(pool.tiles), old(pool.links), old(offset), pool.mem[..],
                             pool.freeOffset, want + 4)
      ensures MostAt(pool.mem[..], offset, es, count, data,
                     old(if pool.CanRealloc(offset, want, granted) then |data| else pool.mem.Length - 20 - offset),
                     |data|)
    {
      hide *;
      ghost var m0, t0, links0, live0, o0 := pool.mem[..], pool.tiles, pool.links, pool.Live(), offset;
      ghost var can := pool.CanRealloc(offset, want, granted);
      FieldsAre(es, count, cap, data);
      Here(es, count, cap, data);
      CloseStays(want, granted);
      offset := pool.Realloc(offset, want, granted);
      if can {
        Moved(m0, t0, live0, o0, es, count, cap, data);
        Here(es, count, cap, data);
        RoomIff(t0[o0], want, pool.tiles[offset]);
      } else {
        DisplacedFacts(m0, t0, links0, o0, want);
        DisplacedArray(m0, t0, links0, o0, pool.mem[..], pool.freeOffset, offset, want + 4, es, count, cap, data);
      }
    }

    /** The block grows and the capacity field says so.  Where the size test is too close nothing else changes;
        where the new block is misplaced the freed one is at the head of the list. */
    method Double(capacity: nat, want: nat, granted: bool, ghost es: int, ghost count: int, ghost cap: int,
                  ghost data: seq<byte>)
      requires Is(es, count, cap, data) && cap <= capacity && want == Area(es, capacity) + 12
      requires offset in pool.tiles && pool.MemoryFor(offset, want, granted)
      modifies `offset, pool`mem, pool`freeOffset, pool`tiles, pool`links, pool`fl, pool.mem
      ensures pool.mem == old(pool.mem) || fresh(pool.mem)
      ensures old(pool.CanRealloc(offset, want, granted) && !TooClose(pool.tiles[offset], want)) ==>
                Is(es, count, capacity, data)
                && RestKept(old(pool.mem[..]), old(pool.tiles), old(pool.Live()), old(offset))
      ensures old(TooClose(pool.tiles[offset], want)) ==> Unmoved(old(offset), old(pool.mem[..]), old(pool.freeOffset),
                old(pool.tiles), old(pool.links), old(pool.fl), capacity)
      ensures !old(pool.CanRealloc(offset, want, granted)) ==>
                offset + 4 == old(pool.mem.Length)
                && MovedList(old(pool.mem[..]), old(pool.tiles), old(pool.links), old(offset), pool.mem[..],
                             pool.freeOffset, want + 4)
      ensures ArrayAt(pool.mem[..], offset, es, count, capacity, data,
                      old(if pool.CanRealloc(offset, want, granted) then |data| else pool.mem.Length - 20 - offset),
                      |data|)
    {
      hide *;
      ghost var m0, h0, t0, links0, l0, live0, o0 :=
        pool.mem[..], pool.freeOffset, pool.tiles, pool.links, pool.fl, pool.Live(), offset;
      ghost var can, close := pool.CanRealloc(offset, want, granted), TooClose(pool.tiles[offset], want);
      ghost var lost := if can then |data| else pool.mem.Length - 20 - offset;
      WantHolds(es, count, cap, data, capacity);
      Reallocate(want, granted, es, count, cap, data);
      ghost var m1 := pool.mem[..];
      InRegion(m1, es, count, data, lost);
      if can {
        FieldsAre(es, count, cap, data);
        Here(es, count, cap, data);
        RestFacts(m0, t0, live0, o0);
        pool.IsGood();
      }
      pool.Put(offset + 12, capacity);
      CapacityAt(m1, pool.mem[..], offset, es, count, data, lost, |data|, capacity);
      if close {
        UnmovedIs(o0, m0, h0, t0, links0, l0, capacity);
      } else if can {
        WroteWithin(m1, pool.mem[..], offset + 12, capacity);
        Rewritten(m1, offset + 12, offset + 16);
        Grew(es, count, cap, data, capacity);
        Packed(es, count, capacity, data);
        RestStays(m0, t0, live0, o0, m1);
      } else {
        WroteWithin(m1, pool.mem[..], offset + 12, capacity);
        MovedListFrame(m0, t0, links0, o0, m1, pool.mem[..], pool.freeOffset, want + 4, offset + 12, offset + 16);
      }
    }

    lemma WantHolds(es: int, count: int, cap: int, data: seq<byte>, capacity: int)
      requires Is(es, count, cap, data) && cap <= capacity
      ensures |data| <= Area(es, capacity) && capacity <= Area(es, capacity)
              && |data| + 16 <= pool.mem.Length < 0xFFFF_FFFF
      ensures pool.tiles[offset] <= pool.mem.Length
    {
      hide ArrayAt, DynPool.Valid;
      Fits(es, count, capacity);
      Fits(es, count, cap);
    }

    /** Nothing but the capacity field was written. */
    ghost predicate Unmoved(o0: nat, m0: seq<byte>, h0: nat, t0: map<nat, nat>, links0: map<nat, nat>, l0: seq<nat>,
                            capacity: int)
      reads this, pool, pool.mem
    {
      && offset == o0 && pool.freeOffset == h0 && pool.tiles == t0 && pool.links == links0 && pool.fl == l0
      && Wrote32(m0, pool.mem[..], offset + 12, capacity)
    }

    lemma UnmovedIs(o0: nat, m0: seq<byte>, h0: nat, t0: map<nat, nat>, links0: map<nat, nat>, l0: seq<nat>,
                    capacity: int)
      requires offset == o0 && pool.freeOffset == h0 && pool.tiles == t0 && pool.links == links0 && pool.fl == l0
      requires Wrote32(m0, pool.mem[..], offset + 12, capacity)
      ensures Unmoved(o0, m0, h0, t0, links0, l0, capacity)
    {}

    /** A block that is kept for being big enough stays where it is. */
    lemma CloseStays(want: nat, granted: bool)
      requires offset in pool.tiles && pool.MemoryFor(offset, want, granted)
      ensures TooClose(pool.tiles[offset], want) ==>
                pool.CanRealloc(offset, want, granted) && pool.StaysPut(offset, want) && want < pool.tiles[offset]
    {
      hide DynPool.NoFit, LastIsFree;
      if TooClose(pool.tiles[offset], want) { pool.BigEnough(offset, want); }
    }

    lemma RoomIff(size: nat, want: nat, size': nat)
      requires want + HEADER <= size' <==> !(want < size < want + HEADER)
      ensures want + 4 <= size' <==> !TooClose(size, want)
    {}

    lemma DisplacedFacts(m0: seq<byte>, t0: map<nat, nat>, links0: map<nat, nat>, o0: nat, want: nat)
      requires Displaced(m0, t0, links0, o0, pool.mem[..], pool.freeOffset, offset, want + HEADER)
      ensures Displaced(m0, t0, links0, o0, pool.mem[..], pool.freeOffset, offset, want + 4)
              && want + HEADER == want + 4
      ensures MovedList(m0, t0, links0, o0, pool.mem[..], pool.freeOffset, want + 4)
      ensures offset + 4 == |m0| && offset + 8 + want <= pool.mem.Length < 0xFFFF_FFFF
    {
      hide Read32, LiveBelow, CopiedBytes;
    }

    lemma InRegion(m: seq<byte>, es: int, count: int, data: seq<byte>, lost: int)
      requires MostAt(m, offset, es, count, data, lost, |data|)
      ensures offset + 16 + |data| <= |m|
    {}

    lemma Grew(es: int, count: int, cap: int, data: seq<byte>, capacity: int)
      requires InPool() && Sized(es, count, cap, data, pool.tiles[offset]) && cap <= capacity
      requires Area(es, capacity) + 16 <= pool.tiles[offset]
      ensures Sized(es, count, capacity, data, pool.tiles[offset])
    {}

    /** The count goes up and the element behind the last one. */
    method PutLast(element: seq<byte>, ghost es: int, ghost count: int, ghost cap: int, ghost data: seq<byte>,
                   ghost lost: int)
      requires ArrayAt(pool.mem[..], offset, es, count, cap, data, lost, |data|)
      requires 1 <= es && 0 <= count < 0xFFFF_FFFF && |data| == Area(es, count)
      requires offset + 16 + |data| + |element| <= pool.mem.Length
      modifies pool.mem
      ensures ArrayAt(pool.mem[..], offset, es, count + 1, cap, data + element, lost, |data|)
      ensures ChangedWithin(old(pool.mem[..]), pool.mem[..], offset + 8, offset + 16 + |data| + |element|)
    {
      hide *;
      ghost var m := pool.mem[..];
      ReadsOf(m, es, count, cap, data, lost);
      FieldIs(0);
      FieldIs(4);
      var last := Field(4);
      var target := offset + 16 + Area(Field(0), last);
      pool.Put(offset + 8, last + 1);
      ghost var m1 := pool.mem[..];
      CopyInto(pool.mem, target, element);
      ElementAt(m, m1, pool.mem[..], offset, es, count, cap, data, lost, element);
    }

    /** The system has the memory that the append asks for, and what it writes lies in the pool. */
    ghost predicate MemoryToAppend(es: int, count: int, cap: int, granted: bool)
      reads this, pool, pool.mem
    {
      count == cap ==>
        var want := Area(es, cap * 2) + 12;
        && want >= 0 && offset in pool.tiles && pool.MemoryFor(offset, want, granted)
        && (TooClose(pool.tiles[offset], want) ==> offset + 16 + Area(es, cap + 1) <= pool.mem.Length)
    }

    /** The array is full and the reallocation keeps a block that is too small. */
    ghost predicate KeepsTooClose(es: int, count: int, cap: int)
      reads this, pool, pool.mem
    {
      count == cap && offset in pool.tiles && TooClose(pool.tiles[offset], Area(es, cap * 2) + 12)
    }

    /** The array has room for one more element, or its block can be made twice as large. */
    ghost predicate CanAppend(es: int, count: int, cap: int, granted: bool)
      reads this, pool, pool.mem
    {
      count == cap ==>
        var want := Area(es, cap * 2) + 12;
        && want >= 0 && pool.CanRealloc(offset, want, granted)
        && offset in pool.tiles && !TooClose(pool.tiles[offset], want)
    }

    /** How many of the n element bytes survive the append for certain. */
    ghost function Survive(es: int, count: int, cap: int, granted: bool, n: nat): int
      reads this, pool, pool.mem
    {
      if CanAppend(es, count, cap, granted) || KeepsTooClose(es, count, cap) then n else pool.mem.Length - 20 - offset
    }

    /** ra_append with an element of the array's element size and a capacity that is not zero.  Where CanAppend
        holds, the array has one more element, the others and every other block of the pool are as before.  A
        doubling outside it destroys the tiling: a misplaced block always does, and a block that was kept
        although it is too small does if and only if the element changes the bytes behind it. */
    method Append(element: seq<byte>, granted: bool, ghost es: int, ghost count: int, ghost cap: int,
                  ghost data: seq<byte>)
      requires Is(es, count, cap, data) && |element| == es && 1 <= cap && MemoryToAppend(es, count, cap, granted)
      modifies `offset, pool`mem, pool`freeOffset, pool`tiles, pool`links, pool`fl, pool.mem
      ensures pool.mem == old(pool.mem) || fresh(pool.mem)
      ensures old(CanAppend(es, count, cap, granted)) ==>
                && Is(es, count + 1, if count == cap then cap * 2 else cap, data + element)
                && RestKept(old(pool.mem[..]), old(pool.tiles), old(pool.Live()), old(offset))
      ensures ArrayAt(pool.mem[..], offset, es, count + 1, if count == cap then cap * 2 else cap, data + element,
                      old(Survive(es, count, cap, granted, |data|)), |data|)
      ensures count == cap && !old(KeepsTooClose(es, count, cap)) ==>
                (old(CanAppend(es, count, cap, granted))
                 <==> TileableWith(pool.mem[..], pool.freeOffset,
                                   old(LiveBlocks(pool.tiles, pool.links)) - {old(offset)}, offset))
      ensures old(KeepsTooClose(es, count, cap)) ==>
                offset == old(offset)
                && (Tileable(pool.mem[..], pool.freeOffset, old(LiveBlocks(pool.tiles, pool.links)))
                    <==> SameBytes(old(pool.mem[..]), pool.mem[..], offset + old(pool.tiles[offset]),
                                   offset + 16 + |data| + es))
    {
      hide *;
      ghost var m0, h0, t0, links0, l0, live0, o0 :=
        pool.mem[..], pool.freeOffset, pool.tiles, pool.links, pool.fl, pool.Live(), offset;
      ghost var close, good := KeepsTooClose(es, count, cap), CanAppend(es, count, cap, granted);
      ghost var lost := Survive(es, count, cap, granted, |data|);
      FieldsAre(es, count, cap, data);
      pool.IsGood();
      Here(es, count, cap, data);
      InPoolNow(es, count, cap, data);
      RestNow();
      Cases(es, count, cap, granted, data);
      var size, capacity := Field(0), Field(8);
      var memSize := Area(size, capacity) + 12;
      var usedSize := Area(size, Field(4)) + 12;
      Remaining(es, count, cap);
      ghost var cap' := cap;
      if memSize - usedSize < size {
        capacity := capacity * 2;
        Double(capacity, Area(size, capacity) + 12, granted, es, count, cap, data);
        cap' := capacity;
      }
      ghost var m1, want, end := pool.mem[..], Area(es, cap * 2) + 12, offset + 16 + |data| + es;
      if good {
        FieldsAre(es, count, cap', data);
        pool.IsGood();
        Here(es, count, cap', data);
        RestFacts(m0, t0, live0, o0);
      } else if close {
        SameRegion(o0, m0, h0, t0, links0, l0, cap');
      } else {
        RoomElsewhere(m0, t0, links0, o0, want);
      }
      PutLast(element, es, count, cap', data, lost);
      if good {
        Appended(m0, t0, live0, o0, m1, es, count, cap', data, element);
        InPoolNow(es, count + 1, cap', data + element);
        RestTiles(m0, t0, links0, o0);
      } else if close {
        OverrunOf(m0, m1, cap', end);
        OverrunTileable(m0, h0, t0, links0, l0, pool.mem[..], offset, end);
      } else {
        AppendedElsewhere(m0, h0, t0, links0, l0, o0, m1, end, want);
      }
    }

    lemma InPoolNow(es: int, count: int, cap: int, data: seq<byte>)
      requires Is(es, count, cap, data)
      ensures InPool()
    {}

    /** What is about to happen. */
    lemma Cases(es: int, count: int, cap: int, granted: bool, data: seq<byte>)
      requires Is(es, count, cap, data) && 1 <= cap && MemoryToAppend(es, count, cap, granted)
      ensures var good, close := CanAppend(es, count, cap, granted), KeepsTooClose(es, count, cap);
              var want := Area(es, cap * 2) + 12;
              && want >= 12 + Area(es, cap + 1) && offset in pool.tiles && Area(es, cap + 1) == Area(es, cap) + es
              && (count < cap ==> good && !close)
              && (count == cap ==>
                    && pool.MemoryFor(offset, want, granted) && (close <==> TooClose(pool.tiles[offset], want))
                    && (good <==> pool.CanRealloc(offset, want, granted) && !close)
                    && (close ==> pool.CanRealloc(offset, want, granted)))
              && (!good && !close ==> !LastIsFree(pool.mem.Length, pool.tiles, pool.fl))
              && (close ==> !good && offset + 16 + Area(es, cap + 1) <= pool.mem.Length
                            && Area(es, cap + 1) + 16 < pool.tiles[offset] + 4)
              && Survive(es, count, cap, granted, |data|)
                 == if good || pool.CanRealloc(offset, want, granted) then |data| else pool.mem.Length - 20 - offset
    {
      hide ArrayAt, InPool, DynPool.MemoryFor, DynPool.CanRealloc, LastIsFree, Area, TooClose;
      Here(es, count, cap, data);
      DoubledArea(es, cap);
      var want := Area(es, cap * 2) + 12;
      if count == cap {
        Fits(es, count, cap);
        CloseStays(want, granted);
        if !pool.CanRealloc(offset, want, granted) { NotExtended(want, granted); }
        if KeepsTooClose(es, count, cap) { OverrunIsShort(pool.tiles[offset], es, cap); }
      }
    }

    lemma NotExtended(want: nat, granted: bool)
      requires pool.MemoryFor(offset, want, granted) && !pool.CanRealloc(offset, want, granted)
      ensures !LastIsFree(pool.mem.Length, pool.tiles, pool.fl)
    {
      hide DynPool.NoFit, LastIsFree, DynPool.StaysPut, DynPool.CanGrow;
    }

    lemma ReadsOf(m: seq<byte>, es: int, count: int, cap: int, data: seq<byte>, lost: int)
      requires ArrayAt(m, offset, es, count, cap, data, lost, |data|)
      ensures offset + 16 + |data| <= |m| && Read32(m, offset + 4) == es && Read32(m, offset + 8) == count
      ensures Read32(m, offset + 12) == cap
    {
      hide Read32;
    }

    lemma WholeAt(m: seq<byte>, es: int, count: int, cap: int, data: seq<byte>, n: int)
      requires ArrayAt(m, offset, es, count, cap, data, n, n)
      ensures ArrayAt(m, offset, es, count, cap, data, |data|, |data|)
    {
      hide Read32;
    }

    /** The element was written where there was room for it. */
    lemma Appended(m0: seq<byte>, t0: map<nat, nat>, live0: set<nat>, o0: nat, m1: seq<byte>,
                   es: int, count: int, cap: int, data: seq<byte>, element: seq<byte>)
      requires Good(m1, pool.freeOffset, pool.tiles, pool.links, pool.fl) && offset in pool.Live()
               && offset in pool.tiles
      requires Sized(es, count, cap, data, pool.tiles[offset]) && count < cap && |element| == es
      requires Kept(m0, m1, t0, live0 - {o0}) && pool.Live() - {offset} == live0 - {o0}
      requires forall o :: o in live0 && o != o0 && o in t0 ==> o in pool.tiles && pool.tiles[o] == t0[o]
      requires ArrayAt(pool.mem[..], offset, es, count + 1, cap, data + element, |data|, |data|)
      requires ChangedWithin(m1, pool.mem[..], offset + 8, offset + 16 + |data| + es)
      ensures Is(es, count + 1, cap, data + element) && RestKept(m0, t0, live0, o0)
    {
      Fits(es, count, cap);
      WholeAt(pool.mem[..], es, count + 1, cap, data + element, |data|);
      hide Good, Kept, ArrayAt, ChangedWithin;
      Rewritten(m1, offset + 8, offset + 16 + |data| + es);
      RestStays(m0, t0, live0, o0, m1);
    }

    lemma RestTiles(m0: seq<byte>, t0: map<nat, nat>, links0: map<nat, nat>, o0: nat)
      requires RestKept(m0, t0, t0.Keys - links0.Keys, o0) && InPool()
      ensures TileableWith(pool.mem[..], pool.freeOffset, LiveBlocks(t0, links0) - {o0}, offset)
    {
      hide Kept, DynPool.Valid;
      pool.OthersTile(t0, links0, o0, offset);
    }

    lemma OverrunOf(m0: seq<byte>, m1: seq<byte>, cap: int, end: nat)
      requires Wrote32(m0, m1, offset + 12, cap) && ChangedWithin(m1, pool.mem[..], offset + 8, end)
      requires offset in pool.tiles && offset !in pool.links && offset + 16 <= end < offset + pool.tiles[offset] + 4
               && end <= |m0|
      ensures Overran(m0, pool.tiles, pool.links, pool.mem[..], offset, end)
    {
      hide Read32;
    }

    lemma AppendedElsewhere(m0: seq<byte>, h0: nat, t0: map<nat, nat>, links0: map<nat, nat>, l0: seq<nat>, o0: nat,
                            m1: seq<byte>, end: nat, want: nat)
      requires Good(m0, h0, t0, links0, l0) && !LastIsFree(|m0|, t0, l0) && offset + 4 == |m0|
      requires MovedList(m0, t0, links0, o0, m1, pool.freeOffset, want + 4)
      requires ChangedWithin(m1, pool.mem[..], offset + 8, end) && end <= offset + 4 + want
      ensures !TileableWith(pool.mem[..], pool.freeOffset, LiveBlocks(t0, links0) - {o0}, offset)
    {
      hide Good, MovedList, ChangedWithin, TileableWith, LiveBlocks, LastIsFree;
      MovedListFrame(m0, t0, links0, o0, m1, pool.mem[..], pool.freeOffset, want + 4, offset + 8, end);
      MovedUntileable(m0, h0, t0, links0, l0, o0, pool.mem[..], pool.freeOffset, want + 4);
    }

    lemma RoomElsewhere(m0: seq<byte>, t0: map<nat, nat>, links0: map<nat, nat>, o0: nat, want: nat)
      requires MovedList(m0, t0, links0, o0, pool.mem[..], pool.freeOffset, want + 4) && offset + 4 == |m0|
      ensures offset + 8 + want <= pool.mem.Length
    {
      hide Read32;
    }

    lemma SameRegion(o0: nat, m0: seq<byte>, h0: nat, t0: map<nat, nat>, links0: map<nat, nat>, l0: seq<nat>,
                     capacity: int)
      requires Unmoved(o0, m0, h0, t0, links0, l0, capacity)
      ensures offset == o0 && pool.freeOffset == h0 && pool.tiles == t0 && pool.links == links0 && pool.fl == l0
      ensures Wrote32(m0, pool.mem[..], offset + 12, capacity) && pool.mem.Length == |m0|
    {
      hide Read32;
    }

    /** Whether the next append is possible, found out without changing anything. */
    method ForeseeAppend(granted: bool, ghost es: int, ghost count: int, ghost cap: int, ghost data: seq<byte>)
        returns (possible: bool)
      requires Is(es, count, cap, data)
      ensures possible <==> CanAppend(es, count, cap, granted)
    {
      hide *;
      FieldsAre(es, count, cap, data);
      InPoolNow(es, count, cap, data);
      AppendIs(es, count, cap, granted);
      if Field(4) != Field(8) {
        return true;
      }
      var want := Area(Field(0), Field(8) * 2) + 12;
      AreaGrows(es, cap * 2);
      possible := pool.ForeseeRealloc(offset, want, granted);
      pool.SizeAt(offset);
      var size := pool.Get(offset);
      possible := possible && !TooClose(size, want);
    }

    lemma AreaGrows(es: int, n: int)
      requires es >= 1
      ensures Area(es, n) >= 0
    {}

    lemma AppendIs(es: int, count: int, cap: int, granted: bool)
      requires InPool() && es >= 1
      ensures CanAppend(es, count, cap, granted)
         <==> (count == cap ==>
                 var want := Area(es, cap * 2) + 12;
                 want >= 0 && pool.CanRealloc(offset, want, granted) && !TooClose(pool.tiles[offset], want))
    {
      hide DynPool.CanRealloc, TooClose;
    }

    /** ra_append again and again, as long as the pool has room: each element is appended, in order, the
        capacity doubles when the array is full, and every other block is as it was.  It stops short only when
        the array is full and doubling its block is not possible. */
    method AppendAll(elements: seq<seq<byte>>, granted: bool, ghost es: int, ghost count: int, ghost cap: int,
                     ghost data: seq<byte>)
        returns (done: nat)
      requires Is(es, count, cap, data) && 1 <= cap && 0 <= count && forall e :: e in elements ==> |e| == es
      modifies `offset, pool`mem, pool`freeOffset, pool`tiles, pool`links, pool`fl, pool.mem
      ensures pool.mem == old(pool.mem) || fresh(pool.mem)
      ensures done <= |elements|
      ensures Is(es, count + done, CapacityAfter(count, cap, done), data + Concat(elements[..done]))
      ensures RestKept(old(pool.mem[..]), old(pool.tiles), old(pool.Live()), old(offset))
      ensures done < |elements| ==> !CanAppend(es, count + done, CapacityAfter(count, cap, done), granted)
    {
      hide *;
      ghost var m0, t0, live0, o0 := pool.mem[..], pool.tiles, pool.Live(), offset;
      InPoolNow(es, count, cap, data);
      FieldsAre(es, count, cap, data);
      RestNow();
      StartOfRun(count, cap, elements, data);
      done := 0;
      while done < |elements|
        invariant pool.mem == old(pool.mem) || fresh(pool.mem)
        invariant done <= |elements|
        invariant Is(es, count + done, CapacityAfter(count, cap, done), data + Concat(elements[..done]))
        invariant RestKept(m0, t0, live0, o0)
      {
        ghost var n, c, d := count + done, CapacityAfter(count, cap, done), data + Concat(elements[..done]);
        var possible := ForeseeAppend(granted, es, n, c, d);
        if !possible {
          return;
        }
        MemoryIsThere(es, n, c, granted);
        NextOfRun(es, count, cap, elements, data, done);
        ghost var m1, t1, live1, o1 := pool.mem[..], pool.tiles, pool.Live(), offset;
        RestFacts(m0, t0, live0, o0);
        Append(elements[done], granted, es, n, c, d);
        RestAgain(m0, t0, live0, o0, m1, t1, live1, o1);
        done := done + 1;
      }
    }

    /** What is kept twice is kept. */
    lemma RestAgain(m0: seq<byte>, t0: map<nat, nat>, live0: set<nat>, o0: nat,
                    m1: seq<byte>, t1: map<nat, nat>, live1: set<nat>, o1: nat)
      requires Kept(m0, m1, t0, live0 - {o0}) && live1 - {o1} == live0 - {o0}
      requires forall o :: o in live0 && o != o0 && o in t0 ==> o in t1 && t1[o] == t0[o]
      requires RestKept(m1, t1, live1, o1)
      ensures RestKept(m0, t0, live0, o0)
    {
      hide Kept;
      var others := live0 - {o0};
      forall o | o in others && o in t0
        ensures o in pool.tiles && pool.tiles[o] == t0[o]
      {
        assert o in live1 && o != o1;
      }
      forall o | o in others && o in t0 ensures o in t1 && t1[o] == t0[o] {}
      KeptFewer(m1, pool.mem[..], t1, others, t0, others);
      KeptTransitive(m0, m1, pool.mem[..], t0, others);
    }

    lemma MemoryIsThere(es: int, count: int, cap: int, granted: bool)
      requires CanAppend(es, count, cap, granted)
      ensures MemoryToAppend(es, count, cap, granted)
    {
      hide DynPool.StaysPut, DynPool.NoFit, DynPool.Accommodates;
    }

    /** ra_clone: another array with the same fields and elements.  Where its block can be accommodated this one
        stays as it is, and so does every other block.  Otherwise the misplaced block destroys the tiling and with
        it the elements of this array that lie in the last word of the region, if any; the fields of this array
        must not lie there. */
    method Clone(granted: bool, ghost es: nat, ghost count: nat, ghost cap: nat, ghost data: seq<byte>)
      returns (r: RefArray)
      requires Is(es, count, cap, data) && offset in pool.tiles
      requires !pool.NoFit(SizeFor(es, cap) + HEADER) || pool.CanGrow(SizeFor(es, cap), granted)
      requires !pool.Accommodates(SizeFor(es, cap)) ==>
                 20 <= pool.tiles[offset] || offset + pool.tiles[offset] < pool.mem.Length
      modifies pool`mem, pool`freeOffset, pool`tiles, pool`links, pool`fl, pool.mem
      ensures fresh(r) && r.pool == pool && r.offset != offset && (pool.mem == old(pool.mem) || fresh(pool.mem))
      ensures old(pool.Accommodates(SizeFor(es, cap))) ==>
                && r.Is(es, count, cap, data) && Is(es, count, cap, data)
                && Kept(old(pool.mem[..]), pool.mem[..], old(pool.tiles), old(pool.Live()))
      ensures old(pool.Accommodates(SizeFor(es, cap)))
         <==> TileableWith(pool.mem[..], pool.freeOffset, old(LiveBlocks(pool.tiles, pool.links)), r.offset)
      ensures var lost := old(if pool.Accommodates(SizeFor(es, cap)) then |data| else pool.mem.Length - 20 - offset);
              && ArrayAt(pool.mem[..], r.offset, es, count, cap, data, lost, |data|)
              && ArrayAt(pool.mem[..], offset, es, count, cap, data, lost, |data|)
    {
      hide *;
      ghost var m0, h0, t0, links0, l0, live0 :=
        pool.mem[..], pool.freeOffset, pool.tiles, pool.links, pool.fl, pool.Live();
      ghost var bytes := SizeFor(es, cap);
      ghost var good := pool.Accommodates(bytes);
      ghost var lost := if good then |data| else pool.mem.Length - 20 - offset;
      FieldsAre(es, count, cap, data);
      Here(es, count, cap, data);
      SizeIs(es, cap);
      pool.IsGood();
      pool.Accommodating(bytes);
      var size, capacity := Field(0), Field(8);
      r := new RefArray(pool, size, capacity, granted);
      ghost var m1 := pool.mem[..];
      pool.PayloadInside(m0, t0, links0, r.offset, bytes, good);
      StillThere(m0, h0, t0, links0, l0, r.offset, good, es, count, cap, data);
      CopyTo(r.offset, es, count, cap, data, lost);
      pool.PayloadWritten(m0, t0, links0, m1, r.offset, bytes, good, r.offset + 4, r.offset + 16 + Area(es, cap));
      pool.AllocatedTiles(m0, h0, t0, links0, l0, r.offset, bytes, good);
      if good {
        r.Obtained(m0, t0, links0, bytes, es, count, cap, data);
        Stays(t0, live0, es, count, cap, data);
      }
    }

    /** The copying in ra_clone, to the new array at r. */
    method CopyTo(r: nat, ghost es: nat, ghost count: nat, ghost cap: nat, ghost data: seq<byte>, ghost lost: int)
      requires ArrayAt(pool.mem[..], offset, es, count, cap, data, lost, |data|)
      requires ArrayAt(pool.mem[..], r, es, 0, cap, [], 0, 0) && |data| <= Area(es, cap)
      requires offset + 16 + Area(es, cap) <= pool.mem.Length && r + 16 + Area(es, cap) <= pool.mem.Length
      requires offset + 16 + Area(es, cap) <= r + 4 || r + 16 + Area(es, cap) <= offset + 4
      modifies pool.mem
      ensures ArrayAt(pool.mem[..], r, es, count, cap, data, lost, |data|)
      ensures ArrayAt(pool.mem[..], offset, es, count, cap, data, lost, |data|)
      ensures ChangedWithin(old(pool.mem[..]), pool.mem[..], r + 4, r + 16 + Area(es, cap))
    {
      hide *;
      ghost var m1 := pool.mem[..];
      ReadsOf(m1, es, count, cap, data, lost);
      FieldIs(0);
      FieldIs(4);
      FieldIs(8);
      var n, total := Field(4), Area(Field(0), Field(8));
      pool.Put(r + 8, n);
      ghost var m2 := pool.mem[..];
      DynPool.CopyWithin(pool.mem, offset + 16, r + 16, total);
      ClonedAt(m1, m2, pool.mem[..], offset, r, total, es, count, cap, data, lost);
    }

    /** This array and the block for its clone. */
    lemma StillThere(m0: seq<byte>, h0: nat, t0: map<nat, nat>, links0: map<nat, nat>, l0: seq<nat>, r: nat, good: bool,
                     es: nat, count: nat, cap: nat, data: seq<byte>)
      requires Good(m0, h0, t0, links0, l0) && offset in t0 && offset !in links0
      requires Sized(es, count, cap, data, t0[offset]) && |data| <= Area(es, cap)
      requires pool.Allocated(m0, t0, links0, r, SizeFor(es, cap), good)
      requires !good ==> 20 <= t0[offset] || offset + t0[offset] < |m0|
      requires ArrayAt(m0, offset, es, count, cap, data, |data|, |data|)
      ensures ArrayAt(pool.mem[..], offset, es, count, cap, data, if good then |data| else |m0| - 20 - offset, |data|)
      ensures offset + 16 + Area(es, cap) <= r + 4 || r + 16 + Area(es, cap) <= offset + 4
      ensures offset + 16 + Area(es, cap) <= pool.mem.Length && r + 16 + Area(es, cap) <= pool.mem.Length && offset != r
    {
      hide Read32, ShortList, DynPool.Obtained, ArrayAt, Kept, Good, Area, LiveBelow;
      SizeIs(es, cap);
      GoodTiling(m0, h0, t0, links0, l0);
      BlockFacts(t0, |m0|, offset);
      if good {
        pool.UnpackObtained(t0.Keys - links0.Keys, t0, r, SizeFor(es, cap));
        pool.SizeAt(offset);
        pool.SizeAt(r);
        pool.BlocksApart(offset, r);
        KeptArray(m0, t0, t0.Keys - links0.Keys, es, count, cap, data);
      } else {
        if offset + t0[offset] != |m0| { BlockBehind(t0, |m0|, offset); }
        SpoiltArray(m0, t0, links0, pool.mem[..], offset, es, count, cap, data);
      }
    }

    lemma KeptArray(m0: seq<byte>, t0: map<nat, nat>, live0: set<nat>, es: int, count: int, cap: int, data: seq<byte>)
      requires Kept(m0, pool.mem[..], t0, live0) && offset in live0 && offset in t0 && 16 + |data| <= t0[offset]
      requires ArrayAt(m0, offset, es, count, cap, data, |data|, |data|)
      ensures ArrayAt(pool.mem[..], offset, es, count, cap, data, |data|, |data|)
    {
      assert SameBytes(m0, pool.mem[..], offset + HEADER, offset + t0[offset]);
      ArrayFrame(m0, pool.mem[..], offset, es, count, cap, data, |data|, |data|);
    }

    /** An array whose block kept its place, size and bytes is as it was. */
    lemma Stays(t0: map<nat, nat>, live0: set<nat>, es: int, count: int, cap: int, data: seq<byte>)
      requires pool.Valid() && offset in pool.Live() && offset in live0 && offset in t0
      requires forall o :: o in live0 && o in t0 ==> o in pool.tiles && pool.tiles[o] == t0[o]
      requires 16 <= t0[offset] && Sized(es, count, cap, data, t0[offset])
      requires ArrayAt(pool.mem[..], offset, es, count, cap, data, |data|, |data|)
      ensures Is(es, count, cap, data)
    {
      hide ArrayAt, Good;
      pool.SizeAt(offset);
    }
  }
}
