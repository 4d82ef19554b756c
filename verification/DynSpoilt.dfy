/** The state of the pool after dyn_pool_resize put a block over the last word of the old region
    (memory/dynamic_pool.c): what an allocation and a reallocation then still keep, and why no tiling of the
    region is left. */
module DynSpoils {
  import opened Tilings
  import opened DynLayouts

  /** The list has at most one block, which can be read and lies from `from` on. */
  ghost predicate ShortList(m: seq<byte>, h: nat, l: seq<nat>, from: nat) {
    && |m| < NIL && |l| <= 1
    && if l == [] then h == NIL
       else h == l[0] && from <= h && h + MIN_BLOCK <= |m|
            && MIN_BLOCK <= Read32(m, h) && h + Read32(m, h) <= |m| && Read32(m, h + 4) == NIL
  }

  /** Where the misplaced block starts, or an earlier end of a block. */
  function Cut(end: nat, n: nat): nat
    requires 4 <= n
  {
    if end <= n - 4 then end else n - 4
  }

  /** Every live block has its bytes, up to the misplaced block. */
  ghost predicate LiveBelow(m0: seq<byte>, m: seq<byte>, t: map<nat, nat>, links: map<nat, nat>) {
    && 4 <= |m0| <= |m|
    && forall o :: o in t && o !in links ==> SameBytes(m0, m, o, Cut(o + t[o], |m0|))
  }

  /** The misplaced block was handed out for a payload of `amount` bytes. */
  ghost predicate Spoilt(m0: seq<byte>, t0: map<nat, nat>, links0: map<nat, nat>, m: seq<byte>, h: nat, l: seq<nat>,
                         amount: nat) {
    && 8 <= |m0| && |m0| + amount <= |m| && ShortList(m, h, l, |m0| + amount) && LiveBelow(m0, m, t0, links0)
  }

  lemma ReadSame(m0: seq<byte>, m1: seq<byte>, from: nat, to: nat, o: nat)
    requires SameBytes(m0, m1, from, to) && from <= o && o + 4 <= to
    ensures Read32(m1, o) == Read32(m0, o)
  {
    hide Word;
  }

  lemma ReadUnchanged(m0: seq<byte>, m1: seq<byte>, from: nat, to: nat, o: nat)
    requires ChangedWithin(m0, m1, from, to) && o + 4 <= |m0| && (o + 4 <= from || to <= o)
    ensures |m1| == |m0| && Read32(m1, o) == Read32(m0, o)
  {
    hide Word;
  }

  lemma ShortListFrame(m: seq<byte>, m': seq<byte>, h: nat, l: seq<nat>, from: nat, a: nat, b: nat)
    requires ShortList(m, h, l, from) && ChangedWithin(m, m', a, b) && b <= from
    ensures ShortList(m', h, l, from)
  {
    hide Read32, ChangedWithin;
    if l != [] {
      ReadUnchanged(m, m', a, b, h);
      ReadUnchanged(m, m', a, b, h + 4);
    } else {
      LengthKept(m, m', a, b);
    }
  }

  lemma LengthKept(m: seq<byte>, m': seq<byte>, a: nat, b: nat)
    requires ChangedWithin(m, m', a, b)
    ensures |m'| == |m|
  {}

  lemma LiveBelowFrame(m0: seq<byte>, m: seq<byte>, m': seq<byte>, t: map<nat, nat>, links: map<nat, nat>, a: nat,
                       b: nat)
    requires LiveBelow(m0, m, t, links) && ChangedWithin(m, m', a, b) && |m0| - 4 <= a
    ensures LiveBelow(m0, m', t, links)
  {
    forall o | o in t && o !in links ensures SameBytes(m0, m', o, Cut(o + t[o], |m0|)) {
      assert SameBytes(m0, m, o, Cut(o + t[o], |m0|));
    }
  }

  /** Writing the misplaced block and its payload changes nothing of this. */
  lemma SpoiltFrame(m0: seq<byte>, t0: map<nat, nat>, links0: map<nat, nat>, m: seq<byte>, m': seq<byte>, h: nat,
                    l: seq<nat>, amount: nat, a: nat, b: nat)
    requires Spoilt(m0, t0, links0, m, h, l, amount) && ChangedWithin(m, m', a, b)
    requires |m0| - 4 <= a && b <= |m0| + amount
    ensures Spoilt(m0, t0, links0, m', h, l, amount)
  {
    hide ShortList, LiveBelow, ChangedWithin;
    ShortListFrame(m, m', h, l, |m0| + amount, a, b);
    LiveBelowFrame(m0, m, m', t0, links0, a, b);
    LengthKept(m, m', a, b);
  }

  /** The last free block of a region ends before the misplaced one: linking it changes no live block. */
  lemma MisplacedKeepsLive(m0: seq<byte>, h0: nat, t0: map<nat, nat>, links0: map<nat, nat>, l0: seq<nat>,
                           m1: seq<byte>, m2: seq<byte>, m3: seq<byte>, current: nat)
    requires Good(m0, h0, t0, links0, l0) && 8 <= |m0| && m0 <= m1 && |m2| == |m1|
    requires forall b :: 0 <= b < |m0| - 4 ==> m2[b] == m1[b]
    requires m3 == m2 || (current in t0 && current in links0 && ChangedWithin(m2, m3, current + 4, current + 8))
    ensures LiveBelow(m0, m3, t0, links0)
  {
    GoodTiling(m0, h0, t0, links0, l0);
    hide Good, Tiling;
    forall o | o in t0 && o !in links0 ensures SameBytes(m0, m3, o, Cut(o + t0[o], |m0|)) {
      BlockFacts(t0, |m0|, o);
      if m3 == m2 {
        BelowSame(m0, m1, m2, m3, o, o + t0[o], |m0|, |m0|);
      } else {
        BlockFacts(t0, |m0|, current);
        Neighbour(t0, |m0|, current, o);
        BelowSame(m0, m1, m2, m3, o, o + t0[o], current + 4, current + 8);
      }
    }
  }

  lemma BelowSame(m0: seq<byte>, m1: seq<byte>, m2: seq<byte>, m3: seq<byte>, o: nat, end: nat, from: nat, to: nat)
    requires 8 <= |m0| && m0 <= m1 && |m2| == |m1| && end <= |m0| && (to <= o || end <= from)
    requires forall b :: 0 <= b < |m0| - 4 ==> m2[b] == m1[b]
    requires ChangedWithin(m2, m3, from, to)
    ensures SameBytes(m0, m3, o, Cut(end, |m0|))
  {
    assert forall b :: 0 <= b < |m0| ==> m1[b] == m0[b];
  }

  /** The header of a live block is still what it was. */
  lemma LiveHeader(m0: seq<byte>, h0: nat, t0: map<nat, nat>, links0: map<nat, nat>, l0: seq<nat>, m: seq<byte>, o: nat)
    requires Good(m0, h0, t0, links0, l0) && LiveBelow(m0, m, t0, links0) && o in t0 && o !in links0
    ensures MIN_BLOCK <= t0[o] && o + t0[o] <= |m0| <= |m| && Read32(m, o) == t0[o]
  {
    hide Word;
    GoodTiling(m0, h0, t0, links0, l0);
    BlockFacts(t0, |m0|, o);
    assert SameBytes(m0, m, o, Cut(o + t0[o], |m0|));
    ReadSame(m0, m, o, Cut(o + t0[o], |m0|), o);
  }

  /** An allocation in the misplaced block leaves no tiling. */
  lemma SpoiltUntileable(m0: seq<byte>, h0: nat, t0: map<nat, nat>, links0: map<nat, nat>, l0: seq<nat>,
                         m: seq<byte>, h: nat, l: seq<nat>, amount: nat)
    requires Good(m0, h0, t0, links0, l0) && !LastIsFree(|m0|, t0, l0) && Spoilt(m0, t0, links0, m, h, l, amount)
    ensures !TileableWith(m, h, LiveBlocks(t0, links0), |m0| - 4)
  {
    hide Good, TileableWith, LastIsFree, LiveBlocks, LiveBelow, Read32;
    MisplacedBlockSpoils(m0, h0, t0, links0, l0, m, h);
  }

  // ---------- after the old block of a reallocation was freed ----------

  /** The list starts at the freed block o, which may lead to one block behind the misplaced one. */
  ghost predicate MovedList(m0: seq<byte>, t0: map<nat, nat>, links0: map<nat, nat>, o: nat, m: seq<byte>, h: nat,
                            amount: nat) {
    && 8 <= |m0| && |m0| + amount <= |m| < NIL && h == o && o in t0 && o !in links0
    && o + MIN_BLOCK <= |m0| && Read32(m, o) == t0[o]
    && var next := Read32(m, o + 4);
       next == NIL || (|m0| + amount <= next && next + MIN_BLOCK <= |m| && Read32(m, next + 4) == NIL)
  }

  /** Nothing but the link of block o was written since the misplaced block was handed out. */
  lemma FreedSpoilt(m0: seq<byte>, h0: nat, t0: map<nat, nat>, links0: map<nat, nat>, l0: seq<nat>,
                    m: seq<byte>, h: nat, l: seq<nat>, amount: nat, m': seq<byte>, o: nat)
    requires Good(m0, h0, t0, links0, l0) && Spoilt(m0, t0, links0, m, h, l, amount) && o in t0 && o !in links0
    requires Wrote32(m, m', o + 4, h)
    ensures MovedList(m0, t0, links0, o, m', o, amount)
  {
    LiveHeader(m0, h0, t0, links0, l0, m, o);
    hide Read32, Good;
    LinkOnly(m, m', o, h, o);
    if h != NIL { LinkOnly(m, m', o, h, h + 4); }
  }

  lemma LinkOnly(m: seq<byte>, m': seq<byte>, o: nat, v: int, p: nat)
    requires Wrote32(m, m', o + 4, v) && p + 4 <= |m| && (p + 4 <= o + 4 || o + 8 <= p)
    ensures |m'| == |m| && Read32(m', p) == Read32(m, p) && Read32(m', o + 4) == v
  {
    hide Word;
  }

  lemma MovedListFrame(m0: seq<byte>, t0: map<nat, nat>, links0: map<nat, nat>, o: nat, m: seq<byte>, m': seq<byte>,
                       h: nat, amount: nat, a: nat, b: nat)
    requires MovedList(m0, t0, links0, o, m, h, amount) && ChangedWithin(m, m', a, b) && |m0| <= a && b <= |m0| + amount
    ensures MovedList(m0, t0, links0, o, m', h, amount)
  {
    hide Read32, ChangedWithin;
    ReadUnchanged(m, m', a, b, o);
    ReadUnchanged(m, m', a, b, o + 4);
    var next := Read32(m, o + 4);
    if next != NIL { ReadUnchanged(m, m', a, b, next + 4); }
  }

  /** Which blocks a reading of the region has on its list then. */
  lemma MovedChain(m0: seq<byte>, t0: map<nat, nat>, links0: map<nat, nat>, o: nat, amount: nat,
                   m: seq<byte>, h: nat, t: map<nat, nat>, links: map<nat, nat>, l: seq<nat>)
    requires MovedList(m0, t0, links0, o, m, h, amount) && Good(m, h, t, links, l)
    ensures o in links && o in t && t[o] == t0[o] && forall c :: c in links ==> c == o || |m0| <= c
  {
    hide Word;
    assert l != [] && l[0] == o;
    Listed(m, h, t, links, l, 0);
    if |l| > 1 {
      Listed(m, h, t, links, l, 1);
      if |l| > 2 { Listed(m, h, t, links, l, 2); }
    }
    assert |l| <= 2;
    assert forall c :: c in links <==> c in l;
  }

  /** The freed block does not make room for the misplaced one: no reading tiles the region with the other
      live blocks and the moved one. */
  lemma MovedBreaks(n: nat, t0: map<nat, nat>, links0: map<nat, nat>, m: nat, t: map<nat, nat>, links: map<nat, nat>,
                    o: nat)
    requires Tiling(t0, n) && Tiling(t, m) && 8 <= n <= m && n - 4 in t && n - 4 !in links
    requires o in t0 && o !in links0 && o in t && o in links && t[o] == t0[o]
    requires forall c :: c in links ==> c == o || n <= c
    ensures LiveBlocks(t, links) != (LiveBlocks(t0, links0) - {o})[n - 4 := t[n - 4]]
  {
    hide Tiling;
    var last: nat := LastBlock(t0, n);
    BlockFacts(t0, n, last);
    var live := (LiveBlocks(t0, links0) - {o})[n - 4 := t[n - 4]];
    if last in t { Neighbour(t, m, last, n - 4); }
    if last !in links0 {
      assert last != o ==> last in live && live[last] == t0[last];
    } else {
      var c := CoverDiffers(t0, n, last, t, m);
      Neighbour(t0, n, o, last);
      assert c in LiveBlocks(t, links) || c == o;
      assert c in live ==> c in t0 && live[c] == t0[c];
    }
  }

  lemma MovedUntileable(m0: seq<byte>, h0: nat, t0: map<nat, nat>, links0: map<nat, nat>, l0: seq<nat>, o: nat,
                        m: seq<byte>, h: nat, amount: nat)
    requires Good(m0, h0, t0, links0, l0) && !LastIsFree(|m0|, t0, l0) && MovedList(m0, t0, links0, o, m, h, amount)
    ensures !TileableWith(m, h, LiveBlocks(t0, links0) - {o}, |m0| - 4)
  {
    hide Word, Good, LiveBlocks, LastIsFree, Read32, Tiling;
    GoodTiling(m0, h0, t0, links0, l0);
    var live := LiveBlocks(t0, links0) - {o};
    forall t, links, l | Good(m, h, t, links, l) && |m0| - 4 in t
      ensures LiveBlocks(t, links) != live[|m0| - 4 := t[|m0| - 4]]
    {
      MovedChain(m0, t0, links0, o, amount, m, h, t, links, l);
      GoodTiling(m, h, t, links, l);
      OffWord(m0, h0, t0, links0, l0, o);
      MovedBreaks(|m0|, t0, links0, |m|, t, links, o);
    }
  }

  /** What a reallocation leaves that was given the misplaced block at `ret`: the freed block o at the head of the
      list, the other live blocks as they were up to the misplaced one, and so much of the old payload behind it. */
  ghost predicate Displaced(m0: seq<byte>, t0: map<nat, nat>, links0: map<nat, nat>, o: nat, m: seq<byte>, h: nat,
                            ret: nat, amount: nat) {
    && MovedList(m0, t0, links0, o, m, h, amount) && ret + 4 == |m0|
    && LiveBelow(m0, m, t0 - {o}, links0)
    && CopiedBytes(m0, m, o + HEADER, ret + HEADER, Cut(o + t0[o], |m0|) - o - HEADER)
  }

  /** The copying and the freeing after the misplaced block was handed out. */
  lemma DisplacedIs(m0: seq<byte>, h0: nat, t0: map<nat, nat>, links0: map<nat, nat>, l0: seq<nat>,
                    m1: seq<byte>, h: nat, l: seq<nat>, amount: nat, m2: seq<byte>, m3: seq<byte>, o: nat)
    requires Good(m0, h0, t0, links0, l0) && Spoilt(m0, t0, links0, m1, h, l, amount) && o in t0 && o !in links0
    requires HEADER <= t0[o] <= amount + HEADER
    requires CopiedBytes(m1, m2, o + HEADER, |m0|, t0[o] - HEADER)
    requires ChangedWithin(m1, m2, |m0|, |m0| + t0[o] - HEADER)
    requires Wrote32(m2, m3, o + 4, h)
    ensures Displaced(m0, t0, links0, o, m3, o, |m0| - 4, amount)
  {
    hide Good, Spoilt, MovedList, LiveBelow, Wrote32, CopiedBytes, ChangedWithin;
    SpoiltFrame(m0, t0, links0, m1, m2, h, l, amount, |m0|, |m0| + t0[o] - HEADER);
    FreedSpoilt(m0, h0, t0, links0, l0, m2, h, l, amount, m3, o);
    SpoiltLive(m0, t0, links0, m1, h, l, amount);
    SpoiltLive(m0, t0, links0, m2, h, l, amount);
    LiveHeader(m0, h0, t0, links0, l0, m1, o);
    OthersBelow(m0, h0, t0, links0, l0, m2, m3, o, h);
    CopiedBelow(m0, t0, links0, m1, m2, m3, o, h);
  }

  lemma SpoiltLive(m0: seq<byte>, t0: map<nat, nat>, links0: map<nat, nat>, m: seq<byte>, h: nat, l: seq<nat>,
                   amount: nat)
    requires Spoilt(m0, t0, links0, m, h, l, amount)
    ensures LiveBelow(m0, m, t0, links0) && 8 <= |m0| <= |m|
  {}

  lemma OthersBelow(m0: seq<byte>, h0: nat, t0: map<nat, nat>, links0: map<nat, nat>, l0: seq<nat>,
                    m2: seq<byte>, m3: seq<byte>, o: nat, v: int)
    requires Good(m0, h0, t0, links0, l0) && LiveBelow(m0, m2, t0, links0) && o in t0 && o !in links0
    requires Wrote32(m2, m3, o + 4, v)
    ensures LiveBelow(m0, m3, t0 - {o}, links0)
  {
    hide Read32, Tiling;
    GoodTiling(m0, h0, t0, links0, l0);
    hide Good;
    BlockFacts(t0, |m0|, o);
    forall p | p in t0 - {o} && p !in links0 ensures SameBytes(m0, m3, p, Cut(p + t0[p], |m0|)) {
      assert SameBytes(m0, m2, p, Cut(p + t0[p], |m0|));
      Neighbour(t0, |m0|, o, p);
    }
  }

  lemma CopiedBelow(m0: seq<byte>, t0: map<nat, nat>, links0: map<nat, nat>, m1: seq<byte>, m2: seq<byte>,
                    m3: seq<byte>, o: nat, v: int)
    requires LiveBelow(m0, m1, t0, links0) && o in t0 && o !in links0
    requires MIN_BLOCK <= t0[o] && o + t0[o] <= |m0|
    requires CopiedBytes(m1, m2, o + HEADER, |m0|, t0[o] - HEADER) && Wrote32(m2, m3, o + 4, v)
    ensures CopiedBytes(m0, m3, o + HEADER, |m0|, Cut(o + t0[o], |m0|) - o - HEADER)
  {
    hide Read32;
    var end, n := Cut(o + t0[o], |m0|), |m0|;
    var count := end - o - HEADER;
    assert SameBytes(m0, m1, o, end);
    assert m2[n..n + (t0[o] - HEADER)][..count] == m1[o + HEADER..o + HEADER + (t0[o] - HEADER)][..count];
    assert m2[n..n + count] == m2[n..n + (t0[o] - HEADER)][..count];
    assert m1[o + HEADER..end] == m1[o + HEADER..o + HEADER + (t0[o] - HEADER)][..count];
    assert m3[n..n + count] == m2[n..n + count];
    assert m1[o + HEADER..end] == m0[o + HEADER..end];
  }

  /** No block starts at the last word of a region. */
  lemma OffWord(m: seq<byte>, h: nat, t: map<nat, nat>, links: map<nat, nat>, l: seq<nat>, o: nat)
    requires Good(m, h, t, links, l) && o in t && 8 <= |m|
    ensures o != |m| - 4
  {
    GoodTiling(m, h, t, links, l);
    BlockFacts(t, |m|, o);
  }
}
