/** What is left of the dynamic pool (memory/dynamic_pool.c) when a payload was written up to three bytes too far,
    into the size of the block behind it. */
module DynOverruns {
  import opened Tilings
  import opened DynLayouts
  import opened DynSpoils

  lemma LowByte(a: byte, x: int, b: byte, y: int)
    requires a + 0x100 * x == b + 0x100 * y
    ensures a == b && x == y
  {}

  /** A word determines its bytes. */
  lemma BytesOfWord(m0: seq<byte>, m1: seq<byte>, o: nat)
    requires o + 4 <= |m0| && o + 4 <= |m1| && Read32(m1, o) == Read32(m0, o)
    ensures SameBytes(m0, m1, o, o + 4)
  {
    var b0: int, c0: int, d0: int := m0[o + 1], m0[o + 2], m0[o + 3];
    var b1: int, c1: int, d1: int := m1[o + 1], m1[o + 2], m1[o + 3];
    LowByte(m1[o], b1 + 0x100 * (c1 + 0x100 * d1), m0[o], b0 + 0x100 * (c0 + 0x100 * d0));
    LowByte(m1[o + 1], c1 + 0x100 * d1, m0[o + 1], c0 + 0x100 * d0);
    LowByte(m1[o + 2], d1, m0[o + 2], d0);
  }

  /** Two lists that follow the same links are the same. */
  lemma {:induction false} SameLists(m0: seq<byte>, h: nat, t0: map<nat, nat>, links0: map<nat, nat>, l0: seq<nat>,
                                     m: seq<byte>, t: map<nat, nat>, links: map<nat, nat>, l: seq<nat>, k: nat)
    requires Good(m0, h, t0, links0, l0) && Good(m, h, t, links, l) && |m| == |m0| && k <= |l0|
    requires forall x :: x in links0 ==> x + 8 <= |m0| && Read32(m, x + 4) == Read32(m0, x + 4)
    ensures k <= |l| && forall i :: 0 <= i < k ==> l[i] == l0[i]
    ensures k == |l0| ==> |l| == k
  {
    hide Good, Read32;
    if k > 0 {
      SameLists(m0, h, t0, links0, l0, m, t, links, l, k - 1);
      SlotReads(m0, h, t0, links0, l0, k - 1);
      SameHeads(m0, h, t0, links0, l0, m, t, links, l);
      if k > 1 {
        SlotReads(m0, h, t0, links0, l0, k - 2);
        SlotReads(m, h, t, links, l, k - 2);
      }
      SlotReads(m, h, t, links, l, k - 1);
    } else {
      SameHeads(m0, h, t0, links0, l0, m, t, links, l);
    }
  }

  lemma SameHeads(m0: seq<byte>, h: nat, t0: map<nat, nat>, links0: map<nat, nat>, l0: seq<nat>,
                  m: seq<byte>, t: map<nat, nat>, links: map<nat, nat>, l: seq<nat>)
    requires Good(m0, h, t0, links0, l0) && Good(m, h, t, links, l)
    ensures l == [] <==> l0 == []
    ensures l != [] && l0 != [] ==> l[0] == l0[0]
  {
    hide Word;
    if l != [] { Listed(m, h, t, links, l, 0); }
    if l0 != [] { Listed(m0, h, t0, links0, l0, 0); }
  }

  /** A payload that is written up to `end`, less than a word behind its block o. */
  ghost predicate Overran(m0: seq<byte>, t: map<nat, nat>, links: map<nat, nat>, m: seq<byte>, o: nat, end: nat) {
    && o in t && o !in links && end < o + t[o] + 4 && end <= |m0|
    && ChangedWithin(m0, m, o + HEADER, end)
  }

  lemma OverranReads(m0: seq<byte>, h: nat, t: map<nat, nat>, links: map<nat, nat>, l: seq<nat>, m: seq<byte>, o: nat,
                     end: nat)
    requires Good(m0, h, t, links, l) && Overran(m0, t, links, m, o, end)
    ensures |m| == |m0| && forall x :: x in links ==> x + 8 <= |m0| && Read32(m, x + 4) == Read32(m0, x + 4)
  {
    GoodTiling(m0, h, t, links, l);
    assert links.Keys <= t.Keys by { hide Word; }
    hide Good, Tiling, ChangedWithin, Read32;
    LengthKept(m0, m, o + HEADER, end);
    BlockFacts(t, |m0|, o);
    forall x | x in links ensures x + 8 <= |m0| && Read32(m, x + 4) == Read32(m0, x + 4) {
      BlockFacts(t, |m0|, x);
      Neighbour(t, |m0|, o, x);
      ReadUnchanged(m0, m, o + HEADER, end, x + 4);
    }
  }

  /** The block behind keeps its size in every reading with the same live blocks. */
  lemma OverranSize(m0: seq<byte>, h: nat, t0: map<nat, nat>, links0: map<nat, nat>, l0: seq<nat>,
                    m: seq<byte>, t: map<nat, nat>, links: map<nat, nat>, l: seq<nat>, o: nat, end: nat)
    requires Good(m0, h, t0, links0, l0) && Overran(m0, t0, links0, m, o, end) && o + t0[o] in t0
    requires Good(m, h, t, links, l) && LiveBlocks(t, links) == LiveBlocks(t0, links0)
    ensures var p := o + t0[o]; p in t && t[p] == t0[p]
  {
    hide Word;
    var p, n := o + t0[o], |m0|;
    OverranReads(m0, h, t0, links0, l0, m, o, end);
    SameLists(m0, h, t0, links0, l0, m, t, links, l, |l0|);
    SameBlocks(m0, h, t0, links0, l0, m, t, links, l);
    GoodTiling(m0, h, t0, links0, l0);
    GoodTiling(m, h, t, links, l);
    SameSize(t0, t, n, p);
  }

  lemma SameBlocks(m0: seq<byte>, h: nat, t0: map<nat, nat>, links0: map<nat, nat>, l0: seq<nat>,
                   m: seq<byte>, t: map<nat, nat>, links: map<nat, nat>, l: seq<nat>)
    requires Good(m0, h, t0, links0, l0) && Good(m, h, t, links, l) && l == l0
    requires LiveBlocks(t, links) == LiveBlocks(t0, links0)
    ensures t.Keys == t0.Keys
  {
    hide Word;
    SameLiveBlocks(t, links, t0, links0);
    assert links.Keys == links0.Keys;
    assert t.Keys == (t.Keys - links.Keys) + links.Keys;
    assert t0.Keys == (t0.Keys - links0.Keys) + links0.Keys;
  }

  /** Two tilings by blocks at the same offsets are the same. */
  lemma SameSize(t0: map<nat, nat>, t: map<nat, nat>, n: nat, p: nat)
    requires Tiling(t0, n) && Tiling(t, n) && t.Keys == t0.Keys && p in t0
    ensures t[p] == t0[p]
  {
    hide Tiling;
    BlockFacts(t0, n, p);
    BlockFacts(t, n, p);
    if p + t0[p] in t { Neighbour(t, n, p, p + t0[p]); }
    if p + t[p] in t0 { Neighbour(t0, n, p, p + t[p]); }
  }

  /** The blocks tile the region after that if and only if the bytes behind the block are what they were. */
  lemma OverrunTileable(m0: seq<byte>, h: nat, t: map<nat, nat>, links: map<nat, nat>, l: seq<nat>, m: seq<byte>,
                        o: nat, end: nat)
    requires Good(m0, h, t, links, l) && Overran(m0, t, links, m, o, end)
    ensures SameBytes(m0, m, o + t[o], end) ==> Good(m, h, t, links, l)
    ensures Tileable(m, h, LiveBlocks(t, links)) <==> SameBytes(m0, m, o + t[o], end)
  {
    hide Good, LiveBlocks, Word, Tiling;
    if SameBytes(m0, m, o + t[o], end) {
      PayloadEncodes(m0, m, h, t, links, l, o);
    } else {
      GoodTiling(m0, h, t, links, l);
      BlockFacts(t, |m0|, o);
      forall t', links', l' | Good(m, h, t', links', l') ensures LiveBlocks(t', links') != LiveBlocks(t, links) {
        if LiveBlocks(t', links') == LiveBlocks(t, links) {
          var p := o + t[o];
          OverranSize(m0, h, t, links, l, m, t', links', l', o, end);
          BlockReads(m0, h, t, links, l, p);
          BlockReads(m, h, t', links', l', p);
          BytesOfWord(m0, m, p);
        }
      }
    }
  }
}
