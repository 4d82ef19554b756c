/** How datastructs/refarray.c lays out a growable array in the payload of a block: its three fields and the bytes
    of its elements, and what the writes and copies of its operations do to them. */
module ArrayLayouts {
  import opened Tilings
  import opened DynLayouts
  import opened DynSpoils

  const OVERHEAD := 12   // element_size, element_count and element_capacity

  /** The bytes of n elements, element_size times n; spelled as a sum to keep proofs linear. */
  function Area(es: int, n: int): (r: int)
    ensures es >= 0 ==> r >= 0
    decreases n
  {
    if n <= 0 then 0 else Area(es, n - 1) + es
  }

  lemma {:induction false} AreaIsProduct(es: int, n: nat)
    ensures Area(es, n) == es * n
  {
    if n > 0 {
      AreaIsProduct(es, n - 1);
      assert es * (n - 1) + es == es * n;
    }
  }

  lemma {:induction false} Fits(es: int, count: int, cap: int)
    requires 1 <= es && 0 <= count <= cap
    ensures count <= Area(es, count) <= Area(es, cap) && cap <= Area(es, cap)
    ensures count < cap ==> Area(es, count) + es <= Area(es, cap)
    ensures Area(es, count + 1) == Area(es, count) + es
    decreases cap, count
  {
    if count < cap {
      Fits(es, count, cap - 1);
    } else if 0 < count {
      Fits(es, count - 1, cap - 1);
    }
  }

  /** The payload of an array with this capacity. */
  function SizeFor(es: nat, cap: nat): nat {
    Area(es, cap) + OVERHEAD
  }

  lemma SizeIs(es: nat, cap: nat)
    ensures SizeFor(es, cap) == Area(es, cap) + 12 >= 12 && Area(es, 0) == 0
  {}

  /** The array whose block starts at o: its fields, and the bytes of its elements but for those from `lost` up
      to `found`. */
  ghost predicate ArrayAt(m: seq<byte>, o: nat, es: int, count: int, cap: int, data: seq<byte>, lost: int, found: int) {
    && o + 16 + |data| <= |m| && Read32(m, o + 12) == cap && MostAt(m, o, es, count, data, lost, found)
  }

  /** The same without its capacity. */
  ghost predicate MostAt(m: seq<byte>, o: nat, es: int, count: int, data: seq<byte>, lost: int, found: int) {
    && o + 16 + |data| <= |m| && Read32(m, o + 4) == es && Read32(m, o + 8) == count
    && forall i :: 0 <= i < |data| && (i < lost || found <= i) ==> m[o + 16 + i] == data[i]
  }

  /** What the fields say fits a block of `size` bytes. */
  predicate Sized(es: int, count: int, cap: int, data: seq<byte>, size: int) {
    1 <= es && 0 <= count <= cap && |data| == Area(es, count) && Area(es, cap) + 16 <= size
  }

  /** A write leaves the words that it does not touch. */
  lemma ReadElsewhere(m0: seq<byte>, m1: seq<byte>, at: nat, v: int, o: nat)
    requires Wrote32(m0, m1, at, v) && o + 4 <= |m0| && (o + 4 <= at || at + 4 <= o)
    ensures |m1| == |m0| && Read32(m1, o) == Read32(m0, o)
  {
    hide Word;
  }

  lemma WroteWithin(m0: seq<byte>, m1: seq<byte>, at: nat, v: int)
    requires Wrote32(m0, m1, at, v)
    ensures ChangedWithin(m0, m1, at, at + 4) && |m1| == |m0| && at + 4 <= |m1| && Read32(m1, at) == v
  {
    hide Word;
  }

  lemma ChangedTwice(m0: seq<byte>, m1: seq<byte>, m2: seq<byte>, from: nat, to: nat, from': nat, to': nat, a: nat,
                     b: nat)
    requires ChangedWithin(m0, m1, from, to) && ChangedWithin(m1, m2, from', to')
    requires a <= from && a <= from' && to <= b && to' <= b
    ensures ChangedWithin(m0, m2, a, b)
  {}

  /** ra_init_raw: the fields of an empty array. */
  lemma NewFields(m0: seq<byte>, m1: seq<byte>, m2: seq<byte>, m3: seq<byte>, o: nat, es: int, cap: int)
    requires Wrote32(m0, m1, o + 4, es) && Wrote32(m1, m2, o + 12, cap) && Wrote32(m2, m3, o + 8, 0)
    ensures ArrayAt(m3, o, es, 0, cap, [], 0, 0) && ChangedWithin(m0, m3, o + 4, o + 16)
  {
    hide Wrote32, Read32, ChangedWithin;
    WroteWithin(m0, m1, o + 4, es);
    WroteWithin(m1, m2, o + 12, cap);
    WroteWithin(m2, m3, o + 8, 0);
    ReadElsewhere(m1, m2, o + 12, cap, o + 4);
    ReadElsewhere(m2, m3, o + 8, 0, o + 4);
    ReadElsewhere(m2, m3, o + 8, 0, o + 12);
    ChangedTwice(m0, m1, m2, o + 4, o + 8, o + 12, o + 16, o + 4, o + 16);
    ChangedTwice(m0, m2, m3, o + 4, o + 16, o + 8, o + 12, o + 4, o + 16);
  }

  /** ra_append, after the reallocation: another capacity. */
  lemma CapacityAt(m: seq<byte>, m': seq<byte>, o: nat, es: int, count: int, data: seq<byte>, lost: int, found: int,
                   cap: int)
    requires MostAt(m, o, es, count, data, lost, found) && Wrote32(m, m', o + 12, cap)
    ensures ArrayAt(m', o, es, count, cap, data, lost, found)
  {
    hide Read32;
    ReadElsewhere(m, m', o + 12, cap, o + 4);
    ReadElsewhere(m, m', o + 12, cap, o + 8);
  }

  /** ra_append, at the end: the count one up and the element behind the last one. */
  lemma ElementAt(m: seq<byte>, m1: seq<byte>, m2: seq<byte>, o: nat, es: int, count: int, cap: int, data: seq<byte>,
                  lost: int, element: seq<byte>)
    requires ArrayAt(m, o, es, count, cap, data, lost, |data|) && Wrote32(m, m1, o + 8, count + 1)
    requires var end := o + 16 + |data|;
             ChangedWithin(m1, m2, end, end + |element|) && end + |element| <= |m2|
             && m2[end..end + |element|] == element
    ensures ArrayAt(m2, o, es, count + 1, cap, data + element, lost, |data|)
    ensures ChangedWithin(m, m2, o + 8, o + 16 + |data| + |element|)
  {
    var end := o + 16 + |data|;
    WroteWithin(m, m1, o + 8, count + 1);
    ReadElsewhere(m, m1, o + 8, count + 1, o + 4);
    ReadElsewhere(m, m1, o + 8, count + 1, o + 12);
    hide Wrote32;
    ReadUnchanged(m1, m2, end, end + |element|, o + 4);
    ReadUnchanged(m1, m2, end, end + |element|, o + 8);
    ReadUnchanged(m1, m2, end, end + |element|, o + 12);
    hide Read32;
    ChangedTwice(m, m1, m2, o + 8, o + 12, end, end + |element|, o + 8, end + |element|);
    forall i | |data| <= i < |data| + |element| ensures m2[o + 16 + i] == (data + element)[i] {
      assert m2[end..end + |element|][i - |data|] == element[i - |data|];
    }
  }

  /** The array in a region that has the same bytes there. */
  lemma ArrayFrame(m: seq<byte>, m': seq<byte>, o: nat, es: int, count: int, cap: int, data: seq<byte>, lost: int,
                   found: int)
    requires ArrayAt(m, o, es, count, cap, data, lost, found) && SameBytes(m, m', o + 4, o + 16 + |data|)
    ensures ArrayAt(m', o, es, count, cap, data, lost, found)
  {
    ReadSame(m, m', o + 4, o + 16 + |data|, o + 4);
    ReadSame(m, m', o + 4, o + 16 + |data|, o + 8);
    ReadSame(m, m', o + 4, o + 16 + |data|, o + 12);
    hide Read32;
  }

  lemma CopiedByte(m: seq<byte>, m': seq<byte>, from: nat, to: nat, count: nat, at: nat)
    requires CopiedBytes(m, m', from, to, count) && at < count
    ensures m'[to + at] == m[from + at]
  {
    assert m'[to..to + count][at] == m[from..from + count][at];
  }

  lemma CopiedRead(m: seq<byte>, m': seq<byte>, from: nat, to: nat, count: nat, at: nat)
    requires CopiedBytes(m, m', from, to, count) && at + 4 <= count
    ensures Read32(m', to + at) == Read32(m, from + at)
  {
    hide Word, CopiedBytes;
    InCopy(m, m', from, to, count);
    CopiedByte(m, m', from, to, count, at);
    CopiedByte(m, m', from, to, count, at + 1);
    CopiedByte(m, m', from, to, count, at + 2);
    CopiedByte(m, m', from, to, count, at + 3);
  }

  /** The array when its payload was copied. */
  lemma CopiedArray(m: seq<byte>, m': seq<byte>, o: nat, o': nat, count': nat, es: int, count: int, cap: int,
                    data: seq<byte>)
    requires ArrayAt(m, o, es, count, cap, data, |data|, |data|) && CopiedBytes(m, m', o + 4, o' + 4, count')
    requires 12 + |data| <= count'
    ensures ArrayAt(m', o', es, count, cap, data, |data|, |data|)
  {
    CopiedRead(m, m', o + 4, o' + 4, count', 0);
    CopiedRead(m, m', o + 4, o' + 4, count', 4);
    CopiedRead(m, m', o + 4, o' + 4, count', 8);
    hide Read32, CopiedBytes;
    forall i | 0 <= i < |data| ensures o' + 16 + |data| <= |m'| && m'[o' + 16 + i] == data[i] {
      CopiedByte(m, m', o + 4, o' + 4, count', 12 + i);
    }
    InCopy(m, m', o + 4, o' + 4, count');
  }

  lemma InCopy(m: seq<byte>, m': seq<byte>, from: nat, to: nat, count: int)
    requires CopiedBytes(m, m', from, to, count)
    ensures 0 <= count && from + count <= |m| && to + count <= |m'|
  {}

  /** The array when its payload was copied into the misplaced block: the element bytes from the last word of the
      old region on are lost. */
  lemma DisplacedArray(m0: seq<byte>, t0: map<nat, nat>, links0: map<nat, nat>, o: nat, m: seq<byte>, h: nat, ret: nat,
                       amount: nat, es: int, count: int, cap: int, data: seq<byte>)
    requires Displaced(m0, t0, links0, o, m, h, ret, amount) && 16 + |data| <= t0[o] && o + t0[o] <= |m0|
    requires ArrayAt(m0, o, es, count, cap, data, |data|, |data|) && 12 + |data| <= amount
    ensures MostAt(m, ret, es, count, data, |m0| - 20 - o, |data|)
  {
    hide LiveBelow, Read32, CopiedBytes;
    var k := Cut(o + t0[o], |m0|) - o - 4;
    CopiedRead(m0, m, o + 4, ret + 4, k, 0);
    CopiedRead(m0, m, o + 4, ret + 4, k, 4);
    forall i | 0 <= i < |data| && i < |m0| - 20 - o ensures m[ret + 16 + i] == data[i] {
      CopiedByte(m0, m, o + 4, ret + 4, k, 12 + i);
    }
  }

  /** The array itself after the misplaced block was handed out. */
  lemma SpoiltArray(m0: seq<byte>, t0: map<nat, nat>, links0: map<nat, nat>, m: seq<byte>, o: nat,
                    es: int, count: int, cap: int, data: seq<byte>)
    requires LiveBelow(m0, m, t0, links0) && o in t0 && o !in links0 && 16 + |data| <= t0[o]
    requires o + 20 <= |m0|
    requires ArrayAt(m0, o, es, count, cap, data, |data|, |data|)
    ensures ArrayAt(m, o, es, count, cap, data, |m0| - 20 - o, |data|)
  {
    var end := Cut(o + t0[o], |m0|);
    assert SameBytes(m0, m, o, end);
    ReadSame(m0, m, o, end, o + 4);
    ReadSame(m0, m, o, end, o + 8);
    ReadSame(m0, m, o, end, o + 12);
    hide Read32;
  }

  /** ra_clone: the count of the new array, and its bytes copied. */
  lemma ClonedAt(m0: seq<byte>, m1: seq<byte>, m2: seq<byte>, o: nat, r: nat, total: nat,
                 es: int, count: int, cap: int, data: seq<byte>, lost: int)
    requires ArrayAt(m0, o, es, count, cap, data, lost, |data|) && ArrayAt(m0, r, es, 0, cap, [], 0, 0)
    requires Wrote32(m0, m1, r + 8, count) && CopiedBytes(m1, m2, o + 16, r + 16, total)
    requires ChangedWithin(m1, m2, r + 16, r + 16 + total) && |data| <= total
    requires o + 16 + total <= r + 4 || r + 16 + total <= o + 4
    ensures ArrayAt(m2, r, es, count, cap, data, lost, |data|) && ArrayAt(m2, o, es, count, cap, data, lost, |data|)
    ensures ChangedWithin(m0, m2, r + 4, r + 16 + total)
  {
    WroteWithin(m0, m1, r + 8, count);
    Untouched(m0, m1, o + 4, o + 16 + |data|, r + 8, r + 12);
    ArrayFrame(m0, m1, o, es, count, cap, data, lost, |data|);
    Untouched(m1, m2, o + 4, o + 16 + |data|, r + 16, r + 16 + total);
    ArrayFrame(m1, m2, o, es, count, cap, data, lost, |data|);
    ReadElsewhere(m0, m1, r + 8, count, r + 4);
    ReadElsewhere(m0, m1, r + 8, count, r + 12);
    hide Wrote32, Read32, CopiedBytes;
    ChangedTwice(m0, m1, m2, r + 8, r + 12, r + 16, r + 16 + total, r + 4, r + 16 + total);
    FilledAt(m1, m2, o, r, total, es, count, cap, data, lost);
  }

  lemma Untouched(m: seq<byte>, m': seq<byte>, a: nat, b: nat, from: nat, to: nat)
    requires ChangedWithin(m, m', from, to) && (b <= from || to <= a) && b <= |m|
    ensures SameBytes(m, m', a, b)
  {}

  /** The fields are there already, the bytes come from the array at o. */
  lemma FilledAt(m1: seq<byte>, m2: seq<byte>, o: nat, r: nat, total: nat,
                 es: int, count: int, cap: int, data: seq<byte>, lost: int)
    requires MostAt(m1, o, es, count, data, lost, |data|) && MostAt(m1, r, es, count, [], 0, 0)
    requires Read32(m1, r + 12) == cap
    requires CopiedBytes(m1, m2, o + 16, r + 16, total) && ChangedWithin(m1, m2, r + 16, r + 16 + total)
             && |data| <= total
    ensures ArrayAt(m2, r, es, count, cap, data, lost, |data|)
  {
    hide Word;
    ReadUnchanged(m1, m2, r + 16, r + 16 + total, r + 4);
    ReadUnchanged(m1, m2, r + 16, r + 16 + total, r + 8);
    ReadUnchanged(m1, m2, r + 16, r + 16 + total, r + 12);
    hide Read32, CopiedBytes, ChangedWithin;
    InCopy(m1, m2, o + 16, r + 16, total);
    forall i | 0 <= i < |data| && i < lost ensures m2[r + 16 + i] == data[i] {
      CopiedByte(m1, m2, o + 16, r + 16, total, i);
    }
  }

  /** dyn_pool_realloc keeps a block of `size` bytes although `requested` bytes and the header do not fit:
      its test compares the size of the whole block with the payload that is asked for. */
  predicate TooClose(size: int, requested: int) {
    requested < size < requested + HEADER
  }

  lemma {:induction false} AreaDoubles(es: int, n: nat)
    ensures Area(es, n * 2) == Area(es, n) * 2
  {
    if n > 0 {
      AreaDoubles(es, n - 1);
      assert Area(es, n * 2) == Area(es, n * 2 - 1) + es == Area(es, (n - 1) * 2) + es + es;
    }
  }

  /** Doubling the capacity of an array in a block of exactly its size goes wrong if and only if its
      elements take one to three bytes. */
  lemma DoublingTooCloseIff(es: nat, cap: nat)
    ensures TooClose(HEADER + OVERHEAD + es * cap, OVERHEAD + es * (cap * 2)) <==> 1 <= es * cap <= 3
  {
    AreaIsProduct(es, cap);
    AreaIsProduct(es, cap * 2);
    AreaDoubles(es, cap);
    hide Area;
  }

  /** It never goes wrong when elements and blocks come in whole words. */
  lemma WordsNeverTooClose(size: nat, es: nat, cap: nat)
    requires size % 4 == 0 && es % 4 == 0
    ensures !TooClose(size, OVERHEAD + Area(es, cap * 2))
  {
    AreaInWords(es, cap * 2);
  }

  lemma {:induction false} AreaInWords(es: int, n: int)
    requires es % 4 == 0
    ensures Area(es, n) % 4 == 0
    decreases n
  {
    if n > 0 { AreaInWords(es, n - 1); }
  }

  /** The capacity after n appends to an array with this count and capacity. */
  function CapacityAfter(count: nat, cap: nat, n: nat): nat {
    if n == 0 then cap
    else
      var c := CapacityAfter(count, cap, n - 1);
      if count + n - 1 == c then c * 2 else c
  }

  /** The elements fit, and a capacity that grew is less than twice what they need. */
  lemma {:induction false} CapacityFollows(count: nat, cap: nat, n: nat)
    requires 1 <= cap && count <= cap
    ensures count + n <= CapacityAfter(count, cap, n)
    ensures CapacityAfter(count, cap, n) == cap || CapacityAfter(count, cap, n) < 2 * (count + n)
  {
    if n > 0 {
      CapacityFollows(count, cap, n - 1);
    }
  }

  function Concat(elements: seq<seq<byte>>): seq<byte> {
    if elements == [] then [] else Concat(elements[..|elements| - 1]) + elements[|elements| - 1]
  }

  lemma StartOfRun(count: nat, cap: nat, elements: seq<seq<byte>>, data: seq<byte>)
    ensures CapacityAfter(count, cap, 0) == cap && data + Concat(elements[..0]) == data && count + 0 == count
  {
    assert data + [] == data;
  }

  lemma NextOfRun(es: int, count: nat, cap: nat, elements: seq<seq<byte>>, data: seq<byte>, done: nat)
    requires done < |elements| && 1 <= cap && count <= cap && forall e :: e in elements ==> |e| == es
    ensures var c := CapacityAfter(count, cap, done);
            1 <= c && CapacityAfter(count, cap, done + 1) == if count + done == c then c * 2 else c
    ensures data + Concat(elements[..done + 1]) == data + Concat(elements[..done]) + elements[done]
    ensures |elements[done]| == es
  {
    CapacityFollows(count, cap, done);
    assert elements[..done + 1][..done] == elements[..done];
    assert data + (Concat(elements[..done]) + elements[done]) == data + Concat(elements[..done]) + elements[done];
  }

  lemma DoubledArea(es: int, cap: int)
    requires 1 <= es && 1 <= cap
    ensures Area(es, cap) + es == Area(es, cap + 1) <= Area(es, cap * 2)
  {
    Fits(es, cap, cap);
    Fits(es, cap + 1, cap * 2);
  }

  /** Where the test is too close, the append after the doubling writes at most three bytes too far. */
  lemma OverrunIsShort(size: nat, es: int, cap: int)
    requires 1 <= es && 1 <= cap && TooClose(size, Area(es, cap * 2) + OVERHEAD)
    ensures Area(es, cap + 1) + 16 < size + 4
  {
    Fits(es, 1, cap);
    Fits(es, cap, cap);
    AreaDoubles(es, cap);
  }

  /** In a block of exactly the array's size it always writes too far. */
  lemma ExactBlockOverruns(es: nat, cap: nat)
    requires TooClose(HEADER + SizeFor(es, cap), SizeFor(es, cap * 2))
    ensures HEADER + SizeFor(es, cap) < HEADER + SizeFor(es, cap + 1) < HEADER + SizeFor(es, cap) + 4
    ensures 1 <= es * cap <= 3
  {
    AreaIsProduct(es, cap);
    AreaIsProduct(es, cap * 2);
    AreaIsProduct(es, cap + 1);
    DoublingTooCloseIff(es, cap);
    assert es >= 1 && cap >= 1;
    AreaDoubles(es, cap);
    Fits(es, 1, cap);
  }

  /** Less than one element is left exactly when the array is full. */
  lemma Remaining(es: int, count: int, cap: int)
    requires 1 <= es && 0 <= count <= cap
    ensures Area(es, cap) + OVERHEAD - (Area(es, count) + OVERHEAD) < es <==> count == cap
  {
    Fits(es, count, cap);
  }
}
