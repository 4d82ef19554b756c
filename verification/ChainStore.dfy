/** The key-value cells of a hash table: chains threaded through a pool of cells by their next fields. */
module ChainStores {
  import opened Commons
  import opened MemRefs
  import opened Keys
  import opened HashSpec

  const NO_KVP := -1

  /** memory/manager.h, key_value; `next` is the index of a cell. */
  datatype Kvp = Kvp(key: MemRef, val: MemRef, next: int)

  ghost predicate ChainAt(s: seq<Kvp>, head: int, c: seq<int>) {
    && (forall k :: 0 <= k < |c| ==> 0 <= c[k] < |s|)
    && Distinct(c)
    && head == (if c == [] then NO_KVP else c[0])
    && (forall j, k :: 0 <= j < k < |c| && k == j + 1 ==> s[c[j]].next == c[k])
    && (c != [] ==> s[c[|c| - 1]].next == NO_KVP)
  }

  /** Every bucket starts its chain, and no cell is in two chains. */
  ghost predicate Linked(s: seq<Kvp>, heads: seq<int>, chains: seq<seq<int>>, own: map<int, int>) {
    && |heads| == |chains|
    && (forall i :: 0 <= i < |chains| ==> ChainAt(s, heads[i], chains[i]))
    && (forall i :: 0 <= i < |chains| ==> Owned(own, i, chains[i]))
  }

  ghost predicate Owned(own: map<int, int>, i: int, c: seq<int>) {
    forall k :: 0 <= k < |c| ==> c[k] in own && own[c[k]] == i
  }

  ghost predicate AllKeys(h: Strings, s: seq<Kvp>) {
    forall i :: 0 <= i < |s| ==> IsKey(h, s[i].key)
  }

  ghost function EntryOf(h: Strings, s: seq<Kvp>, x: int): Entry
    requires 0 <= x < |s| && IsKey(h, s[x].key)
  {
    Entry(KeyOf(h, s[x].key), s[x].val)
  }

  ghost predicate InRange(s: seq<Kvp>, c: seq<int>) {
    forall k :: 0 <= k < |c| ==> 0 <= c[k] < |s|
  }

  /** The entries of a chain. */
  ghost function Entries(h: Strings, s: seq<Kvp>, c: seq<int>): (r: seq<Entry>)
    requires AllKeys(h, s) && InRange(s, c)
    ensures |r| == |c|
    ensures forall k :: 0 <= k < |c| ==> r[k] == EntryOf(h, s, c[k])
  {
    seq(|c|, k requires 0 <= k < |c| => EntryOf(h, s, c[k]))
  }

  ghost predicate AllInRange(s: seq<Kvp>, chains: seq<seq<int>>) {
    forall i :: 0 <= i < |chains| ==> InRange(s, chains[i])
  }

  ghost function TableOf(h: Strings, s: seq<Kvp>, chains: seq<seq<int>>): (t: Table)
    requires AllKeys(h, s) && AllInRange(s, chains)
    ensures |t| == |chains|
    ensures forall i :: 0 <= i < |t| ==> t[i] == Entries(h, s, chains[i])
  {
    seq(|chains|, i requires 0 <= i < |chains| => Entries(h, s, chains[i]))
  }

  /** A chain depends only on the next fields of its cells. */
  lemma ChainFrame(s: seq<Kvp>, s': seq<Kvp>, head: int, c: seq<int>)
    requires ChainAt(s, head, c) && |s| <= |s'|
    requires forall k :: 0 <= k < |c| ==> s'[c[k]].next == s[c[k]].next
    ensures ChainAt(s', head, c)
  {}

  lemma ChainTail(s: seq<Kvp>, head: int, c: seq<int>)
    requires ChainAt(s, head, c) && c != []
    ensures head == c[0] && ChainAt(s, s[head].next, c[1..])
  {}

  lemma ChainCons(s: seq<Kvp>, s': seq<Kvp>, head: int, c: seq<int>, x: int)
    requires ChainAt(s, head, c) && x !in c && 0 <= x < |s'| && |s| <= |s'|
    requires s'[x].next == head && forall k :: 0 <= k < |c| ==> s'[c[k]].next == s[c[k]].next
    ensures ChainAt(s', x, [x] + c)
  {
    var d := [x] + c;
    assert forall k :: 0 <= k < |d| ==> d[k] == if k == 0 then x else c[k - 1];
  }

  /** Unlinking the cell at position p > 0 by rewriting the next field before it. */
  lemma ChainUnlink(s: seq<Kvp>, s': seq<Kvp>, head: int, c: seq<int>, p: nat)
    requires ChainAt(s, head, c) && 0 < p < |c|
    requires s' == s[c[p - 1] := s[c[p - 1]].(next := s[c[p]].next)]
    ensures ChainAt(s', head, c[..p] + c[p + 1..])
  {
    var d := c[..p] + c[p + 1..];
    assert forall k :: 0 <= k < |d| ==> d[k] == if k < p then c[k] else c[k + 1];
  }

  /** Entries do not depend on next fields, nor on cells outside the chain. */
  lemma EntriesFrame(h: Strings, s: seq<Kvp>, s': seq<Kvp>, c: seq<int>)
    requires AllKeys(h, s) && AllKeys(h, s') && InRange(s, c) && |s| <= |s'|
    requires forall k :: 0 <= k < |c| ==> s'[c[k]].key == s[c[k]].key && s'[c[k]].val == s[c[k]].val
    ensures InRange(s', c) && Entries(h, s', c) == Entries(h, s, c)
  {}

  /** A cell that is in no chain goes in front of chain b. */
  lemma LinkFront(s: seq<Kvp>, s': seq<Kvp>, heads: seq<int>, chains: seq<seq<int>>, own: map<int, int>, b: nat, x: int)
    requires Linked(s, heads, chains, own) && b < |chains| && |s| <= |s'| && 0 <= x < |s'| && x !in own
    requires s'[x].next == heads[b]
    requires forall y :: 0 <= y < |s| && y != x ==> s'[y].next == s[y].next
    ensures Linked(s', heads[b := x], chains[b := [x] + chains[b]], own[x := b])
  {
    var heads', chains' := heads[b := x], chains[b := [x] + chains[b]];
    forall i | 0 <= i < |chains|
      ensures ChainAt(s', heads'[i], chains'[i]) && Owned(own[x := b], i, chains'[i])
    {
      assert ChainAt(s, heads[i], chains[i]) && Owned(own, i, chains[i]);
      assert forall k :: 0 <= k < |chains[i]| ==> chains[i][k] != x;
      if i == b {
        ChainCons(s, s', heads[b], chains[b], x);
      } else {
        ChainFrame(s, s', heads[i], chains[i]);
      }
    }
  }

  /** Chain b replaced by a chain of some of its own cells, the other next fields staying. */
  lemma LinkReplace(s: seq<Kvp>, s': seq<Kvp>, heads: seq<int>, chains: seq<seq<int>>, own: map<int, int>,
                    b: nat, head: int, c: seq<int>)
    requires Linked(s, heads, chains, own) && b < |chains| && |s'| == |s|
    requires ChainAt(s', head, c) && forall x :: x in c ==> x in chains[b]
    requires forall x :: 0 <= x < |s| && x !in chains[b] ==> s'[x].next == s[x].next
    ensures Linked(s', heads[b := head], chains[b := c], own)
  {
    var heads', chains' := heads[b := head], chains[b := c];
    forall i | 0 <= i < |chains|
      ensures ChainAt(s', heads'[i], chains'[i]) && Owned(own, i, chains'[i])
    {
      assert ChainAt(s, heads[i], chains[i]) && Owned(own, i, chains[i]) && Owned(own, b, chains[b]);
      if i != b {
        forall k | 0 <= k < |chains[i]| ensures s'[chains[i][k]].next == s[chains[i][k]].next {
          assert chains[i][k] !in chains[b];
        }
        ChainFrame(s, s', heads[i], chains[i]);
      } else {
        forall k | 0 <= k < |c| ensures c[k] in own && own[c[k]] == b {
          assert c[k] in c;
          var j :| 0 <= j < |chains[b]| && chains[b][j] == c[k];
        }
      }
    }
  }
}
