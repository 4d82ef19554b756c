/** memory/manager.c and memory/gc.c: the typed reference heap and its mark-and-sweep collector. */
module Heaps {
  import opened FixedPools
  import opened MemRefs
  import opened Graphs

  /** The part of a reference cell after its first word, which is the offset of the target or, in a free
      cell, the free-list link. */
  datatype Tag = Tag(typ: int, flags: int)

  /** The pools that hold the targets; strings and arrays share the dynamic pool. */
  datatype Space = DynSpace | HashSpace | ListSpace | FuncSpace | KvpSpace | ScopeSpace | StackSpace
                 | GoSpace | LocSpace | LocRefSpace

  function SpaceOf(typ: int): Space {
    if typ == HASH then HashSpace
    else if typ == LIST then ListSpace
    else if typ == FUNCTION then FuncSpace
    else if typ == KVP then KvpSpace
    else if typ == SCOPE then ScopeSpace
    else if typ == STACK then StackSpace
    else if typ == GAME_OBJECT then GoSpace
    else if typ == LOCATION then LocSpace
    else if typ == LOCATION_REFERENCE then LocRefSpace
    else DynSpace
  }

  /** Only strings and arrays share a pool. */
  lemma SpacesDiffer(a: int, b: int)
    requires HASH <= a < b <= LOCATION_REFERENCE
    ensures SpaceOf(a) == SpaceOf(b) <==> a == STRING && b == ARRAY
  {}

  datatype Target = Target(space: Space, off: int)

  class Heap {
    const refs: FixedPool<Tag>
    var targets: map<Target, Obj>     // the live cells of all target pools
    ghost var graph: Graph            // what each live reference cell stands for
    ghost var owner: map<Target, nat> // the reference cell of each target
    ghost var marked: set<int>

    function TargetOf(r: nat): Target
      reads refs, refs.cells
      requires r < refs.cells.Length
    {
      Target(SpaceOf(refs.cells[r].rest.typ), refs.cells[r].word)
    }

    /** Reference cell r is live and stands for the object its target pool holds. */
    ghost predicate Holds(r: nat)
      reads this, refs, refs.cells
    {
      && r in graph && refs.Live(r) && r < refs.cells.Length
      && refs.cells[r].rest == Tag(TypeOf(graph[r]), if r in marked then 1 else 0)
      && TargetOf(r) in targets && targets[TargetOf(r)] == graph[r]
      && TargetOf(r) in owner && owner[TargetOf(r)] == r
    }

    ghost predicate FreeCell(r: nat)
      reads refs, refs.cells
    {
      r < refs.cells.Length && refs.cells[r].rest == Tag(NULL_TYPE, 0)
    }

    /** The pool of reference cells, the target pools and the graph agree; the type of a cell is zero
        exactly when the cell is free; every target belongs to one reference cell. */
    ghost predicate Valid()
      reads this, refs, refs.cells
    {
      && refs.Valid() && refs.zero == Tag(NULL_TYPE, 0)
      && (forall r: nat :: r < refs.elementCount ==> if refs.Live(r) then Holds(r) else FreeCell(r))
      && (forall r :: r in graph ==> r < refs.elementCount && refs.Live(r))
      && (forall t :: t in targets ==>
            t in owner && owner[t] in graph && owner[t] < refs.cells.Length && TargetOf(owner[t]) == t)
      && marked <= graph.Keys
    }

    /** Every target belongs to the reference cell that its owner says. */
    ghost predicate Owned()
      reads `targets, `owner, `graph, refs, refs.cells
    {
      forall t :: t in targets ==>
        t in owner && owner[t] in graph && owner[t] < refs.cells.Length && TargetOf(owner[t]) == t
    }

    lemma UnpackValid()
      requires Valid()
      ensures refs.Valid() && refs.zero == Tag(NULL_TYPE, 0) && marked <= graph.Keys && Owned()
      ensures forall r: nat :: r < refs.elementCount ==> Settled(r)
      ensures forall r :: r in graph ==> r < refs.elementCount && refs.Live(r)
      ensures refs.cells.Length == refs.elementCount
    {
      hide Holds, FreeCell;
    }

    lemma PackValid()
      requires refs.Valid() && refs.zero == Tag(NULL_TYPE, 0) && marked <= graph.Keys && Owned()
      requires forall r: nat :: r < refs.elementCount ==> Settled(r)
      requires forall r :: r in graph ==> r < refs.elementCount && refs.Live(r)
      ensures Valid()
    {
      hide Holds, FreeCell;
      forall r: nat | r < refs.elementCount
        ensures if refs.Live(r) then Holds(r) else FreeCell(r)
      {
        assert Settled(r);
      }
    }

    constructor (initialCount: nat)
      requires initialCount >= 1
      ensures Valid() && fresh(refs) && fresh(refs.cells)
      ensures graph == map[] && marked == {}
    {
      refs := new FixedPool<Tag>(Tag(NULL_TYPE, 0), initialCount);
      targets, graph, owner, marked := map[], map[], map[], {};
      new;
      forall r: nat | r < initialCount ensures !refs.Live(r) {
        assert refs.free[r] == r;
      }
    }

    /** deref: the object a reference stands for. */
    method Deref(m: MemRef) returns (o: Obj)
      requires Valid() && !IsValue(m) && Resolves(graph, m)
      ensures o == graph[m.data] && TypeOf(o) == m.typ
    {
      assert refs.Live(m.data) && Holds(m.data);
      o := targets[Target(SpaceOf(m.typ), refs.cells[m.data].word)];
    }

    static lemma OneRef(m: MemRef)
      ensures Refs([m]) == if IsValue(m) then {} else {m.data}
    {
      assert m in [m];
    }

    /** gc_marker: flags a reference cell; false for a value and for a cell that was flagged. */
    method Mark(m: MemRef) returns (first: bool)
      requires Valid() && Resolves(graph, m)
      modifies this`marked, refs.cells
      ensures Valid()
      ensures marked == old(marked) + Refs([m])
      ensures first <==> !IsValue(m) && m.data !in old(marked)
      ensures if IsValue(m) then Refs([m]) == {} else Refs([m]) == {m.data}
      ensures !first ==> marked == old(marked)
    {
      hide Valid, FixedPool.Valid, SpaceOf, TypeOf, Owned, FreeCell;
      OneRef(m);
      if IsValue(m) {
        return false;
      }
      UnpackValid();
      assert Settled(m.data);
      if refs.cells[m.data].rest.flags == 1 {
        assert marked == marked + {m.data};
        return false;
      }
      SetFlag(m.data, 1);
      marked := marked + {m.data};
      forall q: nat | q < refs.elementCount ensures Settled(q) { assert old(Settled(q)); }
      PackValid();
      return true;
    }

    /** Writes the flag of a live cell; nothing else depends on it. */
    method SetFlag(r: nat, flag: int)
      requires refs.Valid() && refs.Live(r) && r < refs.cells.Length && Owned()
      modifies refs.cells
      ensures refs.Valid() && Owned()
      ensures refs.cells[r] == old(refs.cells[r]).(rest := old(refs.cells[r]).rest.(flags := flag))
      ensures forall q: nat :: q < refs.cells.Length && q != r ==> refs.cells[q] == old(refs.cells[q])
      ensures forall q: nat :: q != r ==> (FreeCell(q) <==> old(FreeCell(q)))
    {
      hide FixedPool.Valid, SpaceOf, TypeOf;
      var cell := refs.cells[r];
      refs.Put(r, cell.(rest := cell.rest.(flags := flag)));
      assert forall q: nat :: q < refs.cells.Length ==> TargetOf(q) == old(TargetOf(q));
    }

    /** malloc_ref for an object that was just put in cell `off` of its target pool.  The flag byte is not
        written; it is clear because free cells have clear flags. */
    method MallocRef(o: Obj, off: int) returns (m: MemRef)
      requires Valid() && marked == {} && Target(SpaceOf(TypeOf(o)), off) !in targets
      modifies this`targets, this`graph, this`owner, refs, refs.cells
      ensures Valid()
      ensures m.typ == TypeOf(o) && 0 <= m.data && m.data !in old(graph)
      ensures graph == old(graph)[m.data := o]
      ensures targets == old(targets)[Target(SpaceOf(TypeOf(o)), off) := o]
      ensures refs.cells == old(refs.cells) || fresh(refs.cells)
    {
      hide Valid, TypeOf, SpaceOf, FixedPool.Valid, Holds, FreeCell, Owned;
      UnpackValid();
      var r := TakeCell();
      m := MemRef(TypeOf(o), r);
      Point(r, o, off);
      PackValid();
    }

    /** The blank cell r becomes the reference to the new target. */
    method Point(r: nat, o: Obj, off: int)
      requires refs.Valid() && refs.cells.Length == refs.elementCount && r < refs.elementCount && refs.Live(r)
               && FreeCell(r)
      requires r !in graph && marked == {} && Target(SpaceOf(TypeOf(o)), off) !in targets && Owned()
      requires forall q: nat :: q < refs.elementCount && q != r ==> Settled(q)
      modifies this`targets, this`graph, this`owner, refs.cells
      ensures refs.Valid() && Owned() && forall q: nat :: q < refs.elementCount ==> Settled(q)
      ensures graph == old(graph)[r := o] && targets == old(targets)[Target(SpaceOf(TypeOf(o)), off) := o]
    {
      hide TypeOf, SpaceOf, FixedPool.Valid;
      var cell := refs.cells[r];
      var typ := TypeOf(o);
      refs.Put(r, Cell(off, cell.rest.(typ := typ)));
      var t := Target(SpaceOf(typ), off);
      targets := targets[t := o];
      owner := owner[t := r];
      graph := graph[r := o];
      forall q: nat | q < refs.elementCount ensures Settled(q) {
        if q == r { assert Holds(r); } else { assert old(Settled(q)); }
      }
    }

    ghost predicate Settled(q: nat)
      reads this, refs, refs.cells
    {
      if refs.Live(q) then Holds(q) else FreeCell(q)
    }

    /** The allocation of a reference cell: it is blank, and every other cell is as it was. */
    method TakeCell() returns (r: nat)
      requires Valid()
      modifies refs, refs.cells
      ensures refs.Valid() && r < refs.elementCount && refs.Live(r) && FreeCell(r) && r !in graph
      ensures refs.cells == old(refs.cells) || fresh(refs.cells)
      ensures forall q: nat :: q < refs.elementCount && q != r ==> Settled(q)
      ensures forall q :: q in graph ==> q < refs.elementCount && refs.Live(q) && refs.cells.Length == refs.elementCount
      ensures Owned()
    {
      assert forall q: nat :: q < refs.elementCount ==> Settled(q);
      r := refs.Alloc();
      forall q: nat | q < refs.elementCount && q != r
        ensures Settled(q)
      {
        if q < old(refs.elementCount) {
          assert old(Settled(q));
          assert refs.cells[q] == old(refs.cells[q]);
        }
      }
    }

    /** A store into the target of a live reference, as every mutator does through deref. */
    method Store(m: MemRef, o: Obj)
      requires Valid() && !IsValue(m) && Resolves(graph, m) && TypeOf(o) == m.typ
      modifies this`targets, this`graph
      ensures Valid() && graph == old(graph)[m.data := o]
    {
      assert refs.Live(m.data) && Holds(m.data);
      ghost var r := m.data;
      var t := Target(SpaceOf(m.typ), refs.cells[m.data].word);
      targets := targets[t := o];
      graph := graph[r := o];
      forall q: nat | q < refs.elementCount
        ensures if refs.Live(q) then Holds(q) else FreeCell(q)
      {
        if refs.Live(q) { assert old(Holds(q)); } else { assert old(FreeCell(q)); }
      }
    }

    /** What marking relies on, apart from the heap being valid. */
    ghost predicate Ready(len: map<int, nat>, grey: set<int>)
      reads this
    {
      Scannable(graph, len) && Closed(graph, marked, grey)
    }

    /** What marking has achieved since `before`: nothing was unmarked, what is new is reachable from
        `from`, and marked cells outside `grey` have marked successors. */
    ghost predicate Marked(len: map<int, nat>, grey: set<int>, before: set<int>, from: set<int>)
      reads this
    {
      && Scannable(graph, len) && Closed(graph, marked, grey)
      && before <= marked && from <= marked && OnlyReachable(graph, before, marked, from)
    }

    /** scan_graph with gc_marker: marks everything reachable from `current`, and nothing else, however
        cyclic the graph is. */
    method ScanGraph(current: MemRef, ghost len: map<int, nat>, ghost grey: set<int>)
      requires Valid() && Resolves(graph, current) && Ready(len, grey)
      modifies this`marked, refs.cells
      ensures Valid() && Marked(len, grey, old(marked), Refs([current]))
      decreases graph.Keys - marked, 1
    {
      hide Valid, Holds, Scannable, Closed, Reachable, OnlyReachable;
      ghost var before := marked;
      var first := Mark(current);
      if !first {
        AlreadyMarked(len, grey, before, Refs([current]));
        return;
      }
      ghost var c := current.data;
      Turned(len, grey, before, c);
      var o := Deref(current);
      if o.HashObj? {
        ScanHash(current, o.count, o.buckets, len, grey + {c});
      } else {
        FieldsResolve(len, c);
        ScanEach(Fields(o), len, grey + {c});
      }
      Finished(len, grey, before, c);
    }

    /** The fields of an object, the elements of an array or the values of a stack, one after another. */
    method ScanEach(s: seq<MemRef>, ghost len: map<int, nat>, ghost grey: set<int>)
      requires Valid() && AllResolve(graph, s) && Ready(len, grey)
      modifies this`marked, refs.cells
      ensures Valid() && Marked(len, grey, old(marked), Refs(s))
      decreases graph.Keys - marked, 2
    {
      hide Valid, Holds, Scannable, Closed, Reachable, OnlyReachable, Marked;
      ghost var before := marked;
      StartMarked(len, grey, before);
      for i := 0 to |s|
        invariant Valid() && Marked(len, grey, before, Refs(s[..i])) && before <= marked
      {
        ghost var mid := marked;
        MarkedReady(len, grey, before, Refs(s[..i]));
        ScanGraph(s[i], len, grey);
        Extended(len, grey, before, mid, Refs(s[..i]), Refs([s[i]]));
        RefsAppend(s, i);
      }
      assert s[..|s|] == s;
    }

    lemma AlreadyMarked(len: map<int, nat>, grey: set<int>, before: set<int>, from: set<int>)
      requires Ready(len, grey) && before == marked && from <= marked
      ensures Marked(len, grey, before, from)
    {}

    lemma StartMarked(len: map<int, nat>, grey: set<int>, before: set<int>)
      requires Ready(len, grey) && before == marked
      ensures Marked(len, grey, before, Refs([])) && Marked(len, grey, before, {})
    {
      assert Refs([]) == {};
    }

    lemma MarkedReady(len: map<int, nat>, grey: set<int>, before: set<int>, from: set<int>)
      requires Marked(len, grey, before, from)
      ensures Ready(len, grey) && before <= marked && from <= marked
      ensures Scannable(graph, len) && OnlyReachable(graph, before, marked, from)
    {}

    /** A cell just marked is grey. */
    lemma Turned(len: map<int, nat>, grey: set<int>, before: set<int>, c: int)
      requires Scannable(graph, len) && Closed(graph, before, grey) && marked == before + {c}
      ensures Ready(len, grey + {c})
    {
      MarkGrey(graph, before, grey, c);
    }

    lemma FieldsResolve(len: map<int, nat>, c: int)
      requires Scannable(graph, len) && c in graph
      ensures AllResolve(graph, Fields(graph[c]))
    {}

    /** Two steps of marking make one. */
    lemma Extended(len: map<int, nat>, grey: set<int>, before: set<int>, mid: set<int>, from: set<int>, more: set<int>)
      requires Scannable(graph, len) && before <= mid && from <= mid
      requires OnlyReachable(graph, before, mid, from)
      requires Marked(len, grey, mid, more)
      ensures Marked(len, grey, before, from + more)
    {
      forall r | r in marked && r !in before ensures Reachable(graph, from + more, r) {
        if r in mid { ReachMore(graph, from, from + more, r); } else { ReachMore(graph, more, from + more, r); }
      }
    }

    /** When all its successors are marked, a grey cell is done. */
    lemma Finished(len: map<int, nat>, grey: set<int>, before: set<int>, c: int)
      requires Marked(len, grey + {c}, before + {c}, Succs(graph, c))
      ensures Marked(len, grey, before, {c})
    {
      Blacken(graph, marked, grey, c);
      OnlyReachableVia(graph, before, before + {c}, marked, c);
    }

    lemma RefsAppend(s: seq<MemRef>, i: nat)
      requires i < |s|
      ensures Refs(s[..i + 1]) == Refs(s[..i]) + Refs([s[i]])
    {
      assert s[..i + 1] == s[..i] + [s[i]];
      forall x ensures x in Refs(s[..i + 1]) <==> x in Refs(s[..i]) + Refs([s[i]]) {
        if x in Refs(s[..i + 1]) {
          var m :| m in s[..i + 1] && !IsValue(m) && m.data == x;
          assert m in s[..i] || m in [s[i]];
        }
      }
    }

    /** The hash case of scan_graph.  The bucket array is flagged but not scanned as an array; its chains
        are walked, and the walk stops early when as many entries were seen as the hash has. */
    method ScanHash(h: MemRef, count: nat, buckets: MemRef, ghost len: map<int, nat>, ghost grey: set<int>)
      requires Valid() && Ready(len, grey)
      requires h.data in graph && graph[h.data] == HashObj(count, buckets)
      modifies this`marked, refs.cells
      ensures Valid() && Marked(len, grey, old(marked), Succs(graph, h.data))
      decreases graph.Keys - marked, 5
    {
      hide Valid, Holds, Scannable, Closed, Reachable, OnlyReachable, Marked, BucketsOk;
      HashResolves(len, h.data);
      ghost var before, b := marked, buckets.data;
      var _ := Mark(buckets);
      Turned(len, grey, before, b);
      var o := Deref(buckets);
      ScanBuckets(o.elems, count, len, grey + {b});
      Finished(len, grey, before, b);
    }

    lemma HashResolves(len: map<int, nat>, h: int)
      requires Scannable(graph, len) && h in graph && graph[h].HashObj?
      ensures var b := graph[h].buckets;
              && !IsValue(b) && Resolves(graph, b) && graph[b.data].ArrayObj? && Succs(graph, h) == {b.data}
              && BucketsOk(graph, len, graph[b.data].elems, graph[h].count)
              && Succs(graph, b.data) == Refs(graph[b.data].elems)
    {
      var b := graph[h].buckets;
      assert b in Fields(graph[h]);
      assert AllResolve(graph, Fields(graph[b.data]));
    }

    static ghost predicate BucketsOk(g: Graph, len: map<int, nat>, elems: seq<MemRef>, count: nat) {
      && AllResolve(g, elems) && (forall m :: m in elems ==> m.typ == KVP || IsValue(m))
      && EntryCount(len, elems) <= count
    }

    method ScanBuckets(elems: seq<MemRef>, count: nat, ghost len: map<int, nat>, ghost grey: set<int>)
      requires Valid() && Ready(len, grey) && BucketsOk(graph, len, elems, count)
      modifies this`marked, refs.cells
      ensures Valid() && Marked(len, grey, old(marked), Refs(elems))
      decreases graph.Keys - marked, 4
    {
      hide Valid, Holds, Scannable, Closed, Reachable, OnlyReachable, Marked, EntryCount;
      ghost var before := marked;
      StartMarked(len, grey, before);
      EntriesEmpty(len, elems);
      if count == 0 {
        Exhausted(len, elems, count, 0);
        return;
      }
      var eleCount, i := 0, 0;
      while i < |elems|
        invariant i <= |elems| && Valid() && Marked(len, grey, before, Refs(elems[..i])) && before <= marked
        invariant eleCount == EntryCount(len, elems[..i])
      {
        ghost var mid := marked;
        MarkedReady(len, grey, before, Refs(elems[..i]));
        RefsAppend(elems, i);
        EntriesAppend(len, elems, i);
        if elems[i].typ == KVP {
          var n := ScanChain(elems[i], len, grey);
          Extended(len, grey, before, mid, Refs(elems[..i]), Refs([elems[i]]));
          eleCount := eleCount + n;
        } else {
          NoRefs(elems[i]);
          assert Refs(elems[..i]) + {} == Refs(elems[..i]);
        }
        i := i + 1;
        if eleCount == count {
          MarkedReady(len, grey, before, Refs(elems[..i]));
          Exhausted(len, elems, count, i);
          return;
        }
      }
      assert elems[..|elems|] == elems;
    }

    lemma NoRefs(m: MemRef)
      requires IsValue(m)
      ensures Refs([m]) == {} && forall len :: ChainLength(len, m) == 0
    {}

    lemma EntriesEmpty(len: map<int, nat>, s: seq<MemRef>)
      ensures EntryCount(len, s[..0]) == 0 && Refs(s[..0]) == {} == Refs([])
    {}

    lemma EntriesAppend(len: map<int, nat>, s: seq<MemRef>, i: nat)
      requires i < |s|
      ensures EntryCount(len, s[..i + 1]) == EntryCount(len, s[..i]) + ChainLength(len, s[i])
    {
      assert s[..i + 1][..i] == s[..i];
    }

    /** All entries were seen, so the remaining buckets are empty. */
    lemma Exhausted(len: map<int, nat>, elems: seq<MemRef>, count: nat, i: nat)
      requires Scannable(graph, len) && BucketsOk(graph, len, elems, count)
      requires i <= |elems| && EntryCount(len, elems[..i]) == count
      ensures Refs(elems[..i]) == Refs(elems)
    {
      forall j | i <= j < |elems| ensures IsValue(elems[j]) {
        NoneLeft(len, elems, i, j);
        assert elems[j] in elems;
        EmptyBucket(graph, len, elems[j]);
      }
      NoMoreRefs(elems, i);
    }

    /** The walk along one chain; every pair is scanned, which follows the chain by itself as well. */
    method ScanChain(r: MemRef, ghost len: map<int, nat>, ghost grey: set<int>) returns (n: nat)
      requires Valid() && Ready(len, grey) && r.typ == KVP && Resolves(graph, r)
      modifies this`marked, refs.cells
      ensures Valid() && Marked(len, grey, old(marked), Refs([r]))
      ensures n == ChainLength(len, r)
      decreases graph.Keys - marked, 3
    {
      hide Valid, Holds, Scannable, Closed, Reachable, OnlyReachable, Marked;
      ghost var before := marked;
      var current := r;
      KvpResolves(len, r);
      n := 1;
      ScanGraph(current, len, grey);
      MarkedReady(len, grey, before, Refs([r]));
      var kvp := Deref(current);
      StartChain(r);
      while kvp.next.typ == KVP
        invariant Valid() && Marked(len, grey, before, Refs([r])) && before <= marked
        invariant current.typ == KVP && Resolves(graph, current) && current.data in len && kvp == graph[current.data]
        invariant kvp.KvpObj? && Resolves(graph, kvp.next) && len[current.data] == 1 + ChainLength(len, kvp.next)
        invariant Reachable(graph, Refs([r]), current.data)
        invariant n + ChainLength(len, kvp.next) == ChainLength(len, r)
        decreases len[current.data]
      {
        ghost var mid, last := marked, current;
        current := kvp.next;
        KvpResolves(len, current);
        NextReachable(Refs([r]), last.data);
        MarkedReady(len, grey, before, Refs([r]));
        n := n + 1;
        ScanGraph(current, len, grey);
        Rescanned(len, grey, before, mid, Refs([r]), current);
        kvp := Deref(current);
      }
    }

    lemma KvpResolves(len: map<int, nat>, m: MemRef)
      requires Scannable(graph, len) && m.typ == KVP && Resolves(graph, m)
      ensures !IsValue(m) && m.data in graph && graph[m.data].KvpObj? && m.data in len
      ensures ChainLength(len, m) == len[m.data] == 1 + ChainLength(len, graph[m.data].next)
      ensures Resolves(graph, graph[m.data].next)
    {
      assert graph[m.data].next in Fields(graph[m.data]);
    }

    lemma StartChain(r: MemRef)
      requires !IsValue(r)
      ensures Refs([r]) == {r.data} && Reachable(graph, Refs([r]), r.data)
    {
      assert r in [r];
      ReachSelf(graph, Refs([r]), r.data);
    }

    lemma NextReachable(from: set<int>, c: int)
      requires Reachable(graph, from, c) && c in graph && graph[c].KvpObj? && !IsValue(graph[c].next)
      ensures Reachable(graph, from, graph[c].next.data)
    {
      var y := graph[c].next;
      assert y in Fields(graph[c]) && y.data in Succs(graph, c);
      ReachSelf(graph, Succs(graph, c), y.data);
      ReachVia(graph, {c}, c, y.data);
      ReachTrans(graph, from, c, y.data);
    }

    /** Scanning again from a pair that `from` reaches marks nothing that `from` does not reach. */
    lemma Rescanned(len: map<int, nat>, grey: set<int>, before: set<int>, mid: set<int>, from: set<int>, c: MemRef)
      requires Scannable(graph, len) && before <= mid && from <= mid && OnlyReachable(graph, before, mid, from)
      requires !IsValue(c) && Reachable(graph, from, c.data) && Marked(len, grey, mid, Refs([c]))
      ensures Marked(len, grey, before, from)
    {
      forall r | r in marked && r !in before ensures Reachable(graph, from, r) {
        if r !in mid {
          assert Refs([c]) == {c.data} by { assert c in [c]; }
          ReachTrans(graph, from, c.data, r);
        }
      }
    }

    /** Marks a root that is flagged without being scanned; it must have nothing to scan. */
    method MarkLeaf(m: MemRef, ghost len: map<int, nat>, ghost before: set<int>, ghost done: seq<MemRef>)
      requires Valid() && Resolves(graph, m) && Leaf(graph, m) && Marked(len, {}, before, Refs(done))
               && before <= marked
      modifies this`marked, refs.cells
      ensures Valid() && Marked(len, {}, before, Refs(done + [m])) && before <= marked
    {
      hide Valid, Holds, Scannable, Reachable, OnlyReachable;
      ghost var mid := marked;
      var _ := Mark(m);
      AddLeaf(len, before, mid, done, m);
    }

    lemma AddLeaf(len: map<int, nat>, before: set<int>, mid: set<int>, done: seq<MemRef>, m: MemRef)
      requires Scannable(graph, len) && Closed(graph, mid, {}) && Resolves(graph, m) && Leaf(graph, m)
      requires OnlyReachable(graph, before, mid, Refs(done)) && Refs(done) <= mid
      requires marked == mid + Refs([m]) && before <= mid
      ensures Marked(len, {}, before, Refs(done + [m])) && before <= marked
    {
      RefsJoin(done, [m]);
      forall r | r in marked && r !in before ensures Reachable(graph, Refs(done + [m]), r) {
        if r in mid {
          ReachMore(graph, Refs(done), Refs(done + [m]), r);
        } else {
          ReachSelf(graph, Refs(done + [m]), r);
        }
      }
    }

    /** Scans one more root. */
    method ScanRoot(m: MemRef, ghost len: map<int, nat>, ghost before: set<int>, ghost done: seq<MemRef>)
      requires Valid() && Resolves(graph, m) && Marked(len, {}, before, Refs(done)) && before <= marked
      modifies this`marked, refs.cells
      ensures Valid() && Marked(len, {}, before, Refs(done + [m])) && before <= marked
    {
      hide Valid, Holds, Scannable, Reachable, OnlyReachable, Marked, Closed;
      ghost var mid := marked;
      MarkedReady(len, {}, before, Refs(done));
      ScanGraph(m, len, {});
      Extended(len, {}, before, mid, Refs(done), Refs([m]));
      RefsJoin(done, [m]);
      MarkedReady(len, {}, before, Refs(done + [m]));
    }

    /** The first half of gc_mark_n_sweep. */
    method MarkRoots(roots: Roots, ghost len: map<int, nat>)
      requires Valid() && marked == {} && Scannable(graph, len) && RootsOk(graph, roots)
      modifies this`marked, refs.cells
      ensures Valid() && Marked(len, {}, {}, Refs(RootList(roots)))
    {
      hide Valid, Holds, Scannable, Reachable, OnlyReachable, Marked, Resolves, Leaf;
      Unmarked(len);
      for fi := 0 to |roots.fibers|
        invariant Valid() && Marked(len, {}, {}, Refs(FibersRefs(roots.fibers[..fi])))
      {
        ghost var done := FibersRefs(roots.fibers[..fi]);
        MarkFiber(roots.fibers[fi], len, done);
        assert roots.fibers[..fi + 1][..fi] == roots.fibers[..fi];
      }
      assert roots.fibers[..|roots.fibers|] == roots.fibers;
      ghost var done := FibersRefs(roots.fibers);
      MarkLeaf(roots.fibersRef, len, {}, done);
      done := done + [roots.fibersRef];
      MarkLeaf(roots.program, len, {}, done);
      done := done + [roots.program];
      ScanRoot(roots.stringTable, len, {}, done);
      done := done + [roots.stringTable];
      ScanRoot(roots.universeObjects, len, {}, done);
      done := done + [roots.universeObjects];
      ScanRoot(roots.universeLocations, len, {}, done);
      done := done + [roots.universeLocations];
      ScanRoot(roots.breakpoints, len, {}, done);
      assert done + [roots.breakpoints] == RootList(roots);
    }

    lemma Unmarked(len: map<int, nat>)
      requires marked == {} && Scannable(graph, len)
      ensures Marked(len, {}, {}, Refs(FibersRefs([])))
    {
      assert Refs([]) == {};
    }

    method MarkFiber(f: FiberRoots, ghost len: map<int, nat>, ghost start: seq<MemRef>)
      requires Valid() && Marked(len, {}, {}, Refs(start)) && FiberOk(graph, f)
      modifies this`marked, refs.cells
      ensures Valid() && Marked(len, {}, {}, Refs(start + FiberRefs(f)))
    {
      hide Valid, Holds, Scannable, Reachable, OnlyReachable, Marked, Resolves, Leaf;
      ghost var done := start;
      MarkLeaf(f.waitingClient, len, {}, done);
      done := done + [f.waitingClient];
      ScanRoot(f.waitingData, len, {}, done);
      done := done + [f.waitingData];
      MarkLeaf(f.execContexts, len, {}, done);
      done := done + [f.execContexts];
      ghost var header := done;
      for ei := 0 to |f.contexts|
        invariant Valid() && done == header + ContextsRefs(f.contexts[..ei]) && Marked(len, {}, {}, Refs(done))
      {
        ScanRoot(f.contexts[ei].evalStack, len, {}, done);
        done := done + [f.contexts[ei].evalStack];
        ScanRoot(f.contexts[ei].scopes, len, {}, done);
        done := done + [f.contexts[ei].scopes];
        assert f.contexts[..ei + 1][..ei] == f.contexts[..ei];
      }
      assert f.contexts[..|f.contexts|] == f.contexts;
      assert done == start + FiberRefs(f);
    }

    /** free_ref: returns the target to its pool and the reference cell to the reference pool. */
    method FreeRef(r: nat)
      requires Valid() && r in graph && r !in marked
      modifies this`targets, this`graph, this`owner, refs`freeOffset, refs`free, refs.cells
      ensures Valid() && graph == old(graph) - {r}
      ensures TargetsExcept(old(targets), r, old(TargetOf(r)))
      ensures refs.free == [r] + old(refs.free)
    {
      hide Valid, TypeOf, SpaceOf, FixedPool.Valid, Holds, FreeCell, Owned;
      UnpackValid();
      assert Settled(r);
      Release(r);
      PackValid();
    }

    /** The reference cell goes back to its pool. */
    method ReturnCell(r: nat)
      requires refs.Valid() && refs.cells.Length == refs.elementCount && refs.Live(r) && refs.cells[r].rest.flags == 0
      modifies refs`freeOffset, refs`free, refs.cells
      ensures refs.Valid() && refs.free == [r] + old(refs.free) && FreeCell(r) && !refs.Live(r)
      ensures forall q: nat :: q != r ==> (refs.Live(q) <==> old(refs.Live(q)))
      ensures forall q: nat :: q < refs.cells.Length && q != r ==> refs.cells[q] == old(refs.cells[q])
    {
      hide FixedPool.Valid;
      var cell := refs.cells[r];
      refs.Put(r, cell.(rest := cell.rest.(typ := NULL_TYPE)));
      refs.Free(r);
      assert refs.free[0] == r;
      forall q: nat | q != r ensures refs.Live(q) <==> old(refs.Live(q)) {
        assert q in refs.free <==> q in old(refs.free);
      }
    }

    /** The target and the reference cell go back to their pools. */
    method Release(r: nat)
      requires refs.Valid() && refs.cells.Length == refs.elementCount && refs.Live(r) && Holds(r) && r !in marked
               && Owned()
      requires forall q: nat :: q < refs.elementCount ==> Settled(q)
      modifies this`targets, this`graph, this`owner, refs`freeOffset, refs`free, refs.cells
      ensures refs.Valid() && Owned() && forall q: nat :: q < refs.elementCount ==> Settled(q)
      ensures graph == old(graph) - {r} && refs.free == [r] + old(refs.free)
      ensures TargetsExcept(old(targets), r, old(TargetOf(r)))
      ensures forall q: nat :: q != r ==> (refs.Live(q) <==> old(refs.Live(q)))
    {
      hide TypeOf, SpaceOf, FixedPool.Valid, FixedPool.Live;
      ghost var t := TargetOf(r);
      targets := targets - {Target(SpaceOf(refs.cells[r].rest.typ), refs.cells[r].word)};
      ReturnCell(r);
      owner := owner - {t};
      graph := graph - {r};
      forall q: nat | q < refs.elementCount && q != r ensures Settled(q) { assert old(Settled(q)); }
    }

    ghost predicate TargetsExcept(before: map<Target, Obj>, r: nat, t: Target)
      reads this
    {
      t in before && targets == before - {t}
    }

    /** Clears the flag of a surviving cell. */
    method Unflag(r: nat)
      requires Valid() && r in graph && r in marked
      modifies this`marked, refs.cells
      ensures Valid() && marked == old(marked) - {r}
    {
      hide Valid, FixedPool.Valid, SpaceOf, TypeOf, Owned, FreeCell;
      UnpackValid();
      assert Settled(r);
      SetFlag(r, 0);
      marked := marked - {r};
      forall q: nat | q < refs.elementCount ensures Settled(q) { assert old(Settled(q)); }
      PackValid();
    }

    /** The second half of gc_mark_n_sweep: one pass over all reference cells. */
    method Sweep()
      requires Valid()
      modifies this, refs, refs.cells
      ensures Valid() && marked == {}
      ensures graph == Swept(old(graph), old(marked), old(refs.elementCount))
      ensures refs.elementCount == old(refs.elementCount) && refs.cells == old(refs.cells)
    {
      hide Valid, Holds, FreeCell;
      ghost var g, m := graph, marked;
      CellFacts();
      SweptStart(g, m);
      var max := refs.elementCount;
      for i := 0 to max
        invariant Valid() && refs.elementCount == max && refs.cells == old(refs.cells) && refs.cells.Length == max
        invariant graph == Swept(g, m, i) && marked == set r | r in m && i <= r
      {
        CellFacts();
        ghost var mid := marked;
        var tag := refs.cells[i].rest;
        if tag.typ != NULL_TYPE {
          if tag.flags == 0 {
            FreeRef(i);
          } else {
            Unflag(i);
          }
        }
        CellFacts();
        assert marked == set r | r in m && i + 1 <= r;
      }
      CellFacts();
    }

    /** What a cell says about itself, for the sweep. */
    lemma CellFacts()
      requires Valid()
      ensures refs.cells.Length == refs.elementCount
      ensures forall r: nat :: r < refs.elementCount ==>
        if r in graph then refs.cells[r].rest.typ != NULL_TYPE && (refs.cells[r].rest.flags == 0 <==> r !in marked)
        else refs.cells[r].rest.typ == NULL_TYPE
      ensures marked <= graph.Keys
      ensures forall r :: r in graph ==> r < refs.elementCount
    {
      forall r: nat | r < refs.elementCount
        ensures if r in graph
                then refs.cells[r].rest.typ != NULL_TYPE && (refs.cells[r].rest.flags == 0 <==> r !in marked)
                else refs.cells[r].rest.typ == NULL_TYPE
      {
        if refs.Live(r) { assert Holds(r); } else { assert FreeCell(r); }
      }
    }

    lemma SweptStart(g: Graph, m: set<int>)
      ensures Swept(g, m, 0) == g
    {}

    /** gc_mark_n_sweep: what is left is exactly the objects reachable from the roots, unchanged; every
        flag is clear. */
    method Collect(roots: Roots, ghost len: map<int, nat>)
      requires Valid() && marked == {} && Scannable(graph, len) && RootsOk(graph, roots)
      modifies this, refs, refs.cells
      ensures Valid() && marked == {}
      ensures graph == Collected(old(graph), Refs(RootList(roots))) && refs.cells == old(refs.cells)
      ensures forall r :: r in graph <==> r in old(graph) && HeldFrom(old(graph), roots, r)
      ensures forall r :: r in graph ==> graph[r] == old(graph)[r] && Whole(graph, graph[r])
      ensures forall m :: IsRoot(roots, m) ==> Leads(graph, m)
    {
      hide Valid, Holds, Scannable, Reachable, OnlyReachable, HeldFrom, Whole, IsRoot, Leads, RootsOk;
      ghost var g := graph;
      CollectedIsHeld(g, len, roots);
      MarkRoots(roots, len);
      MarkedIsReachable(g, marked, Refs(RootList(roots)));
      ghost var m := marked;
      CellFacts();
      ghost var n := refs.elementCount;
      Sweep();
      assert Swept(g, m, n) == Collected(g, Refs(RootList(roots)));
    }

    /** A second collection with the same roots frees nothing. */
    method CollectTwice(roots: Roots, ghost len: map<int, nat>) returns (ghost between: Graph)
      requires Valid() && marked == {} && Scannable(graph, len) && RootsOk(graph, roots)
      modifies this, refs, refs.cells
      ensures Valid() && marked == {} && refs.cells == old(refs.cells)
      ensures between == Collected(old(graph), Refs(RootList(roots))) && graph == between
      ensures Scannable(graph, len) && RootsOk(graph, roots)
    {
      hide *;
      ghost var g, list := graph, RootList(roots);
      Collect(roots, len);
      between := graph;
      CollectKeepsScannable(g, len, Refs(list));
      CollectKeepsRoots(g, roots);
      Collect(roots, len);
      NothingDangles(g, len, roots);
      CollectedTwice(g, Refs(list));
    }
  }

  /** The graph after the sweep has passed the first i cells. */
  ghost function Swept(g: Graph, m: set<int>, i: nat): Graph {
    map r | r in g && (i <= r || r in m) :: g[r]
  }

  /** The part of the graph that is reachable from `roots`. */
  ghost function Collected(g: Graph, roots: set<int>): Graph {
    map r | r in g && Reachable(g, roots, r) :: g[r]
  }

  /** Marking from the roots with nothing left grey flags a cell if and only if it is reachable. */
  lemma MarkedIsReachable(g: Graph, m: set<int>, roots: set<int>)
    requires Closed(g, m, {}) && roots <= m && OnlyReachable(g, {}, m, roots)
    ensures forall r :: r in m <==> Reachable(g, roots, r)
  {
    forall r | Reachable(g, roots, r) ensures r in m {
      var p :| Path(g, p) && p[0] in roots && p[|p| - 1] == r;
      ClosedContainsReachable(g, roots, m, p);
    }
  }

  /** A path from the roots of a graph without dangling references stays in the collected graph. */
  lemma PathSurvives(g: Graph, roots: set<int>, p: seq<int>)
    requires Path(g, p) && p[0] in roots && roots <= g.Keys
    requires forall r :: r in g ==> Succs(g, r) <= g.Keys
    ensures forall i :: 0 <= i < |p| ==> p[i] in Collected(g, roots)
    ensures Path(Collected(g, roots), p)
  {
    var c := Collected(g, roots);
    forall i | 0 <= i < |p| ensures p[i] in c {
      var q := p[..i + 1];
      assert Path(g, q) && q[0] in roots && q[|q| - 1] == p[i];
      InGraph(g, roots, q);
    }
  }

  lemma InGraph(g: Graph, roots: set<int>, q: seq<int>)
    requires Path(g, q) && q[0] in roots && roots <= g.Keys
    requires forall r :: r in g ==> Succs(g, r) <= g.Keys
    ensures q[|q| - 1] in g
  {
    forall x | x in g.Keys ensures Succs(g, x) <= g.Keys {}
    ClosedContainsReachable(g, roots, g.Keys, q);
  }

  /** What is left is all reachable. */
  lemma CollectedTwice(g: Graph, roots: set<int>)
    requires roots <= g.Keys && forall r :: r in g ==> Succs(g, r) <= g.Keys
    ensures Collected(Collected(g, roots), roots) == Collected(g, roots)
  {
    var c := Collected(g, roots);
    forall r | r in c ensures Reachable(c, roots, r) {
      var p :| Path(g, p) && p[0] in roots && p[|p| - 1] == r;
      PathSurvives(g, roots, p);
    }
  }

  /** What the next collection relies on survives this one. */
  lemma CollectKeepsScannable(g: Graph, len: map<int, nat>, roots: set<int>)
    requires Scannable(g, len)
    ensures Scannable(Collected(g, roots), len)
  {
    var c := Collected(g, roots);
    forall r | r in c ensures AllResolve(c, Fields(c[r])) {
      forall m | m in Fields(g[r]) ensures Resolves(c, m) {
        if !IsValue(m) {
          assert m.data in Succs(g, r);
          SuccReachable(g, roots, r, m.data);
        }
      }
    }
    forall r | r in c && c[r].HashObj? ensures HashShape(c, len, c[r]) {
      assert HashShape(g, len, g[r]);
      assert g[r].buckets in Fields(g[r]);
      assert Resolves(c, g[r].buckets);
    }
  }

  lemma SuccReachable(g: Graph, roots: set<int>, x: int, y: int)
    requires Reachable(g, roots, x) && y in Succs(g, x)
    ensures Reachable(g, roots, y)
  {
    ReachSelf(g, Succs(g, x), y);
    ReachVia(g, {x}, x, y);
    ReachTrans(g, roots, x, y);
  }

  /** The roots that gc_mark_n_sweep starts from. */
  datatype ContextRoots = ContextRoots(evalStack: MemRef, scopes: MemRef)
  datatype FiberRoots =
    FiberRoots(waitingClient: MemRef, waitingData: MemRef, execContexts: MemRef, contexts: seq<ContextRoots>)
  datatype Roots = Roots(fibers: seq<FiberRoots>, fibersRef: MemRef, program: MemRef, stringTable: MemRef,
                         universeObjects: MemRef, universeLocations: MemRef, breakpoints: MemRef)

  ghost function ContextsRefs(s: seq<ContextRoots>): seq<MemRef> {
    if s == [] then []
    else ContextsRefs(s[..|s| - 1]) + [s[|s| - 1].evalStack, s[|s| - 1].scopes]
  }

  ghost function FiberRefs(f: FiberRoots): seq<MemRef> {
    [f.waitingClient, f.waitingData, f.execContexts] + ContextsRefs(f.contexts)
  }

  ghost function FibersRefs(s: seq<FiberRoots>): seq<MemRef> {
    if s == [] then [] else FibersRefs(s[..|s| - 1]) + FiberRefs(s[|s| - 1])
  }

  ghost function RootList(roots: Roots): seq<MemRef> {
    FibersRefs(roots.fibers)
    + [roots.fibersRef, roots.program, roots.stringTable, roots.universeObjects, roots.universeLocations,
       roots.breakpoints]
  }

  /** Nothing to scan: a value, a string or an array of plain structures. */
  predicate Leaf(g: Graph, m: MemRef) {
    IsValue(m) || Succs(g, m.data) == {}
  }

  predicate FiberOk(g: Graph, f: FiberRoots) {
    && Resolves(g, f.waitingClient) && Leaf(g, f.waitingClient) && Resolves(g, f.waitingData)
    && Resolves(g, f.execContexts) && Leaf(g, f.execContexts)
    && forall c :: c in f.contexts ==> Resolves(g, c.evalStack) && Resolves(g, c.scopes)
  }

  /** The roots resolve, and those that are flagged without being scanned are leaves: the client id of
      a waiting fiber is a string; contexts, fibers and program are arrays of plain structures. */
  predicate RootsOk(g: Graph, roots: Roots) {
    && (forall f :: f in roots.fibers ==> FiberOk(g, f))
    && Resolves(g, roots.fibersRef) && Leaf(g, roots.fibersRef) && Resolves(g, roots.program) && Leaf(g, roots.program)
    && Resolves(g, roots.stringTable) && Resolves(g, roots.universeObjects)
    && Resolves(g, roots.universeLocations) && Resolves(g, roots.breakpoints)
  }

  /** The references from which gc_mark_n_sweep starts, field by field. */
  ghost predicate IsRoot(roots: Roots, m: MemRef) {
    || m == roots.fibersRef || m == roots.program || m == roots.stringTable
    || m == roots.universeObjects || m == roots.universeLocations || m == roots.breakpoints
    || exists i :: 0 <= i < |roots.fibers| && IsFiberRoot(roots.fibers[i], m)
  }

  ghost predicate IsFiberRoot(f: FiberRoots, m: MemRef) {
    || m == f.waitingClient || m == f.waitingData || m == f.execContexts
    || exists j :: 0 <= j < |f.contexts| && (m == f.contexts[j].evalStack || m == f.contexts[j].scopes)
  }

  /** A root leads to cell x, through what objects hold. */
  ghost predicate HeldFrom(g: Graph, roots: Roots, x: int) {
    exists m, p :: IsRoot(roots, m) && m.typ >= HASH && HeldPath(g, p) && p[0] == m.data && p[|p| - 1] == x
  }

  lemma {:induction false} ContextsListed(s: seq<ContextRoots>, m: MemRef)
    ensures m in ContextsRefs(s) <==> exists j :: 0 <= j < |s| && (m == s[j].evalStack || m == s[j].scopes)
  {
    if s != [] {
      var n := |s| - 1;
      ContextsListed(s[..n], m);
      if m == s[n].evalStack || m == s[n].scopes {
        assert m in [s[n].evalStack, s[n].scopes];
      }
      if j :| 0 <= j < n && (m == s[j].evalStack || m == s[j].scopes) {
        assert s[..n][j] == s[j];
      }
    }
  }

  lemma FiberRefsAre(f: FiberRoots, m: MemRef)
    ensures m in FiberRefs(f) <==> IsFiberRoot(f, m)
  {
    ContextsListed(f.contexts, m);
    assert m in [f.waitingClient, f.waitingData, f.execContexts]
      <==> m == f.waitingClient || m == f.waitingData || m == f.execContexts;
  }

  lemma {:induction false} FibersListed(s: seq<FiberRoots>, m: MemRef)
    ensures m in FibersRefs(s) <==> exists i :: 0 <= i < |s| && IsFiberRoot(s[i], m)
  {
    hide FiberRefs, IsFiberRoot;
    if s != [] {
      var n := |s| - 1;
      FibersListed(s[..n], m);
      FiberRefsAre(s[n], m);
      if i :| 0 <= i < n && IsFiberRoot(s[i], m) {
        assert s[..n][i] == s[i];
      }
    }
  }

  lemma RootsListed(roots: Roots, m: MemRef)
    ensures m in RootList(roots) <==> IsRoot(roots, m)
  {
    hide FibersRefs, IsFiberRoot;
    FibersListed(roots.fibers, m);
  }

  /** A path along the edges of the scan is a path along what objects hold. */
  lemma PathIsHeld(g: Graph, p: seq<int>)
    ensures Path(g, p) <==> HeldPath(g, p)
  {
    forall r, x ensures x in Succs(g, r) <==> HoldsAt(g, r, x) {
      if r in g { FieldsAreHeld(g, g[r]); }
    }
    hide Succs, HoldsAt;
  }

  lemma PathsAreNotEmpty(g: Graph)
    ensures forall p :: Path(g, p) || HeldPath(g, p) ==> p != []
  {}

  lemma ReachableIsHeld(g: Graph, roots: Roots, x: int)
    ensures Reachable(g, Refs(RootList(roots)), x) <==> HeldFrom(g, roots, x)
  {
    var list := RootList(roots);
    PathsAreNotEmpty(g);
    hide Path, HeldPath, RootList, IsRoot;
    if Reachable(g, Refs(list), x) {
      var p :| p != [] && Path(g, p) && p[0] in Refs(list) && p[|p| - 1] == x;
      PathIsHeld(g, p);
      var m :| m in list && !IsValue(m) && m.data == p[0];
      RootsListed(roots, m);
      assert IsRoot(roots, m) && m.typ >= HASH && HeldPath(g, p) && p[0] == m.data && p[|p| - 1] == x;
    }
    if HeldFrom(g, roots, x) {
      var m, p :| p != [] && IsRoot(roots, m) && m.typ >= HASH && HeldPath(g, p) && p[0] == m.data && p[|p| - 1] == x;
      PathIsHeld(g, p);
      RootsListed(roots, m);
    }
  }

  /** What is left after a collection, without the functions by which the scan is specified: the cells to which
      roots lead through what objects hold, each with all that it holds. */
  lemma CollectedIsHeld(g: Graph, len: map<int, nat>, roots: Roots)
    requires Scannable(g, len) && RootsOk(g, roots)
    ensures var c := Collected(g, Refs(RootList(roots)));
            && (forall r :: r in c <==> r in g && HeldFrom(g, roots, r))
            && (forall r :: r in c ==> c[r] == g[r] && Whole(c, c[r]))
            && (forall m :: IsRoot(roots, m) ==> Leads(c, m))
  {
    var c := Collected(g, Refs(RootList(roots)));
    hide Reachable, HeldFrom, Whole, IsRoot, Leads, HashShape, RootsOk, RootList;
    forall r ensures r in c <==> r in g && HeldFrom(g, roots, r) { ReachableIsHeld(g, roots, r); }
    CollectKeepsScannable(g, len, Refs(RootList(roots)));
    forall r | r in c ensures Whole(c, c[r]) { FieldsAreHeld(c, c[r]); }
    CollectKeepsRoots(g, roots);
    forall m | IsRoot(roots, m) ensures Leads(c, m) {
      RootsListed(roots, m);
      RootResolves(c, roots, m);
      LeadsIsResolves(c, m);
    }
  }

  lemma ContextListed(s: seq<ContextRoots>, c: ContextRoots)
    requires c in s
    ensures c.evalStack in ContextsRefs(s) && c.scopes in ContextsRefs(s)
  {
    if c != s[|s| - 1] {
      assert c in s[..|s| - 1];
      ContextListed(s[..|s| - 1], c);
    }
  }

  lemma FiberListed(s: seq<FiberRoots>, f: FiberRoots, m: MemRef)
    requires f in s && m in FiberRefs(f)
    ensures m in FibersRefs(s)
  {
    if f != s[|s| - 1] {
      assert f in s[..|s| - 1];
      FiberListed(s[..|s| - 1], f, m);
    }
  }

  /** A root keeps its object. */
  lemma RootSurvives(g: Graph, roots: set<int>, m: MemRef)
    requires Resolves(g, m) && (IsValue(m) || m.data in roots)
    ensures Resolves(Collected(g, roots), m) && (Leaf(g, m) ==> Leaf(Collected(g, roots), m))
  {
    if !IsValue(m) { ReachSelf(g, roots, m.data); }
  }

  lemma ListedInRefs(list: seq<MemRef>, m: MemRef)
    requires m in list
    ensures IsValue(m) || m.data in Refs(list)
  {}

  lemma FiberSurvives(g: Graph, roots: Roots, f: FiberRoots)
    requires f in roots.fibers && FiberOk(g, f)
    ensures FiberOk(Collected(g, Refs(RootList(roots))), f)
  {
    hide Refs, Resolves, Leaf, Collected, ContextsRefs, FibersRefs;
    var list := RootList(roots);
    forall m | m in FiberRefs(f) ensures m in list && (IsValue(m) || m.data in Refs(list)) {
      FiberListed(roots.fibers, f, m);
      ListedInRefs(list, m);
    }
    RootSurvives(g, Refs(list), f.waitingClient);
    RootSurvives(g, Refs(list), f.waitingData);
    RootSurvives(g, Refs(list), f.execContexts);
    var c := Collected(g, Refs(list));
    forall x | x in f.contexts ensures Resolves(c, x.evalStack) && Resolves(c, x.scopes) {
      ContextListed(f.contexts, x);
      RootSurvives(g, Refs(list), x.evalStack);
      RootSurvives(g, Refs(list), x.scopes);
    }
  }

  /** The roots of the next collection are as good as they were. */
  lemma CollectKeepsRoots(g: Graph, roots: Roots)
    requires RootsOk(g, roots)
    ensures RootsOk(Collected(g, Refs(RootList(roots))), roots)
  {
    hide Refs, Resolves, Leaf, Collected, FiberOk, FibersRefs;
    var list := RootList(roots);
    var c := Collected(g, Refs(list));
    forall f | f in roots.fibers ensures FiberOk(c, f) { FiberSurvives(g, roots, f); }
    var others := [roots.fibersRef, roots.program, roots.stringTable, roots.universeObjects, roots.universeLocations,
                   roots.breakpoints];
    forall m | m in others && Resolves(g, m) ensures Resolves(c, m) && (Leaf(g, m) ==> Leaf(c, m)) {
      assert m in list;
      ListedInRefs(list, m);
      RootSurvives(g, Refs(list), m);
    }
    assert roots.fibersRef in others && roots.program in others && roots.stringTable in others;
    assert roots.universeObjects in others && roots.universeLocations in others && roots.breakpoints in others;
  }

  lemma ContextsResolve(g: Graph, s: seq<ContextRoots>, m: MemRef)
    requires m in ContextsRefs(s) && forall c :: c in s ==> Resolves(g, c.evalStack) && Resolves(g, c.scopes)
    ensures Resolves(g, m)
  {
    hide Resolves;
    var c := s[|s| - 1];
    if m != c.evalStack && m != c.scopes { ContextsResolve(g, s[..|s| - 1], m); }
  }

  lemma FibersResolve(g: Graph, s: seq<FiberRoots>, m: MemRef)
    requires m in FibersRefs(s) && forall f :: f in s ==> FiberOk(g, f)
    ensures Resolves(g, m)
  {
    hide Resolves, Leaf;
    var f := s[|s| - 1];
    if m in FiberRefs(f) {
      assert FiberOk(g, f);
      if m in ContextsRefs(f.contexts) { ContextsResolve(g, f.contexts, m); }
    } else {
      FibersResolve(g, s[..|s| - 1], m);
    }
  }

  lemma RootResolves(g: Graph, roots: Roots, m: MemRef)
    requires RootsOk(g, roots) && m in RootList(roots)
    ensures Resolves(g, m)
  {
    if m in FibersRefs(roots.fibers) { FibersResolve(g, roots.fibers, m); }
  }

  lemma NothingDangles(g: Graph, len: map<int, nat>, roots: Roots)
    requires Scannable(g, len) && RootsOk(g, roots)
    ensures Refs(RootList(roots)) <= g.Keys && forall r :: r in g ==> Succs(g, r) <= g.Keys
  {
    forall m | m in RootList(roots) ensures Resolves(g, m) { RootResolves(g, roots, m); }
  }

  lemma RefsJoin(s: seq<MemRef>, t: seq<MemRef>)
    ensures Refs(s + t) == Refs(s) + Refs(t)
  {
    forall x ensures x in Refs(s + t) <==> x in Refs(s) + Refs(t) {
      if x in Refs(s) + Refs(t) {
        var m :| (m in s || m in t) && !IsValue(m) && m.data == x;
        assert m in s + t;
      }
    }
  }
}
