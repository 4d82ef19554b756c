/** The objects of memory/manager.h as a directed graph over reference cells, the way scan_graph of
    memory/gc.c walks it. */
module Graphs {
  import opened MemRefs

  datatype Obj =
    | HashObj(count: nat, buckets: MemRef)
    | StringObj(chars: string)
    | ArrayObj(elems: seq<MemRef>)
    | BytesObj                                  // an array of plain structures: fibers, contexts, program
    | ListObj(head: MemRef, tail: MemRef)
    | FunctionObj(closure: MemRef, address: int)
    | KvpObj(key: MemRef, val: MemRef, next: MemRef)
    | ScopeObj(locals: MemRef, closureScope: MemRef, returnAddress: int, isFiber: bool)
    | StackObj(cells: seq<MemRef>, headOffset: int)
    | GameObj(id: int, visibility: MemRef, props: MemRef, locationKey: MemRef)
    | LocationObj(siblings: MemRef, parent: MemRef, children: MemRef, key: MemRef, locProps: MemRef, objects: MemRef)
    | LocRefObj(refId: int, targetKey: MemRef, refProps: MemRef)

  type Graph = map<nat, Obj>

  function TypeOf(o: Obj): int {
    match o
    case HashObj(_, _) => HASH
    case StringObj(_) => STRING
    case ArrayObj(_) => ARRAY
    case BytesObj => ARRAY
    case ListObj(_, _) => LIST
    case FunctionObj(_, _) => FUNCTION
    case KvpObj(_, _, _) => KVP
    case ScopeObj(_, _, _, _) => SCOPE
    case StackObj(_, _) => STACK
    case GameObj(_, _, _, _) => GAME_OBJECT
    case LocationObj(_, _, _, _, _, _) => LOCATION
    case LocRefObj(_, _, _) => LOCATION_REFERENCE
  }

  /** The references stored in an object, in the order in which scan_graph visits them.  The entries of
      a hash are stored in its bucket array and the chains that start there. */
  function Fields(o: Obj): seq<MemRef> {
    match o
    case HashObj(_, buckets) => [buckets]
    case StringObj(_) => []
    case ArrayObj(elems) => elems
    case BytesObj => []
    case ListObj(head, tail) => [head, tail]
    case FunctionObj(closure, _) => [closure]
    case KvpObj(key, val, next) => [key, val, next]
    case ScopeObj(locals, closureScope, _, _) => [locals, closureScope]
    case StackObj(cells, headOffset) => if 0 <= headOffset < |cells| then cells[..headOffset + 1] else []
    case GameObj(_, visibility, props, locationKey) => [visibility, props, locationKey]
    case LocationObj(siblings, parent, children, key, props, objects) =>
      [siblings, children, parent, key, props, objects]
    case LocRefObj(_, targetKey, props) => [targetKey, props]
  }

  /** The reference cells among some references. */
  function Refs(s: seq<MemRef>): set<int> {
    set m | m in s && !IsValue(m) :: m.data
  }

  function Succs(g: Graph, r: int): set<int> {
    if r in g then Refs(Fields(g[r])) else {}
  }

  /** A value, or a reference to a cell that holds an object of its type. */
  predicate Resolves(g: Graph, m: MemRef) {
    IsValue(m) || (m.data in g && TypeOf(g[m.data]) == m.typ)
  }

  predicate AllResolve(g: Graph, s: seq<MemRef>) {
    forall m :: m in s ==> Resolves(g, m)
  }

  // ---------- what objects hold, kind by kind ----------

  predicate OfType(o: Obj, typ: int) {
    if typ == HASH then o.HashObj?
    else if typ == STRING then o.StringObj?
    else if typ == LIST then o.ListObj?
    else if typ == FUNCTION then o.FunctionObj?
    else if typ == ARRAY then o.ArrayObj? || o.BytesObj?
    else if typ == KVP then o.KvpObj?
    else if typ == SCOPE then o.ScopeObj?
    else if typ == STACK then o.StackObj?
    else if typ == GAME_OBJECT then o.GameObj?
    else if typ == LOCATION then o.LocationObj?
    else if typ == LOCATION_REFERENCE then o.LocRefObj?
    else false
  }

  /** A plain value, or a reference that leads to an object of its type. */
  predicate Leads(g: Graph, m: MemRef) {
    m.typ < HASH || (m.data in g && OfType(g[m.data], m.typ))
  }

  /** Everything that the object holds leads somewhere; an operand stack holds what is at its head and below. */
  ghost predicate Whole(g: Graph, o: Obj) {
    match o
    case HashObj(_, buckets) => Leads(g, buckets)
    case StringObj(_) => true
    case ArrayObj(elems) => forall k :: 0 <= k < |elems| ==> Leads(g, elems[k])
    case BytesObj => true
    case ListObj(head, tail) => Leads(g, head) && Leads(g, tail)
    case FunctionObj(closure, _) => Leads(g, closure)
    case KvpObj(key, val, next) => Leads(g, key) && Leads(g, val) && Leads(g, next)
    case ScopeObj(locals, closureScope, _, _) => Leads(g, locals) && Leads(g, closureScope)
    case StackObj(cells, head) => forall k :: 0 <= k <= head < |cells| ==> Leads(g, cells[k])
    case GameObj(_, visibility, props, locationKey) => Leads(g, visibility) && Leads(g, props) && Leads(g, locationKey)
    case LocationObj(siblings, parent, children, key, props, objects) =>
      && Leads(g, siblings) && Leads(g, parent) && Leads(g, children)
      && Leads(g, key) && Leads(g, props) && Leads(g, objects)
    case LocRefObj(_, targetKey, props) => Leads(g, targetKey) && Leads(g, props)
  }

  predicate To(m: MemRef, x: int) {
    m.typ >= HASH && m.data == x
  }

  /** The object holds a reference to cell x. */
  ghost predicate HoldsRef(o: Obj, x: int) {
    match o
    case HashObj(_, buckets) => To(buckets, x)
    case StringObj(_) => false
    case ArrayObj(elems) => exists k :: 0 <= k < |elems| && To(elems[k], x)
    case BytesObj => false
    case ListObj(head, tail) => To(head, x) || To(tail, x)
    case FunctionObj(closure, _) => To(closure, x)
    case KvpObj(key, val, next) => To(key, x) || To(val, x) || To(next, x)
    case ScopeObj(locals, closureScope, _, _) => To(locals, x) || To(closureScope, x)
    case StackObj(cells, head) => exists k :: 0 <= k <= head < |cells| && To(cells[k], x)
    case GameObj(_, visibility, props, locationKey) => To(visibility, x) || To(props, x) || To(locationKey, x)
    case LocationObj(siblings, parent, children, key, props, objects) =>
      || To(siblings, x) || To(parent, x) || To(children, x) || To(key, x) || To(props, x) || To(objects, x)
    case LocRefObj(_, targetKey, props) => To(targetKey, x) || To(props, x)
  }

  ghost predicate HoldsAt(g: Graph, r: int, x: int) {
    r in g && HoldsRef(g[r], x)
  }

  /** A path along what objects hold. */
  ghost predicate HeldPath(g: Graph, p: seq<int>) {
    && p != []
    && forall i, j :: 0 <= i < j < |p| && j == i + 1 ==> HoldsAt(g, p[i], p[j])
  }

  lemma LeadsIsResolves(g: Graph, m: MemRef)
    ensures Leads(g, m) <==> Resolves(g, m)
  {}

  /** The scan visits what an object holds, all of it and nothing else. */
  lemma FieldsAreHeld(g: Graph, o: Obj)
    ensures AllResolve(g, Fields(o)) <==> Whole(g, o)
    ensures forall x :: x in Refs(Fields(o)) <==> HoldsRef(o, x)
  {
    forall m ensures Leads(g, m) <==> Resolves(g, m) { LeadsIsResolves(g, m); }
    hide Leads, Resolves;
    match o
    case StackObj(cells, head) => StackIsHeld(g, cells, head);
    case ArrayObj(elems) => ArrayIsHeld(g, elems);
    case _ => FewAreHeld(g, o);
  }

  lemma ArrayIsHeld(g: Graph, elems: seq<MemRef>)
    ensures AllResolve(g, elems) <==> forall k :: 0 <= k < |elems| ==> Resolves(g, elems[k])
    ensures forall x :: x in Refs(elems) <==> exists k :: 0 <= k < |elems| && To(elems[k], x)
  {
    hide Resolves;
    forall x | x in Refs(elems) ensures exists k :: 0 <= k < |elems| && To(elems[k], x) {
      var m :| m in elems && !IsValue(m) && m.data == x;
      var k :| 0 <= k < |elems| && elems[k] == m;
      assert To(elems[k], x);
    }
    forall x, k | 0 <= k < |elems| && To(elems[k], x) ensures x in Refs(elems) { assert elems[k] in elems; }
  }

  lemma StackIsHeld(g: Graph, cells: seq<MemRef>, head: int)
    ensures var s := Fields(StackObj(cells, head));
            && (AllResolve(g, s) <==> forall k :: 0 <= k <= head < |cells| ==> Resolves(g, cells[k]))
            && forall x :: x in Refs(s) <==> exists k :: 0 <= k <= head < |cells| && To(cells[k], x)
  {
    var s := Fields(StackObj(cells, head));
    ArrayIsHeld(g, s);
    hide Resolves, To, Refs, AllResolve;
    if 0 <= head < |cells| {
      assert |s| == head + 1 && forall k :: 0 <= k <= head ==> s[k] == cells[k];
    }
  }

  lemma FewAreHeld(g: Graph, o: Obj)
    requires !o.StackObj? && !o.ArrayObj?
    ensures AllResolve(g, Fields(o)) <==> Whole(g, o)
    ensures forall x :: x in Refs(Fields(o)) <==> HoldsRef(o, x)
  {
    forall m ensures Leads(g, m) <==> Resolves(g, m) { LeadsIsResolves(g, m); }
    hide Leads, Resolves;
    var s := Fields(o);
    match o
    case HashObj(_, buckets) => assert buckets in s;
    case ListObj(head, tail) => assert head in s && tail in s;
    case FunctionObj(closure, _) => assert closure in s;
    case KvpObj(key, val, next) => assert key in s && val in s && next in s;
    case ScopeObj(locals, closureScope, _, _) => assert locals in s && closureScope in s;
    case GameObj(_, visibility, props, locationKey) => assert visibility in s && props in s && locationKey in s;
    case LocationObj(siblings, parent, children, key, props, objects) =>
      assert siblings in s && parent in s && children in s && key in s && props in s && objects in s;
    case LocRefObj(_, targetKey, props) => assert targetKey in s && props in s;
    case _ =>
  }

  /** A path along references. */
  ghost predicate Path(g: Graph, p: seq<int>) {
    && p != []
    && forall i, j :: 0 <= i < j < |p| && j == i + 1 ==> p[j] in Succs(g, p[i])
  }

  ghost predicate Reachable(g: Graph, from: set<int>, x: int) {
    exists p :: Path(g, p) && p[0] in from && p[|p| - 1] == x
  }

  lemma ReachSelf(g: Graph, from: set<int>, x: int)
    requires x in from
    ensures Reachable(g, from, x)
  {
    assert Path(g, [x]) && [x][0] in from;
  }

  lemma ReachVia(g: Graph, from: set<int>, x: int, y: int)
    requires Reachable(g, Succs(g, x), y) && x in from
    ensures Reachable(g, from, y)
  {
    var p :| Path(g, p) && p[0] in Succs(g, x) && p[|p| - 1] == y;
    var q := [x] + p;
    assert Path(g, q) && q[0] in from && q[|q| - 1] == y;
  }

  lemma ReachTrans(g: Graph, from: set<int>, x: int, y: int)
    requires Reachable(g, from, x) && Reachable(g, {x}, y)
    ensures Reachable(g, from, y)
  {
    var p :| Path(g, p) && p[0] in from && p[|p| - 1] == x;
    var q :| Path(g, q) && q[0] in {x} && q[|q| - 1] == y;
    var r := p + q[1..];
    assert forall i :: |p| <= i < |r| ==> r[i] == q[i - |p| + 1];
    assert Path(g, r) && r[0] in from && r[|r| - 1] == y;
  }

  lemma ReachMore(g: Graph, from: set<int>, from': set<int>, x: int)
    requires Reachable(g, from, x) && from <= from'
    ensures Reachable(g, from', x)
  {}

  /** A set that contains `from` and is closed under references contains everything reachable. */
  lemma ClosedContainsReachable(g: Graph, from: set<int>, s: set<int>, p: seq<int>)
    requires from <= s && forall x :: x in s ==> Succs(g, x) <= s
    requires Path(g, p) && p[0] in from
    ensures p[|p| - 1] in s
  {
    var i := 0;
    while i < |p| - 1
      invariant 0 <= i < |p| && p[i] in s
    {
      i := i + 1;
    }
  }

  /** The precondition of marking: every stored reference resolves, and the entries of every hash can be
      counted.  `len` gives the length of the chain that starts at a key-value pair, so chains end;
      a hash has at least as many entries as its chains, so its scan may stop when it has seen
      them all. */
  ghost predicate Scannable(g: Graph, len: map<int, nat>) {
    && (forall r :: r in g ==> AllResolve(g, Fields(g[r])))
    && (forall r :: r in g && g[r].KvpObj? ==> r in len && len[r] == 1 + ChainLength(len, g[r].next))
    && (forall r :: r in g && g[r].HashObj? ==> HashShape(g, len, g[r]))
  }

  ghost function ChainLength(len: map<int, nat>, m: MemRef): nat {
    if m.typ == KVP && m.data in len then len[m.data] else 0
  }

  /** The number of entries in the chains that start in `buckets`. */
  ghost function EntryCount(len: map<int, nat>, buckets: seq<MemRef>): nat {
    if buckets == [] then 0
    else EntryCount(len, buckets[..|buckets| - 1]) + ChainLength(len, buckets[|buckets| - 1])
  }

  ghost predicate HashShape(g: Graph, len: map<int, nat>, h: Obj)
    requires h.HashObj?
  {
    && h.buckets.typ == ARRAY && h.buckets.data in g && g[h.buckets.data].ArrayObj?
    && (forall m :: m in g[h.buckets.data].elems ==> m.typ == KVP || IsValue(m))
    && EntryCount(len, g[h.buckets.data].elems) <= h.count
  }

  lemma EntryCountPrefix(len: map<int, nat>, buckets: seq<MemRef>, i: nat)
    requires i <= |buckets|
    ensures EntryCount(len, buckets[..i]) <= EntryCount(len, buckets)
  {
    if i < |buckets| {
      EntryCountPrefix(len, buckets[..|buckets| - 1], i);
      assert buckets[..|buckets| - 1][..i] == buckets[..i];
    } else {
      assert buckets[..i] == buckets;
    }
  }

  /** A bucket without entries holds no reference. */
  lemma EmptyBucket(g: Graph, len: map<int, nat>, m: MemRef)
    requires Scannable(g, len) && Resolves(g, m) && (m.typ == KVP || IsValue(m)) && ChainLength(len, m) == 0
    ensures IsValue(m)
  {}

  /** Buckets without entries add no references. */
  lemma NoMoreRefs(s: seq<MemRef>, i: nat)
    requires i <= |s| && forall j :: i <= j < |s| ==> IsValue(s[j])
    ensures Refs(s[..i]) == Refs(s)
  {
    forall x | x in Refs(s) ensures x in Refs(s[..i]) {
      var m :| m in s && !IsValue(m) && m.data == x;
      var j :| 0 <= j < |s| && s[j] == m;
      assert s[..i][j] == m;
    }
    forall x | x in Refs(s[..i]) ensures x in Refs(s) {
      var m :| m in s[..i] && !IsValue(m) && m.data == x;
      assert m in s;
    }
  }

  /** Once a scan of the first i buckets has counted `h.count` entries, there are no others. */
  lemma NoneLeft(len: map<int, nat>, buckets: seq<MemRef>, i: nat, j: nat)
    requires i <= j < |buckets| && EntryCount(len, buckets) <= EntryCount(len, buckets[..i])
    ensures ChainLength(len, buckets[j]) == 0
  {
    EntryCountPrefix(len, buckets[..j], i);
    assert buckets[..j][..i] == buckets[..i];
    EntryCountPrefix(len, buckets, j + 1);
    assert buckets[..j + 1][..j] == buckets[..j];
  }

  /** Every marked cell outside `grey` has all its successors marked. */
  ghost predicate Closed(g: Graph, marked: set<int>, grey: set<int>) {
    forall r :: r in marked && r !in grey ==> Succs(g, r) <= marked
  }

  /** Everything in `after` but not in `before` is reachable from `from`. */
  ghost predicate OnlyReachable(g: Graph, before: set<int>, after: set<int>, from: set<int>) {
    forall r :: r in after && r !in before ==> Reachable(g, from, r)
  }

  lemma MarkGrey(g: Graph, marked: set<int>, grey: set<int>, r: int)
    requires Closed(g, marked, grey)
    ensures Closed(g, marked + {r}, grey + {r})
  {}

  lemma Blacken(g: Graph, marked: set<int>, grey: set<int>, r: int)
    requires Closed(g, marked, grey + {r}) && Succs(g, r) <= marked
    ensures Closed(g, marked, grey)
  {}

  /** Marking `r` and then things reachable from its fields marks only what `r` reaches. */
  lemma OnlyReachableVia(g: Graph, a: set<int>, b: set<int>, c: set<int>, r: int)
    requires OnlyReachable(g, b, c, Succs(g, r)) && b <= a + {r}
    ensures OnlyReachable(g, a, c, {r})
  {
    forall x | x in c && x !in a ensures Reachable(g, {r}, x) {
      if x in b { ReachSelf(g, {r}, x); } else { ReachVia(g, {r}, r, x); }
    }
  }
}
