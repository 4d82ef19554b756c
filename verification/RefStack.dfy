/** datastructs/refstack.c: the operand stack.  Pushing allocates from a private pool and makes the
    new element the head; popping frees the head and moves it down by one element.  Moving it
    down is right only because the pool hands its elements out consecutively. */
module RefStacks {
  import opened Commons
  import opened FixedPools
  import opened MemRefs

  /** A reference is stored with its type in the first word of an element. */
  function ToRef(c: Cell<int>): MemRef { MemRef(c.word, c.rest) }

  class RefStack {
    var pool: FixedPool<int>
    var headOffset: int
    ghost var values: seq<MemRef>  // bottom first

    ghost predicate PoolValid()
      reads this, pool, pool.cells
    {
      pool.Valid() && |values| <= pool.elementCount
    }

    /** With n values on the stack, elements 0 to n-1 hold them bottom first, the free list is
        exactly n, n+1, ..., count-1, and the head is element n-1 (a fresh stack has head 0). */
    ghost predicate Valid()
      reads this, pool, pool.cells
    {
      && PoolValid()
      && pool.free == Range(|values|, pool.elementCount)
      && (forall k :: 0 <= k < |values| ==> ToRef(pool.cells[k]) == values[k])
      && (headOffset == |values| - 1 || (values == [] && headOffset == 0))
    }

    ghost function Repr(): set<object>
      reads this, pool
    {
      {this, pool, pool.cells}
    }

    constructor (initialSize: nat)
      requires initialSize >= 1
      ensures Valid() && fresh(Repr())
      ensures values == [] && pool.elementCount == initialSize
    {
      pool := new FixedPool<int>(0, initialSize);
      headOffset := 0;
      values := [];
    }

    method Peek() returns (x: MemRef)
      requires Valid() && values != []
      ensures x == values[|values| - 1]
    {
      x := ToRef(pool.cells[headOffset]);
    }

    /** Takes the next element of the pool: it is always the one above the head. */
    method Reserve() returns (offset: nat)
      requires Valid()
      modifies pool, pool.cells
      ensures pool.Valid() && pool == old(pool) && (pool.cells == old(pool.cells) || fresh(pool.cells))
      ensures offset == |values| < pool.elementCount
      ensures pool.elementCount
           == if |values| < old(pool.elementCount) then old(pool.elementCount) else 2 * old(pool.elementCount)
      ensures pool.free == Range(|values| + 1, pool.elementCount)
      ensures pool.Live(offset)
      ensures forall k :: 0 <= k < |values| ==> ToRef(pool.cells[k]) == values[k]
    {
      hide Distinct, HeadOf;
      RangeParts(|values|, pool.elementCount);
      hide Range;
      offset := pool.Alloc();
    }

    method Push(x: MemRef)
      requires Valid()
      modifies this, pool, pool.cells
      ensures Valid() && pool == old(pool)
      ensures pool.cells == old(pool.cells) || fresh(pool.cells)
      ensures values == old(values) + [x]
      ensures pool.elementCount
           == if |old(values)| < old(pool.elementCount) then old(pool.elementCount) else 2 * old(pool.elementCount)
    {
      hide Range, Distinct, HeadOf, FixedPool.Valid, FixedPool.Live;
      var offset := Reserve();
      headOffset := offset;
      pool.Put(offset, Cell(x.typ, x.data));
      values := values + [x];
    }

    /** The top of the stack is live, and the element just below the free ones. */
    lemma TopIsLive()
      requires Valid() && values != []
      ensures headOffset == |values| - 1 && pool.Valid() && pool.Live(headOffset) && headOffset < pool.cells.Length
      ensures [headOffset] + pool.free == Range(|values| - 1, pool.elementCount)
    {
      hide Distinct, HeadOf;
      RangeTail(|values| - 1, pool.elementCount);
    }

    method Pop() returns (x: MemRef)
      requires Valid() && values != []
      modifies this, pool, pool.cells
      ensures Valid() && pool == old(pool) && pool.cells == old(pool.cells)
      ensures old(values) == values + [x]
    {
      TopIsLive();
      hide Range, Distinct, HeadOf, FixedPool.Valid, FixedPool.Live;
      x := ToRef(pool.cells[headOffset]);
      pool.Free(headOffset);
      headOffset := headOffset - 1;
      values := values[..|values| - 1];
    }

    /** Copies every element and the head of the free list, so the copy has the same values in
        elements of its own. */
    method Clone() returns (copy: RefStack)
      requires Valid()
      ensures copy.Valid() && fresh(copy.Repr())
      ensures copy.values == values
      ensures copy.pool.elementCount == pool.elementCount
    {
      hide Range, Distinct, HeadOf, FixedPool.Valid, ToRef;
      PoolFacts();
      copy := new RefStack(pool.elementCount);
      copy.PoolFacts();
      copy.headOffset, copy.values := headOffset, values;
      copy.pool.CopyFrom(pool);
    }

    lemma PoolFacts()
      requires Valid()
      ensures pool.Valid() && pool.elementCount == pool.cells.Length >= 1
    {}
  }

  /** What a program does to a stack and to its copy. */
  datatype Op = PushOn(copy: bool, x: MemRef) | PopFrom(copy: bool)

  /** The values after the operations on one side, the others being ignored; None if a pop finds no value. */
  function After(values: seq<MemRef>, ops: seq<Op>, copy: bool): Option<seq<MemRef>> {
    if ops == [] then Some(values)
    else
      var before := After(values, ops[..|ops| - 1], copy);
      var op := ops[|ops| - 1];
      if op.copy != copy || before.None? then before
      else
        match op
        case PushOn(_, x) => Some(before.value + [x])
        case PopFrom(_) => if before.value == [] then None else Some(before.value[..|before.value| - 1])
  }

  lemma {:induction false} AfterPrefix(values: seq<MemRef>, ops: seq<Op>, copy: bool, n: nat)
    requires n <= |ops| && After(values, ops, copy).Some?
    ensures After(values, ops[..n], copy).Some?
  {
    if n < |ops| {
      AfterPrefix(values, ops[..|ops| - 1], copy, n);
      assert ops[..|ops| - 1][..n] == ops[..n];
    } else {
      assert ops[..n] == ops;
    }
  }

  lemma AfterStep(values: seq<MemRef>, ops: seq<Op>, n: nat, copy: bool)
    requires n < |ops| && After(values, ops, copy).Some?
    ensures After(values, ops[..n], copy).Some? && After(values, ops[..n + 1], copy).Some?
    ensures var before, after := After(values, ops[..n], copy).value, After(values, ops[..n + 1], copy).value;
            if ops[n].copy != copy then after == before
            else if ops[n].PushOn? then after == before + [ops[n].x]
            else before != [] && after == before[..|before| - 1]
  {
    AfterPrefix(values, ops, copy, n);
    AfterPrefix(values, ops, copy, n + 1);
    assert ops[..n + 1][..n] == ops[..n];
  }

  /** Operations on a stack and on its copy do not interfere, however they are mixed: each side ends up with
      the values that its own operations give. */
  method CloneIsIndependent(s: RefStack, ops: seq<Op>) returns (copy: RefStack)
    requires s.Valid() && After(s.values, ops, false).Some? && After(s.values, ops, true).Some?
    modifies s, s.pool, s.pool.cells
    ensures s.Valid() && copy.Valid() && fresh(copy.Repr()) && copy.Repr() !! s.Repr()
    ensures s.values == After(old(s.values), ops, false).value
    ensures copy.values == After(old(s.values), ops, true).value
  {
    hide After, RefStack.Valid;
    ghost var values := s.values;
    copy := s.Clone();
    Untouched(values, ops);
    var n := 0;
    while n < |ops|
      invariant n <= |ops| && s.Valid() && copy.Valid() && fresh(copy.Repr()) && copy.Repr() !! s.Repr()
      invariant s.pool == old(s.pool) && (s.pool.cells == old(s.pool.cells) || fresh(s.pool.cells))
      invariant After(values, ops[..n], false) == Some(s.values) && After(values, ops[..n], true) == Some(copy.values)
    {
      AfterStep(values, ops, n, false);
      AfterStep(values, ops, n, true);
      match ops[n] {
        case PushOn(onCopy, x) =>
          if onCopy { copy.Push(x); } else { s.Push(x); }
        case PopFrom(onCopy) =>
          if onCopy { var _ := copy.Pop(); } else { var _ := s.Pop(); }
      }
      n := n + 1;
    }
    assert ops[..n] == ops;
  }

  lemma Untouched(values: seq<MemRef>, ops: seq<Op>)
    ensures After(values, ops[..0], false) == Some(values) && After(values, ops[..0], true) == Some(values)
  {}
}
