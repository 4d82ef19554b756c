/** memory/fixed_pool.c: a pool of equally sized elements whose free list is threaded
    through the free elements themselves.  Offsets are counted in elements, so the
    byte offset of the source is the offset here times the element size. */
module FixedPools {
  import opened Commons

  const NO_ELEMENT := -1

  /** One pool element.  `word` is its first machine word, which the allocator overwrites
      with a free-list link while the element is free; `rest` is everything after it. */
  datatype Cell<T> = Cell(word: int, rest: T)

  /** The elements n, n+1, ..., m-1 in order. */
  function Range(n: nat, m: nat): (r: seq<nat>)
    requires n <= m
    ensures |r| == m - n
    ensures forall k :: 0 <= k < |r| ==> r[k] == n + k
  {
    seq(m - n, i requires 0 <= i => n + i)
  }

  lemma RangeTail(n: nat, m: nat)
    requires n < m
    ensures Range(n, m)[0] == n && Range(n, m)[1..] == Range(n + 1, m)
  {}

  /** The first of a range and the rest of it. */
  lemma RangeParts(n: nat, m: nat)
    requires n <= m
    ensures if n == m then Range(n, m) == []
            else Range(n, m) != [] && Range(n, m)[0] == n && Range(n, m)[1..] == Range(n + 1, m)
  {
    if n < m { RangeTail(n, m); }
  }

  function HeadOf(s: seq<nat>): int {
    if s == [] then NO_ELEMENT else s[0]
  }

  class FixedPool<T(0)> {
    var freeOffset: int
    var elementCount: nat
    var cells: array<Cell<T>>
    const zero: T               // what a zero-filled element holds after its first word
    ghost var free: seq<nat>    // the free list, first to be allocated first

    ghost predicate Valid()
      reads this, cells
    {
      && elementCount == cells.Length >= 1
      && Distinct(free)
      && (forall k :: 0 <= k < |free| ==> free[k] < elementCount)
      && freeOffset == HeadOf(free)
      && (forall j, k :: 0 <= j < k < |free| && k == j + 1 ==> cells[free[j]].word == free[k])
      && (free != [] ==> cells[free[|free| - 1]].word == NO_ELEMENT)
    }

    ghost predicate Live(i: int)
      reads this
    {
      0 <= i < elementCount && i !in free
    }

    constructor (zero: T, initialCount: nat)
      requires initialCount >= 1
      ensures Valid() && fresh(cells)
      ensures this.zero == zero
      ensures elementCount == initialCount && free == Range(0, initialCount)
      ensures forall i :: 0 <= i < initialCount ==> cells[i].rest == zero
    {
      this.zero := zero;
      freeOffset := 0;
      elementCount := initialCount;
      cells := new Cell<T>[initialCount](_ => Cell(0, zero));
      free := Range(0, initialCount);
      new;
      LinkUp(cells, 0, initialCount);
    }

    /** The loop that both init and the doubling run: element i links to i + 1, the last to NO_ELEMENT. */
    static method LinkUp(c: array<Cell<T>>, from: nat, to: nat)
      requires from < to <= c.Length
      modifies c
      ensures forall i :: from <= i < to ==> c[i] == old(c[i]).(word := if i + 1 < to then i + 1 else NO_ELEMENT)
      ensures forall i :: 0 <= i < c.Length && !(from <= i < to) ==> c[i] == old(c[i])
    {
      var i := from;
      while i < to - 1
        invariant from <= i <= to - 1
        invariant forall j :: from <= j < i ==> c[j] == old(c[j]).(word := j + 1)
        invariant forall j :: 0 <= j < c.Length && !(from <= j < i) ==> c[j] == old(c[j])
      {
        c[i] := c[i].(word := i + 1);
        i := i + 1;
      }
      c[i] := c[i].(word := NO_ELEMENT);
    }

    /** Doubles the pool: the old elements keep their offsets and contents, the new half is zeroed
        and becomes the free list. */
    method Double()
      requires Valid() && free == []
      modifies this, cells
      ensures Valid() && fresh(cells)
      ensures elementCount == 2 * old(elementCount)
      ensures free == Range(old(elementCount), elementCount)
      ensures forall i :: i in free <==> old(elementCount) <= i < elementCount
      ensures forall i :: 0 <= i < old(elementCount) ==> cells[i] == old(cells[i])
      ensures forall i :: old(elementCount) <= i < elementCount ==> cells[i].rest == zero
    {
      var oldCount := elementCount;
      var newCount := oldCount * 2;
      var c := new Cell<T>[newCount](_ => Cell(0, zero));
      forall i | 0 <= i < oldCount { c[i] := cells[i]; }
      LinkUp(c, oldCount, newCount);
      cells, elementCount, freeOffset := c, newCount, oldCount;
      free := Range(oldCount, newCount);
      forall i | oldCount <= i < newCount ensures i in free { assert free[i - oldCount] == i; }
    }

    /** Allocation pops the free list, doubling first when it is empty.  The element handed out was
        not live, and nothing that was live moves or changes. */
    method Alloc() returns (offset: nat)
      requires Valid()
      modifies this, cells
      ensures Valid() && (cells == old(cells) || fresh(cells))
      ensures elementCount >= old(elementCount)
      ensures !old(Live(offset)) && Live(offset)
      ensures forall i :: Live(i) <==> old(Live(i)) || i == offset
      ensures forall i :: 0 <= i < old(elementCount) ==> cells[i] == old(cells[i])
      ensures forall i :: old(elementCount) <= i < elementCount ==> cells[i].rest == zero
      ensures if old(free) != []
              then elementCount == old(elementCount) && offset == old(free)[0] && free == old(free)[1..]
              else elementCount == 2 * old(elementCount) && offset == old(elementCount)
                   && free == Range(offset + 1, elementCount)
    {
      if freeOffset == NO_ELEMENT {
        Double();
        offset := TakeFirst();
        assert free == Range(offset + 1, elementCount);
      } else {
        offset := TakeFirst();
      }
    }

    /** Pops a non-empty free list. */
    method TakeFirst() returns (offset: nat)
      requires Valid() && free != []
      modifies this`freeOffset, this`free
      ensures Valid()
      ensures offset == old(free)[0] && free == old(free)[1..]
      ensures offset in old(free) && offset !in free
      ensures forall i :: i in old(free) <==> i == offset || i in free
    {
      offset := freeOffset;
      freeOffset := cells[offset].word;
      assert free == [offset] + free[1..];
      free := free[1..];
    }

    /** Freeing pushes a live element on the free list; only its first word is overwritten. */
    method Free(offset: nat)
      requires Valid() && Live(offset)
      modifies this`freeOffset, this`free, cells
      ensures Valid()
      ensures free == [offset] + old(free)
      ensures cells[offset] == old(cells[offset]).(word := old(freeOffset))
      ensures forall i :: 0 <= i < cells.Length && i != offset ==> cells[i] == old(cells[i])
    {
      cells[offset] := cells[offset].(word := freeOffset);
      freeOffset := offset;
      free := [offset] + free;
    }

    /** The tail of stack_clone: another pool of the same size is copied over this one, element by
        element and with the head of its free list. */
    method CopyFrom(other: FixedPool<T>)
      requires Valid() && other.Valid() && other != this && other.cells != cells
      requires elementCount == other.elementCount
      modifies this`freeOffset, this`free, cells
      ensures Valid() && free == other.free
      ensures forall i :: 0 <= i < cells.Length ==> cells[i] == other.cells[i]
    {
      forall i | 0 <= i < cells.Length { cells[i] := other.cells[i]; }
      freeOffset := other.freeOffset;
      free := other.free;
    }

    /** Writing a live element leaves the free list alone. */
    method Put(offset: nat, cell: Cell<T>)
      requires Valid() && Live(offset)
      modifies cells
      ensures Valid()
      ensures cells[offset] == cell
      ensures forall i :: 0 <= i < cells.Length && i != offset ==> cells[i] == old(cells[i])
    {
      cells[offset] := cell;
    }
  }
}
