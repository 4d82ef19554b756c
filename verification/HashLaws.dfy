/** Where the operations of datastructs/refhash.c put entries, how they order a chain, and how large a table gets. */
module HashLaws {
  import opened Commons
  import opened MemRefs
  import opened Keys
  import opened HashSpec
  import opened HashRuns

  /** In a sound table the bucket of a key is its hash, an integer itself or what the string hash gives, modulo the
      number of buckets. */
  lemma BucketOfKey(fnv: string -> nat, t: Table, i: nat, j: nat)
    requires WellHashed(HasherOf(fnv), t) && i < |t| && j < |t[i]|
    ensures match t[i][j].key
            case IntKey(n) => i == (n % 0x1_0000_0000) % |t|
            case StrKey(s) => i == fnv(s) % |t|
  {
    assert Bucket(HasherOf(fnv), |t|, t[i][j].key) == i;
  }

  /** Entry j of the chain has the key. */
  predicate KeyAt(c: seq<Entry>, j: int, k: Key) {
    0 <= j < |c| && c[j].key == k
  }

  lemma PositionOf(c: seq<Entry>, k: Key)
    ensures Position(c, k) < |c| ==> KeyAt(c, Position(c, k), k)
    ensures Position(c, k) == |c| ==> forall j :: !KeyAt(c, j, k)
    ensures DistinctKeys(c) ==> forall j :: KeyAt(c, j, k) ==> j == Position(c, k)
  {}

  /** hash_set without a resize: an entry with the key keeps its place in its chain, a new one goes first; the others
      stay where they are. */
  lemma SetPlaces(hash: Hasher, s: State, k: Key, v: MemRef)
    requires WellHashed(hash, s.table)
    ensures var t, s' := s.table, Set(hash, s, k, v);
            var b := hash(k) % |t|;
            && (forall j :: KeyAt(t[b], j, k) ==> s' == s.(table := t[b := t[b][j := Entry(k, v)]]))
            && ((forall j :: !KeyAt(t[b], j, k)) && s.count + 1 <= |t|
                ==> s' == State(t[b := [Entry(k, v)] + t[b]], s.count + 1))
  {
    var t := s.table;
    var b := Bucket(hash, |t|, k);
    PositionOf(t[b], k);
    assert DistinctKeys(t[b]);
    hide NextPrimeFrom, PRIMES;
  }

  /** hash_remove: the head of a longer chain takes the whole chain with it, any other entry goes alone. */
  lemma RemovePlaces(hash: Hasher, s: State, k: Key)
    requires WellHashed(hash, s.table)
    ensures var t, s' := s.table, Remove(hash, s, k);
            var b := hash(k) % |t|;
            && ((forall j :: !KeyAt(t[b], j, k)) ==> s' == s)
            && (forall j :: KeyAt(t[b], j, k) ==>
                  s' == State(t[b := if j == 0 && |t[b]| > 1 then [] else t[b][..j] + t[b][j + 1..]], s.count - 1))
  {
    var t := s.table;
    var b := Bucket(hash, |t|, k);
    PositionOf(t[b], k);
    assert DistinctKeys(t[b]);
  }

  // ---------- the number of buckets ----------

  lemma PrimeAt(r: nat, k: nat)
    requires r < 9 && k < 8
    ensures |PRIMES| == 72 && PRIMES[8 * r + k] == Row(r)[k]
  {
    hide Row;
  }

  lemma RowIncreases(r: nat, k: nat)
    requires r < 9 && k < 8
    ensures k < 7 ==> Row(r)[k] < Row(r)[k + 1]
    ensures k == 7 && r < 8 ==> Row(r)[7] < Row(r + 1)[0]
    ensures Row(0)[0] == 3 && Row(8)[7] == LARGEST
  {}

  lemma PrimesIncrease(i: nat)
    requires i < 71
    ensures |PRIMES| == 72 && PRIMES[i] < PRIMES[i + 1] && PRIMES[0] == 3 && PRIMES[71] == LARGEST
  {
    var r, k := i / 8, i % 8;
    RowIncreases(r, k);
    PrimeAt(r, k);
    PrimeAt(0, 0);
    PrimeAt(8, 7);
    if k < 7 { PrimeAt(r, k + 1); } else { PrimeAt(r + 1, 0); }
    hide PRIMES, Row;
    assert i == 8 * r + k;
  }

  /** get_next_prime gives the smallest entry of the table that exceeds the number, or the largest of all. */
  lemma NextIsSmallest(number: nat)
    ensures var p := NextPrime(number);
            if exists i :: 0 <= i < 72 && PRIMES[i] > number
            then p > number && p in PRIMES && forall i :: 0 <= i < 72 && PRIMES[i] > number ==> p <= PRIMES[i]
            else p == PRIMES[71]
  {
    var i := FirstAbove(0, number);
    PrimesIncrease(0);
    if i < 72 {
      forall j | 0 <= j < 72 && PRIMES[j] > number ensures PRIMES[i] <= PRIMES[j] { PrimesOrdered(i, j); }
    }
  }

  lemma {:induction false} FirstAbove(i: nat, number: nat) returns (r: nat)
    requires i <= 72
    ensures i <= r <= 72 && (forall j :: i <= j < r ==> PRIMES[j] <= number) && (r < 72 ==> PRIMES[r] > number)
    ensures NextPrimeFrom(i, number) == if r < 72 then PRIMES[r] else LARGEST
    decreases 72 - i
  {
    hide PRIMES;
    assert |PRIMES| == 72 by { PrimesIncrease(0); }
    r := i;
    if i < 72 && PRIMES[i] <= number { r := FirstAbove(i + 1, number); }
  }

  lemma {:induction false} PrimesOrdered(i: nat, j: nat)
    requires i <= j < 72
    ensures |PRIMES| == 72 && PRIMES[i] <= PRIMES[j]
    decreases j - i
  {
    hide PRIMES;
    PrimesIncrease(if i < 71 then i else 70);
    if i < j { PrimesOrdered(i + 1, j); }
  }

  /** The number of buckets changes when a new key makes more entries than buckets, and then it is the next of the
      table. */
  lemma SetGrows(hash: Hasher, s: State, k: Key, v: MemRef)
    requires WellHashed(hash, s.table) && s.count >= 0
    ensures var t := s.table;
            var b := hash(k) % |t|;
            |Set(hash, s, k, v).table|
            == if (exists j :: KeyAt(t[b], j, k)) || s.count + 1 <= |t| then |t| else NextPrime(s.count + 1)
  {
    var t := s.table;
    var b := Bucket(hash, |t|, k);
    PositionOf(t[b], k);
    hide NextPrime;
  }

  // ---------- the order after a resize ----------

  /** The entries that belong to bucket b, in order. */
  function Belonging(hash: Hasher, size: nat, es: seq<Entry>, b: nat): seq<Entry>
    requires size > 0
  {
    if es == [] then []
    else
      var e, before := es[|es| - 1], Belonging(hash, size, es[..|es| - 1], b);
      if hash(e.key) % size == b then before + [e] else before
  }

  function Reversed(es: seq<Entry>): seq<Entry> {
    if es == [] then [] else [es[|es| - 1]] + Reversed(es[..|es| - 1])
  }

  lemma {:induction false} PushedInReverse(hash: Hasher, t: Table, es: seq<Entry>, b: nat)
    requires b < |t|
    ensures PushAll(hash, t, es)[b] == Reversed(Belonging(hash, |t|, es, b)) + t[b]
  {
    if es != [] {
      var e, before := es[|es| - 1], Belonging(hash, |t|, es[..|es| - 1], b);
      PushedInReverse(hash, t, es[..|es| - 1], b);
      if hash(e.key) % |t| == b {
        assert (before + [e])[..|before|] == before;
        assert [e] + (Reversed(before) + t[b]) == [e] + Reversed(before) + t[b];
      }
    } else {
      assert Reversed([]) + t[b] == t[b];
    }
  }

  /** A resize gives each new bucket its entries in the opposite of the order in which the old chains had them. */
  lemma ResizeReverses(hash: Hasher, t: Table, size: nat, b: nat)
    requires b < size
    ensures |Rehash(hash, t, size)| == size
    ensures Rehash(hash, t, size)[b] == Reversed(Belonging(hash, size, Flat(t), b))
  {
    PushedInReverse(hash, EmptyTable(size), Flat(t), b);
    var r := Reversed(Belonging(hash, size, Flat(t), b));
    assert r + [] == r;
  }
}
