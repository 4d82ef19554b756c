/** Runs of hash_set and hash_remove (datastructs/refhash.c) against a simple map. */
module HashRuns {
  import opened Commons
  import opened MemRefs
  import opened Keys
  import opened HashSpec

  /** The table of primes, in rows of eight. */
  function Row(r: nat): (row: seq<nat>)
    ensures |row| == 8
  {
    if r == 0 then [3, 7, 11, 17, 23, 29, 37, 47]
    else if r == 1 then [59, 71, 89, 107, 131, 163, 197, 239]
    else if r == 2 then [293, 353, 431, 521, 631, 761, 919, 1103]
    else if r == 3 then [1327, 1597, 1931, 2333, 2801, 3371, 4049, 4861]
    else if r == 4 then [5839, 7013, 8419, 10103, 12143, 14591, 17519, 21023]
    else if r == 5 then [25229, 30293, 36353, 43627, 52361, 62851, 75431, 90523]
    else if r == 6 then [108631, 130363, 156437, 187751, 225307, 270371, 324449, 389357]
    else if r == 7 then [467237, 560689, 672827, 807403, 968897, 1162687, 1395263, 1674319]
    else [2009191, 2411033, 2893249, 3471899, 4166287, 4999559, 5999471, 7199369]
  }

  const PRIMES: seq<nat> := Row(0) + Row(1) + Row(2) + Row(3) + Row(4) + Row(5) + Row(6) + Row(7) + Row(8)

  const LARGEST := 7199369

  /** The first prime of the table from position i on that exceeds `number`, or the largest. */
  function NextPrimeFrom(i: nat, number: nat): nat
    requires i <= 72
    decreases 72 - i
  {
    if i == 72 then LARGEST
    else if PRIMES[i] > number then PRIMES[i]
    else NextPrimeFrom(i + 1, number)
  }

  function NextPrime(number: nat): nat {
    NextPrimeFrom(0, number)
  }

  /** get_next_prime: a scan of the table. */
  method GetNextPrime(number: nat) returns (prime: nat)
    ensures prime == NextPrime(number)
    ensures prime > number || prime == LARGEST
  {
    var i := 0;
    while i < 72
      invariant i <= 72 && NextPrime(number) == NextPrimeFrom(i, number)
    {
      if PRIMES[i] > number {
        return PRIMES[i];
      }
      i := i + 1;
    }
    prime := LARGEST;
  }

  lemma NextPrimeExceeds(i: nat, number: nat)
    requires i <= 72
    ensures NextPrimeFrom(i, number) > 0
    ensures if number < LARGEST then NextPrimeFrom(i, number) > number else NextPrimeFrom(i, number) >= LARGEST
    decreases 72 - i
  {
    if i < 72 && PRIMES[i] <= number { NextPrimeExceeds(i + 1, number); }
  }

  /** A table with its kvp_count field. */
  datatype State = State(table: Table, count: int)

  /** hash_set: one more entry, and a rehash when there are more entries than buckets. */
  function Set(hash: Hasher, s: State, k: Key, v: MemRef): State
    requires s.table != []
  {
    var t := SetTable(hash, s.table, k, v);
    if Lookup(hash, s.table, k).Some? then s.(table := t)
    else if s.count + 1 > |t| then
      NextPrimeExceeds(0, if s.count + 1 >= 0 then s.count + 1 else 0);
      State(Rehash(hash, t, NextPrime(s.count + 1)), s.count + 1)
    else State(t, s.count + 1)
  }

  /** hash_remove. */
  function Remove(hash: Hasher, s: State, k: Key): State
    requires s.table != []
  {
    if Lookup(hash, s.table, k).None? then s
    else State(RemoveTable(hash, s.table, k), s.count - 1)
  }

  /** The table is well hashed, its count field is the number of entries, and there are no more entries
      than buckets unless the prime table is exhausted. */
  ghost predicate Sound(hash: Hasher, s: State) {
    && WellHashed(hash, s.table) && s.count == Count(s.table)
    && (s.count <= |s.table| || LARGEST <= |s.table|)
  }

  lemma {:induction false} CountUpdate(t: Table, b: nat, c: seq<Entry>, n: nat)
    requires b < |t| && n <= |t|
    ensures Count(t[b := c][..n]) == Count(t[..n]) + (if b < n then |c| - |t[b]| else 0)
  {
    var r := t[b := c];
    if n == 0 {
      assert r[..0] == t[..0];
    } else {
      CountUpdate(t, b, c, n - 1);
      assert t[..n][..n - 1] == t[..n - 1] && r[..n][..n - 1] == r[..n - 1];
    }
  }

  lemma CountOfUpdate(t: Table, b: nat, c: seq<Entry>)
    requires b < |t|
    ensures Count(t[b := c]) == Count(t) + |c| - |t[b]|
  {
    CountUpdate(t, b, c, |t|);
    assert t[..|t|] == t && t[b := c][..|t|] == t[b := c];
  }

  /** hash_set keeps a table sound and updates its map. */
  lemma SetRefinesMap(hash: Hasher, s: State, k: Key, v: MemRef)
    requires Sound(hash, s)
    ensures Sound(hash, Set(hash, s, k, v))
    ensures TableMap(Set(hash, s, k, v).table) == TableMap(s.table)[k := v]
  {
    hide WellHashed, TableMap, Rehash, NextPrime;
    HasBuckets(hash, s.table);
    var t := SetTable(hash, s.table, k, v);
    SetKeepsWellHashed(hash, s.table, k, v);
    SetIsMapUpdate(hash, s.table, k, v);
    var b := Bucket(hash, |s.table|, k);
    CountOfUpdate(s.table, b, SetChain(s.table[b], k, v));
    if Lookup(hash, s.table, k).None? && s.count + 1 > |t| {
      RehashFits(hash, t, s.count + 1);
    }
  }

  lemma HasBuckets(hash: Hasher, t: Table)
    requires WellHashed(hash, t)
    ensures t != []
  {}

  lemma RehashFits(hash: Hasher, t: Table, count: nat)
    requires WellHashed(hash, t) && count == Count(t)
    ensures NextPrime(count) > 0 && Sound(hash, State(Rehash(hash, t, NextPrime(count)), count))
    ensures TableMap(Rehash(hash, t, NextPrime(count))) == TableMap(t)
  {
    hide PRIMES, NextPrimeFrom, TableMap, WellHashed;
    HasBuckets(hash, t);
    NextPrimeExceeds(0, count);
    RehashKeepsMap(hash, t, NextPrime(count));
    RehashConserves(hash, t, NextPrime(count));
  }

  /** hash_remove keeps a table sound and removes the key if and only if it takes its safe branch. */
  lemma RemoveRefinesMapIffSafe(hash: Hasher, s: State, k: Key)
    requires Sound(hash, s)
    ensures RemoveSafe(hash, s.table, k)
            <==> Sound(hash, Remove(hash, s, k)) && TableMap(Remove(hash, s, k).table) == TableMap(s.table) - {k}
    ensures WellHashed(hash, Remove(hash, s, k).table)
  {
    hide WellHashed, TableMap;
    HasBuckets(hash, s.table);
    RemoveKeepsWellHashed(hash, s.table, k);
    RemoveIsMapRemoveIffSafe(hash, s.table, k);
    LookupIsMap(hash, s.table, k);
    var b := Bucket(hash, |s.table|, k);
    CountOfUpdate(s.table, b, RemoveChain(s.table[b], k));
    if Lookup(hash, s.table, k).None? {
      assert TableMap(s.table) - {k} == TableMap(s.table);
      AbsentIsSafe(hash, s.table, k);
    }
  }

  lemma AbsentIsSafe(hash: Hasher, t: Table, k: Key)
    requires t != [] && Lookup(hash, t, k).None?
    ensures RemoveSafe(hash, t, k)
  {}

  // ---------- runs ----------

  datatype Op = SetOp(key: Key, val: MemRef) | RemoveOp(key: Key)

  function Step(hash: Hasher, s: State, op: Op): (r: State)
    requires s.table != []
    ensures r.table != []
  {
    match op
    case SetOp(k, v) => NextPrimeExceeds(0, if s.count + 1 >= 0 then s.count + 1 else 0); Set(hash, s, k, v)
    case RemoveOp(k) => Remove(hash, s, k)
  }

  function MapStep(m: map<Key, MemRef>, op: Op): map<Key, MemRef> {
    match op
    case SetOp(k, v) => m[k := v]
    case RemoveOp(k) => m - {k}
  }

  function Run(hash: Hasher, s: State, ops: seq<Op>): (r: State)
    requires s.table != []
    ensures r.table != []
  {
    if ops == [] then s else Step(hash, Run(hash, s, ops[..|ops| - 1]), ops[|ops| - 1])
  }

  function MapRun(m: map<Key, MemRef>, ops: seq<Op>): map<Key, MemRef> {
    if ops == [] then m else MapStep(MapRun(m, ops[..|ops| - 1]), ops[|ops| - 1])
  }

  /** No removal of the run hits the head of a longer chain. */
  ghost predicate SafeRun(hash: Hasher, s: State, ops: seq<Op>)
    requires s.table != []
  {
    forall i :: 0 <= i < |ops| && ops[i].RemoveOp? ==> RemoveSafe(hash, Run(hash, s, ops[..i]).table, ops[i].key)
  }

  /** After every step the table stands for the same map as the simple run, soundly. */
  ghost predicate Agrees(hash: Hasher, s: State, ops: seq<Op>)
    requires s.table != []
  {
    forall i :: 0 <= i <= |ops| ==> AgreesAt(hash, s, ops[..i])
  }

  ghost predicate AgreesAt(hash: Hasher, s: State, ops: seq<Op>)
    requires s.table != []
  {
    Sound(hash, Run(hash, s, ops)) && TableMap(Run(hash, s, ops).table) == MapRun(TableMap(s.table), ops)
  }

  lemma {:induction false} AgreesStep(hash: Hasher, s: State, ops: seq<Op>, op: Op)
    requires s.table != [] && AgreesAt(hash, s, ops)
    ensures AgreesAt(hash, s, ops + [op])
            <==> (op.RemoveOp? ==> RemoveSafe(hash, Run(hash, s, ops).table, op.key))
  {
    assert (ops + [op])[..|ops|] == ops;
    var r := Run(hash, s, ops);
    match op
    case SetOp(k, v) => SetRefinesMap(hash, r, k, v);
    case RemoveOp(k) => RemoveRefinesMapIffSafe(hash, r, k);
  }

  lemma {:induction false} SafeRunAgrees(hash: Hasher, s: State, ops: seq<Op>, n: nat)
    requires Sound(hash, s) && n <= |ops| && SafeRun(hash, s, ops)
    ensures AgreesAt(hash, s, ops[..n])
  {
    hide Run, AgreesAt, RemoveSafe, Sound;
    SoundTable(hash, s);
    if n > 0 {
      SafeRunAgrees(hash, s, ops, n - 1);
      AgreesStep(hash, s, ops[..n - 1], ops[n - 1]);
      assert ops[..n] == ops[..n - 1] + [ops[n - 1]];
    } else {
      AgreesAtStart(hash, s);
      assert ops[..0] == [];
    }
  }

  lemma AgreesAtStart(hash: Hasher, s: State)
    requires Sound(hash, s) && s.table != []
    ensures AgreesAt(hash, s, [])
  {}

  /** Over any run of hash_set and hash_remove the table agrees with a simple map at every step if and
      only if no removal hits the head of a longer chain. */
  lemma RunRefinesMapIffSafe(hash: Hasher, s: State, ops: seq<Op>)
    requires Sound(hash, s)
    ensures Agrees(hash, s, ops) <==> SafeRun(hash, s, ops)
  {
    hide Run, AgreesAt, RemoveSafe, Sound;
    SoundTable(hash, s);
    if SafeRun(hash, s, ops) {
      forall i | 0 <= i <= |ops| ensures AgreesAt(hash, s, ops[..i]) { SafeRunAgrees(hash, s, ops, i); }
    }
    if Agrees(hash, s, ops) {
      forall i | 0 <= i < |ops| && ops[i].RemoveOp?
        ensures RemoveSafe(hash, Run(hash, s, ops[..i]).table, ops[i].key)
      {
        assert AgreesAt(hash, s, ops[..i]) && AgreesAt(hash, s, ops[..i + 1]);
        AgreesStep(hash, s, ops[..i], ops[i]);
        assert ops[..i + 1] == ops[..i] + [ops[i]];
      }
    }
  }

  lemma SoundTable(hash: Hasher, s: State)
    requires Sound(hash, s)
    ensures s.table != []
  {}

  /** At every step of a safe run, lookups answer from the map and kvp_count is its size. */
  lemma SafeRunObservations(hash: Hasher, s: State, ops: seq<Op>, k: Key)
    requires Sound(hash, s) && SafeRun(hash, s, ops)
    ensures var r, m := Run(hash, s, ops), MapRun(TableMap(s.table), ops);
            && Lookup(hash, r.table, k) == (if k in m then Some(m[k]) else None)
            && r.count == |m|
            && (|m| < LARGEST ==> |m| <= |r.table|)
  {
    SafeRunAgrees(hash, s, ops, |ops|);
    assert ops[..|ops|] == ops;
    var r := Run(hash, s, ops);
    LookupIsMap(hash, r.table, k);
    CountIsMapSize(hash, r.table);
  }

  /** hash_set adds as many entries as it counts; hash_remove removes at least as many, and more if and
      only if it hits the head of a longer chain. */
  lemma StepCounts(hash: Hasher, s: State, op: Op)
    requires WellHashed(hash, s.table) && Count(s.table) <= s.count
    ensures s.table != [] && WellHashed(hash, Step(hash, s, op).table)
    ensures var r := Step(hash, s, op);
            && r.count - Count(r.table) >= s.count - Count(s.table)
            && (r.count - Count(r.table) == s.count - Count(s.table)
                <==> (op.RemoveOp? ==> RemoveSafe(hash, s.table, op.key)))
  {
    hide WellHashed;
    HasBuckets(hash, s.table);
    match op
    case SetOp(k, v) => SetCounts(hash, s, k, v);
    case RemoveOp(k) => RemoveCounts(hash, s, k);
  }

  lemma SetCounts(hash: Hasher, s: State, k: Key, v: MemRef)
    requires WellHashed(hash, s.table) && s.table != [] && Count(s.table) <= s.count
    ensures WellHashed(hash, Set(hash, s, k, v).table)
    ensures Set(hash, s, k, v).count - Count(Set(hash, s, k, v).table) == s.count - Count(s.table)
  {
    hide WellHashed, Rehash, NextPrimeFrom, PRIMES, TableMap;
    var t := SetTable(hash, s.table, k, v);
    SetKeepsWellHashed(hash, s.table, k, v);
    var b := Bucket(hash, |s.table|, k);
    CountOfUpdate(s.table, b, SetChain(s.table[b], k, v));
    HasBuckets(hash, t);
    NextPrimeExceeds(0, s.count + 1);
    RehashKeepsMap(hash, t, NextPrime(s.count + 1));
    RehashConserves(hash, t, NextPrime(s.count + 1));
  }

  lemma RemoveCounts(hash: Hasher, s: State, k: Key)
    requires WellHashed(hash, s.table) && s.table != []
    ensures WellHashed(hash, Remove(hash, s, k).table)
    ensures var lost := Remove(hash, s, k).count - Count(Remove(hash, s, k).table) - (s.count - Count(s.table));
            lost >= 0 && (lost == 0 <==> RemoveSafe(hash, s.table, k))
  {
    hide WellHashed;
    RemoveKeepsWellHashed(hash, s.table, k);
    var b := Bucket(hash, |s.table|, k);
    CountOfUpdate(s.table, b, RemoveChain(s.table[b], k));
    if Lookup(hash, s.table, k).None? { AbsentIsSafe(hash, s.table, k); }
  }

  /** Over any run from a sound table the table stays well hashed and kvp_count is never below the number of
      entries; the two are equal if and only if no removal of the run hits the head of a longer chain. */
  lemma {:induction false} RunCounts(hash: Hasher, s: State, ops: seq<Op>)
    requires Sound(hash, s) && s.table != []
    ensures var r := Run(hash, s, ops);
            && WellHashed(hash, r.table) && Count(r.table) <= r.count
            && (Count(r.table) == r.count <==> SafeRun(hash, s, ops))
  {
    hide WellHashed, Step, RemoveSafe;
    if ops != [] {
      var n := |ops| - 1;
      RunCounts(hash, s, ops[..n]);
      StepCounts(hash, Run(hash, s, ops[..n]), ops[n]);
      SafeRunSplits(hash, s, ops);
    }
  }

  lemma SafeRunSplits(hash: Hasher, s: State, ops: seq<Op>)
    requires s.table != [] && ops != []
    ensures var n := |ops| - 1;
            SafeRun(hash, s, ops)
            <==> SafeRun(hash, s, ops[..n])
                 && (ops[n].RemoveOp? ==> RemoveSafe(hash, Run(hash, s, ops[..n]).table, ops[n].key))
  {
    hide Run, RemoveSafe;
    var n := |ops| - 1;
    assert forall i :: 0 <= i <= n ==> ops[..n][..i] == ops[..i];
    if SafeRun(hash, s, ops) {
      forall i | 0 <= i < n && ops[..n][i].RemoveOp?
        ensures RemoveSafe(hash, Run(hash, s, ops[..n][..i]).table, ops[..n][i].key)
      {
        assert ops[i].RemoveOp?;
      }
    }
    if SafeRun(hash, s, ops[..n]) {
      forall i | 0 <= i < n && ops[i].RemoveOp? ensures RemoveSafe(hash, Run(hash, s, ops[..i]).table, ops[i].key) {
        assert ops[..n][i].RemoveOp?;
      }
    }
  }

  /** A three-bucket table with the keys 0 and 3 in one chain: removing the key 3, which came last and so
      is at the head, loses the key 0 as well. */
  lemma RemoveLosesChain(fnv: string -> nat, v: MemRef)
    ensures var hash := HasherOf(fnv);
            var s := State(EmptyTable(3), 0);
            var ops := [SetOp(IntKey(0), v), SetOp(IntKey(3), v), RemoveOp(IntKey(3))];
            && Sound(hash, s) && !SafeRun(hash, s, ops)
            && TableMap(Run(hash, s, ops).table) != MapRun(TableMap(s.table), ops)
  {
    hide PRIMES, TableMap, WellHashed, NextPrimeFrom;
    var hash := HasherOf(fnv);
    var s := State(EmptyTable(3), 0);
    var a, b, c := SetOp(IntKey(0), v), SetOp(IntKey(3), v), RemoveOp(IntKey(3));
    EmptyIsWellHashed(hash, 3);
    RunSetSet(fnv, v);
    TwoSetsAreSafe(hash, s, a, b);
    AgreesStep(hash, s, [a, b], c);
    assert [a, b] + [c] == [a, b, c] && [a, b, c][..2] == [a, b];
    RemoveIsMapRemoveIffSafe(hash, Run(hash, s, [a, b]).table, IntKey(3));
  }

  lemma TwoSetsAreSafe(hash: Hasher, s: State, a: Op, b: Op)
    requires Sound(hash, s) && a.SetOp? && b.SetOp?
    ensures AgreesAt(hash, s, [a, b])
  {
    SafeRunAgrees(hash, s, [a, b], 2);
    assert [a, b][..2] == [a, b];
  }

  lemma RunSetSet(fnv: string -> nat, v: MemRef)
    ensures var a, b := SetOp(IntKey(0), v), SetOp(IntKey(3), v);
            Run(HasherOf(fnv), State(EmptyTable(3), 0), [a, b])
            == State([[Entry(IntKey(3), v), Entry(IntKey(0), v)], [], []], 2)
  {
    hide PRIMES, NextPrimeFrom;
    var hash := HasherOf(fnv);
    var s := State(EmptyTable(3), 0);
    var a, b := SetOp(IntKey(0), v), SetOp(IntKey(3), v);
    assert EmptyTable(3) == [[], [], []];
    assert Bucket(hash, 3, IntKey(0)) == 0 == Bucket(hash, 3, IntKey(3));
    var s1 := State([[Entry(IntKey(0), v)], [], []], 1);
    assert SetChain(s.table[0], IntKey(0), v) == s1.table[0];
    assert SetTable(hash, s.table, IntKey(0), v) == s1.table;
    assert Step(hash, s, a) == s1;
    assert [a][..0] == [];
    assert Run(hash, s, [a]) == s1;
    assert [a, b][..1] == [a];
    var t2 := [[Entry(IntKey(3), v), Entry(IntKey(0), v)], [], []];
    assert SetChain(s1.table[0], IntKey(3), v) == t2[0];
    assert SetTable(hash, s1.table, IntKey(3), v) == t2;
    assert Step(hash, s1, b) == State(t2, 2);
  }
}
