/** Undo over whole runs (vm/vm.c): every accepted undo brings a fiber back to exactly where it was just
    before an earlier suspend, repeated undos ask the earlier requests again, and nothing goes back behind a cut. */
module VmUndo {
  import opened VmSpec
  import opened VmRuns

  /** A run of events from a separate state. */
  datatype Run = Run(states: seq<State>, events: seq<Event>)

  ghost predicate IsRun(code: Program, r: Run) {
    && |r.states| == |r.events| + 1 && Separate(r.states[0])
    && (forall t, u :: 0 <= t < u <= |r.events| && u == t + 1 ==> Next(code, r.states[t], r.events[t], r.states[u]))
  }

  lemma {:induction false} RunSeparate(code: Program, r: Run, t: nat)
    requires IsRun(code, r) && t <= |r.events|
    ensures Separate(r.states[t])
    decreases t
  {
    if t > 0 {
      hide Next, Separate;
      RunSeparate(code, r, t - 1);
      assert Next(code, r.states[t - 1], r.events[t - 1], r.states[t]);
      SeparateStep(code, r.states[t - 1], r.events[t - 1], r.states[t]);
    }
  }

  lemma RunNext(code: Program, r: Run, t: nat, u: nat)
    requires IsRun(code, r) && u == t + 1 && u <= |r.events|
    ensures |r.states| == |r.events| + 1 && Next(code, r.states[t], r.events[t], r.states[u])
    ensures Separate(r.states[t]) && Separate(r.states[u])
  {
    hide Next, Separate;
    RunSeparate(code, r, t);
    RunSeparate(code, r, u);
  }

  // ---------- every saved context was saved by a suspend ----------

  /** Fiber d is about to execute suspend, with these contexts. */
  ghost predicate AtSuspend(code: Program, s: State, i: int, d: int, v: seq<View>) {
    && 0 <= i < |s.fibers| && s.fibers[i].id == d && Views(s, i) == v && v != []
    && code(Last(v).pc).Suspend?
  }

  ghost predicate SuspendAt(code: Program, r: Run, t: int, d: int, v: seq<View>)
    requires |r.states| == |r.events| + 1
  {
    && 0 <= t < |r.events| && r.events[t].StepFiber?
    && AtSuspend(code, r.states[t], r.events[t].index, d, v)
  }

  /** The contexts of a fiber as they were when the last of the first n was the current one. */
  ghost function Before(v: seq<View>, n: nat): seq<View>
    requires 0 < n <= |v|
  {
    v[..n - 1] + [v[n - 1].(pc := v[n - 1].pc - 1)]
  }

  /** From after moment t0 up to moment t fiber d has more than n contexts. */
  ghost predicate Above(r: Run, t0: int, t: int, d: int, n: nat) {
    forall u, i :: t0 < u <= t && 0 <= u < |r.states| && 0 <= i < |r.states[u].fibers| && r.states[u].fibers[i].id == d
                   ==> |r.states[u].fibers[i].contexts| > n
  }

  /** The n-th context was saved by a suspend, and the fiber has not gone back to it since. */
  ghost predicate Recorded(code: Program, r: Run, t: nat, d: int, v: seq<View>, n: nat)
    requires |r.states| == |r.events| + 1
  {
    0 < n <= |v| ==> exists t0 :: 0 <= t0 < t && SuspendAt(code, r, t0, d, Before(v, n)) && Above(r, t0, t, d, n)
  }

  ghost predicate AllRecorded(code: Program, r: Run, t: nat, d: int, v: seq<View>)
    requires |r.states| == |r.events| + 1
  {
    forall n :: 0 < n < |v| ==> Recorded(code, r, t, d, v, n)
  }

  lemma SamePrefixRecorded(code: Program, r: Run, t: nat, t': nat, d: int, v: seq<View>, v': seq<View>, n: nat)
    requires |r.states| == |r.events| + 1 && t' == t + 1 && 0 < n <= |v| && n <= |v'| && v'[..n] == v[..n]
    requires Recorded(code, r, t, d, v, n) && Above(r, t, t', d, n)
    ensures Recorded(code, r, t', d, v', n)
  {
    assert v[..n][..n - 1] == v[..n - 1] && v'[..n][..n - 1] == v'[..n - 1];
    assert v[..n][n - 1] == v[n - 1] && v'[..n][n - 1] == v'[n - 1];
    assert Before(v', n) == Before(v, n);
    var t0 :| 0 <= t0 < t && SuspendAt(code, r, t0, d, Before(v, n)) && Above(r, t0, t, d, n);
    assert Above(r, t0, t', d, n);
  }

  lemma RecordedStep(code: Program, r: Run, t: nat, t': nat, d: int, kind: Change, v: seq<View>, v': seq<View>)
    requires |r.states| == |r.events| + 1 && t' == t + 1 && AllRecorded(code, r, t, d, v) && Changes(kind, v, v')
    requires kind == Suspended ==> SuspendAt(code, r, t, d, v)
    requires forall n :: 0 < n < |v'| ==> Above(r, t, t', d, n)
    ensures AllRecorded(code, r, t', d, v')
  {
    forall n | 0 < n < |v'| ensures Recorded(code, r, t', d, v', n) {
      if kind == Suspended && n == |v| {
        assert v'[..|v|][..n - 1] == v'[..n - 1] && v'[..|v|][n - 1] == v'[n - 1];
        assert Before(v', n) == v;
        assert Above(r, t, t', d, n);
      } else {
        PrefixKept(kind, v, v', n);
        SamePrefixRecorded(code, r, t, t', d, v, v', n);
      }
    }
  }

  lemma AboveNow(r: Run, t: nat, t': nat, i: nat)
    requires t' == t + 1 && t' < |r.states| && Separate(r.states[t']) && i < |r.states[t'].fibers|
    ensures forall n :: 0 < n < |Views(r.states[t'], i)| ==> Above(r, t, t', r.states[t'].fibers[i].id, n)
  {
    hide CellsDistinct;
    var d := r.states[t'].fibers[i].id;
    forall n | 0 < n < |Views(r.states[t'], i)| ensures Above(r, t, t', d, n) {
      forall u, j | t < u <= t' && 0 <= j < |r.states[u].fibers| && r.states[u].fibers[j].id == d
        ensures |r.states[u].fibers[j].contexts| > n
      {
        assert u == t' && j == i;
      }
    }
  }

  lemma PrefixKept(kind: Change, v: seq<View>, v': seq<View>, n: nat)
    requires Changes(kind, v, v') && 0 < n < |v'| && !(kind == Suspended && n == |v|)
    ensures n < |v| && v'[..n] == v[..n]
  {
    match kind
    case Same =>
    case Worked => assert v'[..n] == Init(v')[..n] && v[..n] == Init(v)[..n];
    case Suspended => assert v'[..n] == v'[..|v|][..n] && v[..n] == Init(v)[..n];
    case WasCut =>
    case Undone => assert v'[..n] == v[..|v| - 3][..n] == v[..n];
  }

  /** A fiber that an event adds has a single context. */
  lemma NewFiberIsFresh(code: Program, s: State, e: Event, s': State, i': int)
    requires Separate(s) && Next(code, s, e, s') && 0 <= i' < |s'.fibers|
    ensures (|s'.fibers[i'].contexts| == 1 && s'.fibers[i'].id >= s.maxId) || exists i :: SameFiber(s, i, s', i')
  {
    match e
    case StepFiber(k) =>
      if Step(code, s, k).Ended? {
        EndedFibers(code, s, k, s');
        var i := if i' < k then i' else i' + 1;
        assert SameFiber(s, i, s', i');
      } else {
        StepFibers(code, s, k);
        if i' < |s.fibers| { assert SameFiber(s, i', s', i'); }
      }
    case Answer(client, choice) => assert SameFiber(s, i', s', i');
    case RawAnswer(client, data) => assert SameFiber(s, i', s', i');
  }

  lemma StepFibers(code: Program, s: State, k: int)
    requires HasContext(s, k)
    ensures var o := Step(code, s, k);
            o.Go? || o.Wait? ==>
              && |s.fibers| <= |o.s.fibers| && s.maxId <= o.s.maxId
              && (forall j :: 0 <= j < |s.fibers| ==> o.s.fibers[j].id == s.fibers[j].id)
              && (forall j :: |s.fibers| <= j < |o.s.fibers| ==>
                    |o.s.fibers[j].contexts| == 1 && o.s.fibers[j].id >= s.maxId)
  {
    hide *;
    StepIsExec(code, s, k);
    var pc := Current(s, k).pc;
    var s1 := WithPc(s, k, pc + Size(code(pc)));
    ExecFibers(s1, k, code(pc));
    FetchFibers(s, k, pc + Size(code(pc)));
  }

  lemma FetchFibers(s: State, k: int, pc: int)
    requires HasContext(s, k)
    ensures var s1 := WithPc(s, k, pc);
            && |s1.fibers| == |s.fibers| && s1.maxId == s.maxId
            && (forall j :: 0 <= j < |s.fibers| ==> s1.fibers[j].id == s.fibers[j].id)
  {}

  lemma ExecFibers(s: State, k: int, instr: Instr)
    requires HasContext(s, k)
    ensures var o := Exec(s, k, instr);
            o.Go? || o.Wait? ==>
              && |s.fibers| <= |o.s.fibers| && s.maxId <= o.s.maxId
              && (forall j :: 0 <= j < |s.fibers| ==> o.s.fibers[j].id == s.fibers[j].id)
              && (forall j :: |s.fibers| <= j < |o.s.fibers| ==>
                    |o.s.fibers[j].contexts| == 1 && o.s.fibers[j].id >= s.maxId)
  {}

  /** In a run that starts with single contexts, every saved context of every fiber was saved by a suspend. */
  lemma {:induction false} SavedBySuspend(code: Program, r: Run, t: nat, i: nat)
    requires IsRun(code, r) && t <= |r.events| && i < |r.states[t].fibers|
    requires forall j :: 0 <= j < |r.states[0].fibers| ==> |r.states[0].fibers[j].contexts| == 1
    ensures AllRecorded(code, r, t, r.states[t].fibers[i].id, Views(r.states[t], i))
    decreases t
  {
    if t > 0 {
      hide Separate, Next, Views, AllRecorded, Changes, Above;
      var s, e, s' := r.states[t - 1], r.events[t - 1], r.states[t];
      RunSeparate(code, r, t - 1);
      RunSeparate(code, r, t);
      AboveNow(r, t - 1, t, i);
      assert Next(code, s, e, s');
      NewFiberIsFresh(code, s, e, s', i);
      if j :| SameFiber(s, j, s', i) {
        SavedBySuspend(code, r, t - 1, j);
        ViewStep(code, s, e, s', j, i);
        if Kind(code, s, e, j) == Suspended { SuspendedAt(code, r, t - 1, j); }
        RecordedStep(code, r, t - 1, t, s'.fibers[i].id, Kind(code, s, e, j), Views(s, j), Views(s', i));
      } else {
        SingleIsRecorded(code, r, t, s'.fibers[i].id, Views(s', i));
      }
    }
  }

  lemma SingleIsRecorded(code: Program, r: Run, t: nat, d: int, v: seq<View>)
    requires |r.states| == |r.events| + 1 && |v| <= 1
    ensures AllRecorded(code, r, t, d, v)
  {}

  lemma SuspendedAt(code: Program, r: Run, t: nat, j: int)
    requires IsRun(code, r) && t < |r.events| && 0 <= j < |r.states[t].fibers|
    requires Kind(code, r.states[t], r.events[t], j) == Suspended
    ensures SuspendAt(code, r, t, r.states[t].fibers[j].id, Views(r.states[t], j))
  {}

  /** Accepting an undo leaves the fiber's contexts - ids, pcs, stack contents and scope references -
      exactly as they were when it was about to execute a suspend, with the pc on that instruction again.
      It is the suspend before the one that is being answered: since then the fiber has always had more
      contexts than after the undo. */
  lemma UndoIsRollback(code: Program, r: Run, t: nat, t': nat, client: Val, i: nat)
    requires IsRun(code, r) && t < |r.events| && t' == t + 1 && r.events[t] == Answer(client, UNDO)
    requires forall j :: 0 <= j < |r.states[0].fibers| ==> |r.states[0].fibers[j].contexts| == 1
    requires Accepts(r.states[t], Choice, client, i) && UNDO in r.states[t].fibers[i].choices
    ensures i < |r.states[t'].fibers|
    ensures var d, v' := r.states[t].fibers[i].id, Views(r.states[t'], i);
            exists t0 :: 0 <= t0 < t && SuspendAt(code, r, t0, d, v') && Above(r, t0, t, d, |v'|)
  {
    var s, e, s' := r.states[t], r.events[t], r.states[t'];
    assert Next(code, s, e, s');
    assert SameFiber(s, i, s', i);
    var v, d := Views(s, i), s.fibers[i].id;
    RunSeparate(code, r, t);
    ViewStep(code, s, e, s', i, i);
    SavedBySuspend(code, r, t, i);
    hide Next, Separate, Views, SuspendAt, IsRun, Above;
    assert Recorded(code, r, t, d, v, |v| - 2);
    assert v[..|v| - 2 - 1] == v[..|v| - 3];
    assert Before(v, |v| - 2) == Views(s', i);
  }
}
