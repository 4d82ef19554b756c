/** Repeated undos (vm/vm.c): after k requests, j undos ask request k - j again. */
module VmReissue {
  import opened VmSpec
  import opened VmRuns
  import opened VmUndo

  /** k requests are open: k saved contexts, each one past its suspend, and the current one. */
  ghost predicate OpenRequests(code: Program, v: seq<View>, k: nat) {
    |v| == k + 1 && forall n :: 0 <= n < k ==> code(v[n].pc - 1).Suspend? && v[n].stack != []
  }

  /** Where the fiber stands after j of the requests in v0 have been undone: it awaits the answer to
      request k - j, or it is about to ask it again. */
  ghost predicate Level(s: State, i: int, v0: seq<View>, k: nat, j: nat)
    requires |v0| == k + 1 && 0 <= i < |s.fibers|
  {
    var v, f := Views(s, i), s.fibers[i];
    && (k == 0 ==> j == 0) && (k > 0 ==> j < k)
    && if f.awaiting == Choice then
         |v| == k + 1 - j && v[..k - j] == v0[..k - j]
         && (j > 0 && v0[k - j - 1].stack != [] ==> f.client == Last(v0[k - j - 1].stack))
       else f.awaiting == Nothing && 0 < k - j && v == Before(v0, k - j)
  }

  /** No answer reaches fiber d but undo. */
  ghost predicate OnlyUndos(code: Program, r: Run, d: int) {
    |r.states| == |r.events| + 1 &&
    forall t, i :: 0 <= t < |r.events| && 0 <= i < |r.states[t].fibers| && r.states[t].fibers[i].id == d
      ==> OnlyUndo(r.states[t], r.events[t], i)
  }

  ghost predicate OnlyUndo(s: State, e: Event, i: int)
    requires 0 <= i < |s.fibers|
  {
    e.Answer? && Accepts(s, Choice, e.client, i) && e.choice in s.fibers[i].choices ==> e.choice == UNDO
  }

  /** Fiber i awaits an answer, the last other fiber ends, and that makes i go on without one. */
  ghost predicate Wakes(code: Program, s: State, e: Event, s': State, i: int)
    requires 0 <= i < |s.fibers|
  {
    s.fibers[i].awaiting == Choice && e.StepFiber? && Step(code, s, e.index) == Ended(s') && |s'.fibers| == 1
  }

  ghost predicate NeverWoken(code: Program, r: Run, d: int) {
    |r.states| == |r.events| + 1 &&
    forall t, u, i :: 0 <= t < u <= |r.events| && u == t + 1 && HasId(r.states[t], i, d)
      ==> !Wakes(code, r.states[t], r.events[t], r.states[u], i)
  }

  /** An event that does not concern a fiber leaves its record as it is; one that runs can be made to run. */
  lemma SameRecord(code: Program, s: State, e: Event, s': State, i: int) returns (i': int)
    requires Separate(s) && Next(code, s, e, s') && 0 <= i < |s.fibers| && Kind(code, s, e, i) == Same
    requires !Wakes(code, s, e, s', i) && (s.fibers[i].awaiting == Choice || s.fibers[i].awaiting == Nothing)
    ensures SameFiber(s, i, s', i') && s'.fibers[i'] == s.fibers[i]
  {
    i' := i;
    match e
    case StepFiber(k) =>
      if Step(code, s, k).Ended? {
        EndedRecord(code, s, k, s', i);
        i' := if i < k then i else i - 1;
      } else {
        StepRecord(code, s, k, i);
      }
    case Answer(client, choice) =>
    case RawAnswer(client, data) =>
  }

  lemma EndedRecord(code: Program, s: State, k: int, s': State, i: int)
    requires HasContext(s, k) && Step(code, s, k) == Ended(s') && 0 <= i < |s.fibers| && i != k
    ensures |s'.fibers| == |s.fibers| - 1
    ensures s'.fibers[if i < k then i else i - 1]
         == if |s'.fibers| == 1 then s.fibers[i].(awaiting := Nothing) else s.fibers[i]
  {
    hide *;
    var pc := Current(s, k).pc;
    var s1 := WithPc(s, k, pc + Size(code(pc)));
    StepIsExec(code, s, k);
    FetchKeeps(s, k, pc + Size(code(pc)));
    ExecEnded(s1, k, code(pc), i);
  }

  lemma ExecEnded(s: State, k: int, instr: Instr, i: int)
    requires HasContext(s, k) && Exec(s, k, instr).Ended? && 0 <= i < |s.fibers| && i != k
    ensures var fibers := Exec(s, k, instr).s.fibers;
            && |fibers| == |s.fibers| - 1
            && fibers[if i < k then i else i - 1]
               == if |fibers| == 1 then s.fibers[i].(awaiting := Nothing) else s.fibers[i]
  {
    hide Unwind, LoadVar, ReplaceVar, Owner, Choices;
  }

  lemma StepRecord(code: Program, s: State, k: int, i: int)
    requires HasContext(s, k) && 0 <= i < |s.fibers| && i != k
    ensures var o := Step(code, s, k); o.Go? || o.Wait? ==> i < |o.s.fibers| && o.s.fibers[i] == s.fibers[i]
  {
    hide *;
    var pc := Current(s, k).pc;
    var s1 := WithPc(s, k, pc + Size(code(pc)));
    StepIsExec(code, s, k);
    FetchRecord(s, k, pc + Size(code(pc)), i);
    ExecRecord(s1, k, code(pc), i);
  }

  lemma FetchRecord(s: State, k: int, pc: int, i: int)
    requires HasContext(s, k) && 0 <= i < |s.fibers| && i != k
    ensures i < |WithPc(s, k, pc).fibers| && WithPc(s, k, pc).fibers[i] == s.fibers[i]
  {}

  lemma ExecRecord(s: State, k: int, instr: Instr, i: int)
    requires HasContext(s, k) && 0 <= i < |s.fibers| && i != k
    ensures var o := Exec(s, k, instr); o.Go? || o.Wait? ==> i < |o.s.fibers| && o.s.fibers[i] == s.fibers[i]
  {}

  lemma SuspendRecord(code: Program, s: State, i: int, s': State)
    requires HasContext(s, i) && code(Current(s, i).pc).Suspend? && Step(code, s, i) == Wait(s')
    ensures |s'.fibers| == |s.fibers| && s'.fibers[i].id == s.fibers[i].id && s'.fibers[i].awaiting == Choice
    ensures CurrentCell(s, i).stack != [] && s'.fibers[i].client == Last(CurrentCell(s, i).stack)
  {}

  /** One event of the run. */
  lemma LevelStep(code: Program, s: State, e: Event, s': State, i: int, v0: seq<View>, k: nat, j: nat)
    returns (i': int, j': nat)
    requires Separate(s) && Next(code, s, e, s') && 0 <= i < |s.fibers| && !Wakes(code, s, e, s', i)
    requires OpenRequests(code, v0, k) && Level(s, i, v0, k, j) && OnlyUndo(s, e, i)
    ensures SameFiber(s, i, s', i') && Level(s', i', v0, k, j')
    ensures j' == if Kind(code, s, e, i) == Undone then j + 1 else j
  {
    hide Next, Separate, Views, Level, OpenRequests, Step, Changes, Wakes, OnlyUndo;
    j' := j;
    LevelKinds(code, s, e, s', i, v0, k, j);
    if Kind(code, s, e, i) == Same {
      i' := SameRecord(code, s, e, s', i);
      ViewStep(code, s, e, s', i, i');
      SameLevel(s, s', i, i', v0, k, j);
    } else if e.Answer? {
      i', j' := i, j + 1;
      ViewStep(code, s, e, s', i, i');
      UndoneLevel(s, s', i, v0, k, j);
    } else {
      i' := i;
      SuspendAgain(code, s, s', i, v0, k, j);
    }
  }

  /** What can happen to a fiber that awaits an answer or is about to ask again. */
  lemma LevelKinds(code: Program, s: State, e: Event, s': State, i: int, v0: seq<View>, k: nat, j: nat)
    requires Separate(s) && Next(code, s, e, s') && 0 <= i < |s.fibers|
    requires OpenRequests(code, v0, k) && Level(s, i, v0, k, j) && OnlyUndo(s, e, i)
    ensures |v0| == k + 1 && (s.fibers[i].awaiting == Choice || s.fibers[i].awaiting == Nothing)
    ensures Kind(code, s, e, i) != Same ==>
              if e.Answer? then
                && Kind(code, s, e, i) == Undone && s.fibers[i].awaiting == Choice && i < |s'.fibers|
                && s'.fibers[i].awaiting == Nothing && SameFiber(s, i, s', i)
              else e == StepFiber(i)
  {
    hide Views, CellsDistinct;
  }

  lemma SameLevel(s: State, s': State, i: int, i': int, v0: seq<View>, k: nat, j: nat)
    requires |v0| == k + 1 && SameFiber(s, i, s', i') && s'.fibers[i'] == s.fibers[i] && Level(s, i, v0, k, j)
    requires Changes(Same, Views(s, i), Views(s', i'))
    ensures Level(s', i', v0, k, j)
  {}

  lemma UndoneLevel(s: State, s': State, i: int, v0: seq<View>, k: nat, j: nat)
    requires |v0| == k + 1 && 0 <= i < |s.fibers| && i < |s'.fibers| && Level(s, i, v0, k, j)
             && s.fibers[i].awaiting == Choice
    requires Changes(Undone, Views(s, i), Views(s', i)) && s'.fibers[i].awaiting == Nothing
    ensures Level(s', i, v0, k, j + 1)
  {
    var v := Views(s, i);
    var n := k - j - 1;
    assert v[..k - j][..n - 1] == v[..n - 1] && v0[..k - j][..n - 1] == v0[..n - 1];
    assert v[..k - j][n - 1] == v[n - 1] && v0[..k - j][n - 1] == v0[n - 1];
  }

  lemma SuspendAgain(code: Program, s: State, s': State, i: int, v0: seq<View>, k: nat, j: nat)
    requires Separate(s) && Next(code, s, StepFiber(i), s') && OpenRequests(code, v0, k) && 0 <= i < |s.fibers|
    requires Level(s, i, v0, k, j)
    ensures SameFiber(s, i, s', i) && Level(s', i, v0, k, j)
    ensures Kind(code, s, StepFiber(i), i) == Suspended
  {
    var v, n := Views(s, i), k - j;
    assert Last(v) == ViewOf(s, Current(s, i));
    assert Last(v) == v0[n - 1].(pc := v0[n - 1].pc - 1);
    StepCode(code, s, i);
    SuspendRecord(code, s, i, s');
    hide Step, Separate, Views, Next;
    SuspendViews(code, s, i, s', i, i);
    var v' := Views(s', i);
    assert v0[..n] == v0[..n - 1] + [v0[n - 1]];
    assert Init(v) == v0[..n - 1];
    assert v'[..n] == v0[..n];
  }

  ghost predicate HasId(s: State, i: int, d: int) {
    0 <= i < |s.fibers| && s.fibers[i].id == d
  }

  /** How many undos fiber d has accepted in the first t events. */
  ghost function UndoCount(code: Program, r: Run, d: int, t: nat): nat
    requires |r.states| == |r.events| + 1 && t <= |r.events|
  {
    if t == 0 then 0
    else
      UndoCount(code, r, d, t - 1)
      + if UndoneNow(code, r.states[t - 1], r.events[t - 1], d) then 1 else 0
  }

  ghost predicate UndoneNow(code: Program, s: State, e: Event, d: int) {
    exists i :: HasId(s, i, d) && Kind(code, s, e, i) == Undone
  }

  /** After j accepted undos the fiber has the contexts it had at request k - j, and awaits the answer to
      that request from the client it was sent to, or is about to send it again. */
  lemma {:induction false} UndosReissue(code: Program, r: Run, d: int, i0: int, k: nat, t: nat) returns (i: int)
    requires IsRun(code, r) && t <= |r.events| && OnlyUndos(code, r, d) && NeverWoken(code, r, d)
    requires HasId(r.states[0], i0, d) && r.states[0].fibers[i0].awaiting == Choice
    requires OpenRequests(code, Views(r.states[0], i0), k)
    ensures HasId(r.states[t], i, d)
    ensures Level(r.states[t], i, Views(r.states[0], i0), k, UndoCount(code, r, d, t))
    decreases t
  {
    var v0 := Views(r.states[0], i0);
    if t == 0 {
      i := i0;
      assert v0[..k] == v0[..k - 0];
    } else {
      hide Separate, Next, Views, Level, OpenRequests, Kind, Wakes, OnlyUndo;
      var i1 := UndosReissue(code, r, d, i0, k, t - 1);
      var s, e, s' := r.states[t - 1], r.events[t - 1], r.states[t];
      RunSeparate(code, r, t - 1);
      assert Next(code, s, e, s') && !Wakes(code, s, e, s', i1) && OnlyUndo(s, e, i1);
      var j := UndoCount(code, r, d, t - 1);
      var j';
      i, j' := LevelStep(code, s, e, s', i1, v0, k, j);
      OnlyOne(s, i1, d);
    }
  }

  /** Fiber d stands where its accepted undos put it. */
  ghost predicate InStep(code: Program, r: Run, d: int, i0: int, k: nat, t: nat)
    requires |r.states| == |r.events| + 1 && t <= |r.events| && HasId(r.states[0], i0, d)
    requires |Views(r.states[0], i0)| == k + 1
  {
    exists i :: HasId(r.states[t], i, d) && Level(r.states[t], i, Views(r.states[0], i0), k, UndoCount(code, r, d, t))
  }

  /** After k requests, j undos ask request k - j again, at every moment and whatever the other fibers do,
      if and only if the fiber is never made to go on without an answer because the last other fiber ended. */
  lemma UndosReissueIff(code: Program, r: Run, d: int, i0: int, k: nat)
    requires IsRun(code, r) && OnlyUndos(code, r, d)
    requires HasId(r.states[0], i0, d) && r.states[0].fibers[i0].awaiting == Choice
    requires OpenRequests(code, Views(r.states[0], i0), k)
    ensures (forall t :: 0 <= t <= |r.events| ==> InStep(code, r, d, i0, k, t)) <==> NeverWoken(code, r, d)
  {
    hide Separate, Next, Views, Level, OpenRequests, Kind, Wakes, OnlyUndo;
    OpenCount(code, Views(r.states[0], i0), k);
    if NeverWoken(code, r, d) {
      forall t | 0 <= t <= |r.events| ensures InStep(code, r, d, i0, k, t) {
        var i := UndosReissue(code, r, d, i0, k, t);
      }
    } else {
      var t, u, i :| 0 <= t < u <= |r.events| && u == t + 1 && HasId(r.states[t], i, d)
                     && Wakes(code, r.states[t], r.events[t], r.states[u], i);
      if InStep(code, r, d, i0, k, t) && InStep(code, r, d, i0, k, u) {
        RunNext(code, r, t, u);
        OnlyOne(r.states[t], i, d);
        var i' :| HasId(r.states[u], i', d)
                  && Level(r.states[u], i', Views(r.states[0], i0), k, UndoCount(code, r, d, u));
        WokenOutOfStep(code, r.states[t], r.events[t], r.states[u], i, d, i', Views(r.states[0], i0), k,
                       UndoCount(code, r, d, t));
        NotUndone(code, r.states[t], r.events[t], r.states[u], i, d);
      }
    }
  }

  lemma OpenCount(code: Program, v: seq<View>, k: nat)
    requires OpenRequests(code, v, k)
    ensures |v| == k + 1
  {}

  lemma NotUndone(code: Program, s: State, e: Event, s': State, i: int, d: int)
    requires HasId(s, i, d) && Wakes(code, s, e, s', i)
    ensures !UndoneNow(code, s, e, d)
  {}

  /** A fiber that was woken has its contexts still, but does not await the answer any more. */
  lemma WokenOutOfStep(code: Program, s: State, e: Event, s': State, i: int, d: int, i': int, v0: seq<View>, k: nat,
                       j: nat)
    requires Separate(s) && Next(code, s, e, s') && HasId(s, i, d) && Wakes(code, s, e, s', i) && HasId(s', i', d)
    requires |v0| == k + 1 && Level(s, i, v0, k, j)
    ensures !Level(s', i', v0, k, j)
  {
    WokenRecord(code, s, e.index, s', i);
    WokenViews(s, s', i);
  }

  lemma WokenRecord(code: Program, s: State, k: int, s': State, i: int)
    requires HasContext(s, k) && Step(code, s, k) == Ended(s') && |s'.fibers| == 1 && 0 <= i < |s.fibers|
    requires s.fibers[i].awaiting == Choice && s.fibers[k].awaiting == Nothing
    ensures s'.fibers[0] == s.fibers[i].(awaiting := Nothing)
  {
    EndedRecord(code, s, k, s', i);
  }

  lemma WokenViews(s: State, s': State, i: int)
    requires 0 <= i < |s.fibers| && |s'.fibers| == 1 && s'.fibers[0] == s.fibers[i].(awaiting := Nothing)
    ensures |Views(s', 0)| == |Views(s, i)|
  {}

  lemma OnlyOne(s: State, i: int, d: int)
    requires Separate(s) && HasId(s, i, d)
    ensures forall j :: HasId(s, j, d) ==> j == i
  {
    hide Separate;
    forall j | HasId(s, j, d) ensures j == i { OneIndex(s, i, j); }
  }

  /** In a run that starts with single contexts, the saved contexts of a fiber are open requests. */
  lemma SavedAreOpenRequests(code: Program, r: Run, t: nat, i: nat, k: nat)
    requires IsRun(code, r) && t <= |r.events| && i < |r.states[t].fibers|
    requires forall j :: 0 <= j < |r.states[0].fibers| ==> |r.states[0].fibers[j].contexts| == 1
    requires |r.states[t].fibers[i].contexts| == k + 1
    ensures OpenRequests(code, Views(r.states[t], i), k)
  {
    hide IsRun, AllRecorded, Recorded;
    RunShape(code, r);
    var v, d := Views(r.states[t], i), r.states[t].fibers[i].id;
    SavedBySuspend(code, r, t, i);
    forall n | 0 <= n < k ensures code(v[n].pc - 1).Suspend? && v[n].stack != [] {
      RecordedOne(code, r, t, d, v, n + 1);
      SavedIsOpen(code, r, t, d, v, n, n + 1);
    }
  }

  lemma RunShape(code: Program, r: Run)
    requires IsRun(code, r)
    ensures |r.states| == |r.events| + 1
  {}

  lemma RecordedOne(code: Program, r: Run, t: nat, d: int, v: seq<View>, n: nat)
    requires |r.states| == |r.events| + 1 && AllRecorded(code, r, t, d, v) && 0 < n < |v|
    ensures Recorded(code, r, t, d, v, n)
  {
    hide Recorded;
  }

  lemma SavedIsOpen(code: Program, r: Run, t: nat, d: int, v: seq<View>, n: nat, m: nat)
    requires IsRun(code, r) && t <= |r.events| && m == n + 1 < |v| && Recorded(code, r, t, d, v, m)
    ensures code(v[n].pc - 1).Suspend? && v[n].stack != []
  {
    hide Next, Separate, Views, Above;
    var t0 :| 0 <= t0 < t && SuspendAt(code, r, t0, d, Before(v, m)) && Above(r, t0, t, d, m);
    assert Last(Before(v, m)) == v[n].(pc := v[n].pc - 1);
    RunSeparate(code, r, t0);
    LastView(r.states[t0], r.events[t0].index);
    SuspendHasOperands(code, r, t0);
  }

  lemma LastView(s: State, i: int)
    requires 0 <= i < |s.fibers| && Views(s, i) != []
    ensures s.fibers[i].contexts != [] && Last(Views(s, i)).pc == Last(s.fibers[i].contexts).pc
  {}

  lemma SuspendHasOperands(code: Program, r: Run, t0: nat)
    requires IsRun(code, r) && t0 < |r.events| && r.events[t0].StepFiber? && Separate(r.states[t0])
    requires 0 <= r.events[t0].index < |r.states[t0].fibers|
    requires code(Last(r.states[t0].fibers[r.events[t0].index].contexts).pc).Suspend?
    ensures Last(Views(r.states[t0], r.events[t0].index)).stack != []
  {
    var s, k, u := r.states[t0], r.events[t0].index, t0 + 1;
    assert Next(code, s, r.events[t0], r.states[u]);
    StepCode(code, s, k);
    SuspendRecord(code, s, k, r.states[u]);
  }
}
