/** No fiber loses its last context, and nothing goes back behind a cut (vm/vm.c). */
module VmSafety {
  import opened VmSpec
  import opened VmRuns
  import opened VmUndo

  /** A fiber that awaits a choice has a saved context, and two of them when undo is among the choices. */
  ghost predicate Safe(s: State) {
    forall i :: 0 <= i < |s.fibers| ==> SafeFiber(s.fibers[i])
  }

  ghost predicate SafeFiber(f: Fiber) {
    f.awaiting == Choice ==> |f.contexts| >= 2 && (UNDO in f.choices ==> |f.contexts| >= 3)
  }

  /** The event runs a suspend whose request itself uses the undo key. */
  ghost predicate OwnUndo(code: Program, s: State, e: Event) {
    e.StepFiber? && HasContext(s, e.index) && AsksOwnUndo(s, e.index, code(Current(s, e.index).pc))
  }

  /** A key among the elements i, i + 2, ... that has a text after it. */
  predicate HasKey(request: seq<Val>, i: nat, key: Val)
    decreases |request| - i
  {
    i + 1 < |request| && (request[i] == key || HasKey(request, i + 2, key))
  }

  lemma {:induction false} ChoiceKeys(request: seq<Val>, i: nat, choices: map<Val, Val>, key: Val)
    ensures key in Choices(request, i, choices) <==> key in choices || HasKey(request, i, key)
    decreases |request| - i
  {
    if i + 1 < |request| {
      ChoiceKeys(request, i + 2, choices[request[i] := request[i + 1]], key);
    }
  }

  /** Suspend offers undo when there are more than two contexts or the request uses the key itself. */
  lemma UndoOffered(s: State, fi: int)
    requires HasContext(s, fi) && HasRequest(s, CurrentCell(s, fi).stack)
    ensures var o, stack := ExecSuspend(s, fi), CurrentCell(s, fi).stack;
            && o.Wait? && fi < |o.s.fibers| && o.s.fibers[fi].awaiting == Choice
            && (UNDO in o.s.fibers[fi].choices
                <==> |o.s.fibers[fi].contexts| >= 3 || HasKey(s.arrays[stack[|stack| - 2].a], 1, UNDO))
  {
    var stack := CurrentCell(s, fi).stack;
    var request := s.arrays[stack[|stack| - 2].a];
    var undo := if |s.fibers[fi].contexts| + 1 > 2 then map[UNDO := Str("UNDO")] else map[];
    ChoiceKeys(request, 1, undo, UNDO);
  }

  /** Executing this instruction is a suspend whose request uses the undo key. */
  ghost predicate AsksOwnUndo(s: State, fi: int, instr: Instr)
    requires HasContext(s, fi)
  {
    var stack := CurrentCell(s, fi).stack;
    instr.Suspend? && HasRequest(s, stack) && HasKey(s.arrays[stack[|stack| - 2].a], 1, UNDO)
  }

  lemma SafeExec(s: State, fi: int, instr: Instr)
    requires Safe(s) && HasContext(s, fi) && s.fibers[fi].awaiting == Nothing && !AsksOwnUndo(s, fi, instr)
    ensures var o := Exec(s, fi, instr); o.Go? || o.Wait? || o.Ended? ==> Safe(o.s)
  {
    if instr.Suspend? && HasRequest(s, CurrentCell(s, fi).stack) {
      UndoOffered(s, fi);
    }
  }

  lemma SafeFetch(s: State, i: int, pc: int)
    requires Safe(s) && HasContext(s, i)
    ensures var s1 := WithPc(s, i, pc);
            && Safe(s1) && HasContext(s1, i) && s1.fibers[i].awaiting == s.fibers[i].awaiting
            && forall instr :: AsksOwnUndo(s1, i, instr) <==> AsksOwnUndo(s, i, instr)
  {}

  lemma SafeRun(code: Program, s: State, i: int)
    requires Safe(s) && HasContext(s, i) && s.fibers[i].awaiting == Nothing
    requires !AsksOwnUndo(s, i, code(Current(s, i).pc))
    ensures var o := Step(code, s, i); o.Go? || o.Wait? || o.Ended? ==> Safe(o.s)
  {
    hide *;
    var pc := Current(s, i).pc;
    var s1 := WithPc(s, i, pc + Size(code(pc)));
    StepIsExec(code, s, i);
    SafeFetch(s, i, pc + Size(code(pc)));
    SafeExec(s1, i, code(pc));
  }

  /** Every event keeps a machine safe, unless it runs a suspend that uses the undo key itself. */
  lemma SafeStep(code: Program, s: State, e: Event, s': State)
    requires Safe(s) && Next(code, s, e, s') && !OwnUndo(code, s, e)
    ensures Safe(s')
  {
    if e.StepFiber? {
      hide Safe, AsksOwnUndo, Step;
      SafeRun(code, s, e.index);
    }
  }

  /** A fiber suspends, and its client answers with undo: the fiber loses its last context if and only if
      nothing was saved before and the request uses the undo key itself.  Without the key, a fiber that had
      nothing saved ignores the answer. */
  lemma UndoLosesIff(s: State, fi: int, s': State)
    requires HasContext(s, fi) && HasRequest(s, CurrentCell(s, fi).stack) && ExecSuspend(s, fi) == Wait(s')
    requires Accepts(s', Choice, Last(CurrentCell(s, fi).stack), fi)
    ensures var stack := CurrentCell(s, fi).stack;
            var o := Respond(s', Last(stack), UNDO);
            var first, own := |s.fibers[fi].contexts| == 1, HasKey(s.arrays[stack[|stack| - 2].a], 1, UNDO);
            (o.Crash? <==> first && own) && (first && !own ==> o == Go(s'))
  {
    UndoOffered(s, fi);
  }

  /** In a safe machine no answer loses a context. */
  lemma SafeAnswers(s: State, client: Val, choice: Val)
    requires Separate(s) && Safe(s)
    ensures Respond(s, client, choice).Go? && RespondRaw(s, client, choice).Go?
  {}

  /** Over any run of a program that does not use the undo key itself, every fiber keeps a context and
      every answer is taken without losing one. */
  lemma {:induction false} RunIsSafe(code: Program, r: Run, t: nat)
    requires IsRun(code, r) && t <= |r.events| && Safe(r.states[0])
    requires forall u :: 0 <= u < |r.events| ==> !OwnUndo(code, r.states[u], r.events[u])
    ensures Safe(r.states[t])
    ensures forall i :: 0 <= i < |r.states[t].fibers| ==> r.states[t].fibers[i].contexts != []
    ensures forall client, choice :: Respond(r.states[t], client, choice).Go?
    decreases t
  {
    hide Next, Safe, OwnUndo, Respond;
    RunSeparate(code, r, t);
    if t > 0 {
      RunIsSafe(code, r, t - 1);
      RunNext(code, r, t - 1, t);
      SafeStep(code, r.states[t - 1], r.events[t - 1], r.states[t]);
    }
    forall client, choice ensures Respond(r.states[t], client, choice).Go? {
      SafeAnswers(r.states[t], client, choice);
    }
  }

  // ---------- cut ----------

  ghost predicate Ids(v: seq<View>, keep: int, from: int) {
    forall a :: 0 <= a < |v| ==> v[a].id == keep || v[a].id >= from
  }

  lemma IdsKept(kind: Change, v: seq<View>, v': seq<View>, keep: int, from: int)
    requires Ids(v, keep, from) && Changes(kind, v, v') && (kind == Suspended ==> Last(v').id >= from)
    ensures Ids(v', keep, from)
  {
    forall a | 0 <= a < |v'| ensures v'[a].id == keep || v'[a].id >= from {
      match kind
      case Same =>
      case Worked => if a < |v| - 1 { assert v'[a] == Init(v')[a]; }
      case Suspended => if a < |v| { assert v'[a] == v'[..|v|][a]; }
      case WasCut =>
      case Undone => assert a < |v| - 3 ==> v'[a] == v[..|v| - 3][a];
    }
  }

  lemma CloneIsNew(code: Program, s: State, e: Event, s': State, i: int, i': int)
    requires Separate(s) && Next(code, s, e, s') && SameFiber(s, i, s', i') && Kind(code, s, e, i) == Suspended
    ensures Views(s', i') != [] && Last(Views(s', i')).id == s.maxId
  {
    StepCode(code, s, i);
    hide Step, Separate, Views;
    SuspendViews(code, s, i, s', i, i');
  }

  lemma EndKeepsMaxId(code: Program, s: State, k: int, s': State)
    requires HasContext(s, k) && Step(code, s, k) == Ended(s')
    ensures s'.maxId == s.maxId
  {}

  lemma MaxIdGrows(code: Program, s: State, e: Event, s': State)
    requires Separate(s) && Next(code, s, e, s')
    ensures s.maxId <= s'.maxId
  {
    hide Separate, Step;
    match e
    case StepFiber(k) =>
      CurrentOf(s, k, k);
      StepFibers(code, s, k);
      if Step(code, s, k).Ended? { EndKeepsMaxId(code, s, k, s'); }
    case Answer(_, _) =>
    case RawAnswer(_, _) =>
  }

  /** From a cut on, the only context from before it that a fiber has is the one that was current then. */
  lemma {:induction false} NothingBeforeCut(code: Program, r: Run, c: nat, t: nat, k: int, i: int)
    requires IsRun(code, r) && c < t <= |r.events| && r.events[c] == StepFiber(k)
    requires 0 <= k < |r.states[c].fibers| && 0 <= i < |r.states[t].fibers|
    requires r.states[t].fibers[i].id == r.states[c].fibers[k].id
    requires HasContext(r.states[c], k) && code(Current(r.states[c], k).pc).Cut?
    ensures Ids(Views(r.states[t], i), Current(r.states[c], k).id, r.states[c].maxId)
    ensures r.states[c].maxId <= r.states[t].maxId
    ensures forall a :: 0 <= a < |r.states[c].fibers[k].contexts| - 1 ==>
              r.states[c].fibers[k].contexts[a].id < r.states[c].maxId
    decreases t
  {
    hide Separate, Next, Views, Kind, Changes, Ids;
    var keep, from := Current(r.states[c], k).id, r.states[c].maxId;
    var s, e, s' := r.states[t - 1], r.events[t - 1], r.states[t];
    RunSeparate(code, r, c);
    RunSeparate(code, r, t - 1);
    assert Next(code, s, e, s');
    MaxIdGrows(code, s, e, s');
    OldIds(r.states[c], k);
    if t > c + 1 { MaxIdSince(code, r, c, t - 1); }
    NewFiberIsFresh(code, s, e, s', i);
    var j :| SameFiber(s, j, s', i);
    ViewStep(code, s, e, s', j, i);
    if t == c + 1 {
      OneIndex(s, k, j);
      CutKind(code, s, k);
      CutIds(Views(s, j), Views(s', i), keep, from);
    } else {
      NothingBeforeCut(code, r, c, t - 1, k, j);
      if Kind(code, s, e, j) == Suspended { CloneIsNew(code, s, e, s', j, i); }
      IdsKept(Kind(code, s, e, j), Views(s, j), Views(s', i), keep, from);
    }
  }

  lemma MaxIdNext(code: Program, r: Run, t: nat, u: nat)
    requires IsRun(code, r) && u == t + 1 && u <= |r.events|
    ensures |r.states| == |r.events| + 1 && r.states[t].maxId <= r.states[u].maxId
  {
    RunNext(code, r, t, u);
    hide *;
    MaxIdGrows(code, r.states[t], r.events[t], r.states[u]);
  }

  lemma {:induction false} MaxIdSince(code: Program, r: Run, c: nat, t: nat)
    requires |r.states| == |r.events| + 1 && IsRun(code, r) && c <= t <= |r.events|
    ensures r.states[c].maxId <= r.states[t].maxId
    decreases t
  {
    hide *;
    if c < t {
      MaxIdSince(code, r, c, t - 1);
      MaxIdNext(code, r, t - 1, t);
    }
  }

  lemma OldIds(s: State, k: int)
    requires Separate(s) && 0 <= k < |s.fibers|
    ensures s.fibers[k].id < s.maxId
    ensures forall a :: 0 <= a < |s.fibers[k].contexts| ==> s.fibers[k].contexts[a].id < s.maxId
  {}

  lemma CutKind(code: Program, s: State, k: int)
    requires HasContext(s, k) && code(Current(s, k).pc).Cut?
    ensures Kind(code, s, StepFiber(k), k) == WasCut
    ensures Views(s, k) != [] && Last(Views(s, k)).id == Current(s, k).id
  {}

  lemma CutIds(v: seq<View>, v': seq<View>, keep: int, from: int)
    requires Changes(WasCut, v, v') && Last(v).id == keep
    ensures Ids(v', keep, from)
  {}
}
