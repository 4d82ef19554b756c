/** Scheduling (vm/vm.c): the identity of fibers through a round, and fork and join. */
module VmSchedule {
  import opened Commons
  import opened VmSpec
  import opened VmRuns
  import opened VmUndo
  import opened VmScopes
  import opened VmCalls
  import opened VmSafety

  // ---------- a round ----------

  function IdsOf(fibers: seq<Fiber>): (r: seq<int>)
    ensures |r| == |fibers|
    ensures forall k :: 0 <= k < |r| ==> r[k] == fibers[k].id
  {
    seq(|fibers|, k requires 0 <= k < |fibers| => fibers[k].id)
  }

  /** Where a round stands: the fibers visited so far and those still in front are, in this order, the
      fibers of the start of the round and then newer ones, all different; enough turns are left. */
  ghost predicate InRound(s: State, start: seq<int>, visited: seq<int>, i: int, count: int) {
    && 0 <= i <= count <= |s.fibers| && Separate(s)
    && InOrder(start, visited + IdsOf(s.fibers[i..]), s.maxId)
    && |start| - |visited| <= count - i
  }

  ghost predicate InOrder(start: seq<int>, all: seq<int>, maxId: int) {
    start <= all && Distinct(all) && forall a :: 0 <= a < |all| ==> all[a] < maxId
  }

  lemma RoundStarts(s: State)
    requires Separate(s)
    ensures InRound(s, IdsOf(s.fibers), [], 0, |s.fibers|)
  {
    assert s.fibers[0..] == s.fibers;
    assert [] + IdsOf(s.fibers) == IdsOf(s.fibers);
  }

  lemma RoundSeparate(s: State, start: seq<int>, visited: seq<int>, i: int, count: int)
    requires InRound(s, start, visited, i, count)
    ensures 0 <= i <= count <= |s.fibers| && Separate(s)
    ensures i < count ==> HasContext(s, i)
  {
    if i < count { CurrentOf(s, i, i); }
  }

  lemma RoundEnds(s: State, start: seq<int>, visited: seq<int>, i: int, count: int)
    requires InRound(s, start, visited, i, count) && i == count
    ensures start <= visited && Distinct(visited)
  {
    var all := visited + IdsOf(s.fibers[i..]);
    assert visited == all[..|visited|];
    assert start == all[..|start|];
    assert forall a :: 0 <= a < |visited| ==> visited[a] == all[a];
  }

  /** The fiber in front is visited without ending. */
  lemma RoundNext(s: State, start: seq<int>, visited: seq<int>, i: int, count: int)
    requires InRound(s, start, visited, i, count) && i < count
    ensures InRound(s, start, visited + [s.fibers[i].id], i + 1, count)
  {
    hide InOrder, Separate, IdsOf;
    FirstId(s.fibers, i);
    IdsJoined(visited, [s.fibers[i].id], IdsOf(s.fibers[i + 1..]));
  }

  lemma FirstId(fibers: seq<Fiber>, i: int)
    requires 0 <= i < |fibers|
    ensures IdsOf(fibers[i..]) == [fibers[i].id] + IdsOf(fibers[i + 1..])
  {
    var l, r := IdsOf(fibers[i..]), [fibers[i].id] + IdsOf(fibers[i + 1..]);
    assert forall a :: 0 <= a < |l| ==> l[a] == fibers[i + a].id;
    assert forall a :: 0 < a < |r| ==> r[a] == fibers[i + 1..][a - 1].id;
  }

  lemma IdsJoined(a: seq<int>, b: seq<int>, c: seq<int>)
    ensures a + (b + c) == a + b + c
  {}

  /** A step of the fiber in front that does not end it may add fibers at the end. */
  lemma RoundStep(code: Program, s: State, s': State, start: seq<int>, visited: seq<int>, i: int, count: int)
    requires InRound(s, start, visited, i, count) && i < count
    requires Step(code, s, i) == Go(s') || Step(code, s, i) == Wait(s')
    requires Separate(s')
    ensures InRound(s', start, visited, i, count)
  {
    CurrentOf(s, i, i);
    StepFibers(code, s, i);
    hide Step, CellsDistinct;
    var all, all' := visited + IdsOf(s.fibers[i..]), visited + IdsOf(s'.fibers[i..]);
    forall a | 0 <= a < |all| ensures all'[a] == all[a] {
      if a >= |visited| { assert IdsOf(s.fibers[i..])[a - |visited|] == s.fibers[a - |visited| + i].id; }
    }
    assert all <= all';
    forall a, b | 0 <= a < b < |all'| ensures all'[a] != all'[b] {
      if b >= |all| {
        assert all'[b] == s'.fibers[b - |visited| + i].id;
        if a >= |visited| { assert all'[a] == s'.fibers[a - |visited| + i].id; } else { assert all'[a] == all[a]; }
      } else {
        assert all'[a] == all[a] && all'[b] == all[b];
      }
    }
  }

  /** The fiber in front ends: it is visited, and the next one takes its place. */
  lemma RoundEnd(code: Program, s: State, s': State, start: seq<int>, visited: seq<int>, i: int, count: int)
    requires InRound(s, start, visited, i, count) && i < count
    requires Step(code, s, i) == Ended(s') && Separate(s')
    ensures InRound(s', start, visited + [s.fibers[i].id], i, |s'.fibers|)
  {
    CurrentOf(s, i, i);
    hide Step, Separate, IdsOf, InOrder;
    EndedFibers(code, s, i, s');
    EndKeepsMaxId(code, s, i, s');
    FirstId(s.fibers, i);
    TailIds(s.fibers, s'.fibers, i);
    IdsJoined(visited, [s.fibers[i].id], IdsOf(s.fibers[i + 1..]));
  }

  lemma TailIds(fibers: seq<Fiber>, fibers': seq<Fiber>, i: int)
    requires |fibers'| == |fibers| - 1 && 0 <= i < |fibers|
    requires forall j :: i <= j < |fibers'| ==> fibers'[j].id == fibers[j + 1].id
    ensures IdsOf(fibers'[i..]) == IdsOf(fibers[i + 1..])
  {
    var l, r := IdsOf(fibers'[i..]), IdsOf(fibers[i + 1..]);
    assert forall a :: 0 <= a < |l| ==> l[a] == fibers'[i + a].id && r[a] == fibers[i + 1 + a].id;
  }

  // ---------- a round as a run ----------

  ghost predicate RunTo(code: Program, r: Run, s: State) {
    IsRun(code, r) && Last(r.states) == s
  }

  ghost function OneMore(r: Run, e: Event, s: State): Run {
    Run(r.states + [s], r.events + [e])
  }

  lemma ExtendRun(code: Program, r: Run, s: State, e: Event, s': State)
    requires RunTo(code, r, s) && Next(code, s, e, s')
    ensures RunTo(code, OneMore(r, e, s'), s')
  {
    hide Next, Separate;
    var r' := OneMore(r, e, s');
    forall t, u | 0 <= t < u <= |r'.events| && u == t + 1 ensures Next(code, r'.states[t], r'.events[t], r'.states[u]) {
      if t < |r.events| { assert Next(code, r.states[t], r.events[t], r.states[u]); }
    }
  }

  /** Fiber i is about to execute an instruction that has a breakpoint. */
  ghost predicate AtBreakpoint(s: State, i: int, stops: set<int>) {
    HasContext(s, i) && Current(s, i).pc + 1 in stops
  }

  /** The events of r from position `from` on are steps of one fiber, the one with this id; there are some
      if and only if the fiber could run.  They stop where it waits, ends or meets a breakpoint, and not before. */
  ghost predicate IsTurn(r: Run, from: nat, to: nat, id: int, stops: set<int>) {
    && |r.states| == |r.events| + 1 && from <= to <= |r.events|
    && exists i :: IsTurnOf(r, from, to, id, i, stops)
  }

  ghost predicate IsTurnOf(r: Run, from: nat, to: nat, id: int, i: int, stops: set<int>)
    requires |r.states| == |r.events| + 1 && from <= to <= |r.events|
  {
    && 0 <= i < |r.states[from].fibers| && r.states[from].fibers[i].id == id
    && (r.states[from].fibers[i].awaiting == Nothing <==> from < to)
    && (forall t :: from <= t < to ==> r.events[t] == StepFiber(i))
    && (forall t :: from < t < to ==> !AtBreakpoint(r.states[t], i, stops))
    && (from < to ==> StopsHere(r.states[to - 1], r.states[to], i, stops))
  }

  /** With this step fiber i ended, waits or met a breakpoint. */
  ghost predicate StopsHere(s: State, s': State, i: int, stops: set<int>) {
    || |s'.fibers| < |s.fibers| || (0 <= i < |s'.fibers| && s'.fibers[i].awaiting != Nothing)
    || AtBreakpoint(s', i, stops)
  }

  /** The run consists of one turn for each visited fiber, in this order. */
  ghost predicate Turns(r: Run, marks: seq<nat>, visited: seq<int>, stops: set<int>) {
    && |marks| == |visited| + 1 && marks[0] == 0 && Last(marks) == |r.events|
    && forall k, l :: 0 <= k < |visited| && l == k + 1 ==> IsTurn(r, marks[k], marks[l], visited[k], stops)
  }

  ghost predicate Continues(r: Run, r': Run) {
    |r.states| == |r.events| + 1 && |r'.states| == |r'.events| + 1 && r.states <= r'.states && r.events <= r'.events
  }

  lemma AddTurn(r: Run, r': Run, marks: seq<nat>, visited: seq<int>, id: int, stops: set<int>)
    requires Turns(r, marks, visited, stops) && Continues(r, r') && IsTurn(r', |r.events|, |r'.events|, id, stops)
    ensures Turns(r', marks + [|r'.events|], visited + [id], stops)
  {
    var marks', visited' := marks + [|r'.events|], visited + [id];
    forall k, l | 0 <= k < |visited'| && l == k + 1 ensures IsTurn(r', marks'[k], marks'[l], visited'[k], stops) {
      if k < |visited| { TurnStays(r, r', marks[k], marks[l], visited[k], stops); }
    }
  }

  lemma EmptyRun(code: Program, s: State, stops: set<int>)
    requires Separate(s)
    ensures RunTo(code, Run([s], []), s) && Turns(Run([s], []), [0], [], stops)
  {}

  lemma NoTurn(code: Program, r: Run, s: State, i: int, stops: set<int>)
    requires RunTo(code, r, s) && 0 <= i < |s.fibers| && s.fibers[i].awaiting != Nothing
    ensures Continues(r, r) && IsTurn(r, |r.events|, |r.events|, s.fibers[i].id, stops)
  {
    assert IsTurnOf(r, |r.events|, |r.events|, s.fibers[i].id, i, stops);
  }

  /** The run r is r0 and then steps of fiber i, up to state now; after the first, none was made at a breakpoint. */
  ghost predicate InTurn(code: Program, r0: Run, r: Run, now: State, i: int, stops: set<int>) {
    && RunTo(code, r, now) && Continues(r0, r)
    && (forall t :: |r0.events| <= t < |r.events| ==> r.events[t] == StepFiber(i))
    && (forall t :: |r0.events| < t < |r.events| ==> !AtBreakpoint(r.states[t], i, stops))
  }

  lemma TurnStarts(code: Program, r0: Run, now: State, i: int, stops: set<int>)
    requires RunTo(code, r0, now) && |r0.states| == |r0.events| + 1
    ensures InTurn(code, r0, r0, now, i, stops)
  {}

  lemma TurnGoesOn(code: Program, r0: Run, r: Run, now: State, i: int, stops: set<int>, s': State)
    requires InTurn(code, r0, r, now, i, stops) && Next(code, now, StepFiber(i), s')
    requires |r0.events| < |r.events| ==> !AtBreakpoint(now, i, stops)
    ensures var r' := OneMore(r, StepFiber(i), s');
            && InTurn(code, r0, r', s', i, stops) && |r'.events| == |r.events| + 1 && |r0.events| <= |r.events|
            && r'.states[|r.events|] == now
  {
    hide Next, AtBreakpoint;
    ExtendRun(code, r, now, StepFiber(i), s');
  }

  lemma TurnDone(code: Program, r0: Run, r: Run, s0: State, now: State, i: int, stops: set<int>)
    requires RunTo(code, r0, s0) && InTurn(code, r0, r, now, i, stops) && |r0.events| < |r.events|
    requires 0 <= i < |s0.fibers| && s0.fibers[i].awaiting == Nothing
    requires StopsHere(r.states[|r.events| - 1], now, i, stops)
    ensures IsTurn(r, |r0.events|, |r.events|, s0.fibers[i].id, stops) && RunTo(code, r, now)
  {
    hide AtBreakpoint, StopsHere, Next;
    assert r.states[|r0.events|] == r0.states[|r0.events|];
    assert IsTurnOf(r, |r0.events|, |r.events|, s0.fibers[i].id, i, stops);
  }

  lemma TurnParts(code: Program, r0: Run, r: Run, now: State, i: int, stops: set<int>)
    requires InTurn(code, r0, r, now, i, stops)
    ensures RunTo(code, r, now) && IsRun(code, r) && Continues(r0, r) && |r.states| == |r.events| + 1
    ensures |r0.events| <= |r.events| && Last(r.states) == now
    ensures forall t :: |r0.events| <= t < |r.events| ==> r.events[t] == StepFiber(i)
    ensures forall t :: |r0.events| < t < |r.events| ==> !AtBreakpoint(r.states[t], i, stops)
  {
    hide Next, AtBreakpoint;
  }

  lemma EndedFewer(code: Program, s: State, i: int, s': State)
    requires HasContext(s, i) && Step(code, s, i) == Ended(s')
    ensures |s'.fibers| < |s.fibers|
  {
    hide *;
    EndedFibers(code, s, i, s');
  }

  lemma IsRunTo(code: Program, r: Run, s: State)
    requires RunTo(code, r, s)
    ensures IsRun(code, r) && Last(r.states) == s
  {}

  /** Why a round stops before its end: there is no step left, the next step of the fiber in front dies, or
      it ends the game, which leaves no fibers. */
  ghost predicate Stopped(code: Program, r: Run, front: int, left: int, now: State) {
    && r.states != []
    && var o := Step(code, Last(r.states), front);
       || (left == 0 && now == Last(r.states))
       || o.Crash?
       || (o.Over? && now == o.s.(gameOver := true, fibers := []))
  }

  lemma StoppedByBudget(code: Program, r: Run, front: int, now: State)
    requires RunTo(code, r, now)
    ensures Stopped(code, r, front, 0, now)
  {
    hide Step;
  }

  lemma StoppedByStep(code: Program, r: Run, front: int, s: State, left: int, o: Outcome, now: State)
    requires RunTo(code, r, s) && Step(code, s, front) == o
    requires o.Crash? || (o.Over? && now == o.s.(gameOver := true, fibers := []))
    ensures Stopped(code, r, front, left, now)
  {
    hide Step;
  }

  /** The run consists of one turn for each visited fiber and then of some steps of the fiber in front. */
  ghost predicate Unfinished(r: Run, marks: seq<nat>, visited: seq<int>, front: int, stops: set<int>) {
    && |r.states| == |r.events| + 1 && |marks| == |visited| + 1 && marks[0] == 0 && Last(marks) <= |r.events|
    && (forall k, l :: 0 <= k < |visited| && l == k + 1 ==> IsTurn(r, marks[k], marks[l], visited[k], stops))
    && (forall t :: Last(marks) <= t < |r.events| ==> r.events[t] == StepFiber(front))
    && forall t :: Last(marks) < t < |r.events| ==> !AtBreakpoint(r.states[t], front, stops)
  }

  lemma TurnBreaksOff(r: Run, r': Run, marks: seq<nat>, visited: seq<int>, front: int, stops: set<int>)
    requires Turns(r, marks, visited, stops) && Continues(r, r')
    requires forall t :: |r.events| <= t < |r'.events| ==> r'.events[t] == StepFiber(front)
    requires forall t :: |r.events| < t < |r'.events| ==> !AtBreakpoint(r'.states[t], front, stops)
    ensures Unfinished(r', marks, visited, front, stops)
  {
    forall k, l | 0 <= k < |visited| && l == k + 1 ensures IsTurn(r', marks[k], marks[l], visited[k], stops) {
      TurnStays(r, r', marks[k], marks[l], visited[k], stops);
    }
  }

  lemma TurnStays(r: Run, r': Run, from: nat, to: nat, id: int, stops: set<int>)
    requires IsTurn(r, from, to, id, stops) && Continues(r, r')
    ensures IsTurn(r', from, to, id, stops)
  {
    var i :| IsTurnOf(r, from, to, id, i, stops);
    assert forall t :: 0 <= t < |r.states| ==> r.states[t] == r'.states[t];
    assert IsTurnOf(r', from, to, id, i, stops);
  }

  /** A step that lets a fiber go on leaves it running. */
  lemma GoKeepsRunning(code: Program, s: State, i: int)
    requires HasContext(s, i) && s.fibers[i].awaiting == Nothing
    ensures var o := Step(code, s, i);
            && (o.Go? ==> i < |o.s.fibers| && o.s.fibers[i].awaiting == Nothing)
            && (o.Wait? ==> i < |o.s.fibers| && o.s.fibers[i].awaiting != Nothing)
  {
    hide *;
    var pc := Current(s, i).pc;
    var s1 := WithPc(s, i, pc + Size(code(pc)));
    StepIsExec(code, s, i);
    FetchKeeps(s, i, pc + Size(code(pc)));
    ExecKeepsRunning(s1, i, code(pc));
  }

  lemma ExecKeepsRunning(s: State, i: int, instr: Instr)
    requires HasContext(s, i) && s.fibers[i].awaiting == Nothing
    ensures var o := Exec(s, i, instr);
            && (o.Go? ==> i < |o.s.fibers| && o.s.fibers[i].awaiting == Nothing)
            && (o.Wait? ==> i < |o.s.fibers| && o.s.fibers[i].awaiting != Nothing)
  {
    hide Unwind, LoadVar, ReplaceVar, Owner, Choices;
  }

  // ---------- fork and join ----------

  /** The operands of a fork, and the function it gives to the new fiber. */
  ghost predicate Forks(s: State, arg: Val, f: Func, rest: seq<Val>) {
    && HasContext(s, 0)
    && var stack := CurrentCell(s, 0).stack;
       && |stack| >= 2 && rest == stack[..|stack| - 2] && arg == Last(stack)
       && stack[|stack| - 2].Fun? && 0 <= stack[|stack| - 2].f < |s.funcs| && f == s.funcs[stack[|stack| - 2].f]
  }

  lemma ForkOperands(code: Program, s: State, s': State) returns (arg: Val, f: Func, rest: seq<Val>)
    requires HasContext(s, 0) && code(Current(s, 0).pc).Fork? && Step(code, s, 0) == Go(s')
    ensures Forks(s, arg, f, rest) && |s.fibers[0].contexts| == 1
  {
    var stack := CurrentCell(s, 0).stack;
    arg, f, rest := Last(stack), s.funcs[stack[|stack| - 2].f], stack[..|stack| - 2];
  }

  /** What fork leaves of the parts of the state. */
  lemma ForkParts(code: Program, s: State, s': State, arg: Val, f: Func, rest: seq<Val>)
    requires HasContext(s, 0) && code(Current(s, 0).pc).Fork? && Step(code, s, 0) == Go(s') && Forks(s, arg, f, rest)
    ensures var n, m, c := |s.fibers|, |s.scopes|, Current(s, 0);
            && |s'.fibers| == n + 1 && |s'.cells| == |s.cells| + 1
            && s'.fibers[n] == Fiber(s.maxId, [Context(s.maxId + 1, f.address, |s.cells|)], Nothing, Int(0), map[])
            && s'.fibers[0].contexts == [c.(pc := c.pc + 1)]
            && (forall i :: 0 < i < n ==> s'.fibers[i] == s.fibers[i])
            && s'.cells == s.cells[c.cell := s.cells[c.cell].(stack := rest)] + [Cell([arg], [m, m + 1])]
            && s'.scopes == s.scopes + [Scope(map[], 0, NO_SCOPE, false), Scope(map[], f.address, f.closure, true)]
  {}

  /** fork: a new fiber, with an id, a stack and scopes that nothing else has, is about to run the function
      with the argument as its only value.  It sees exactly the variables that the function closes over, and
      if it returned at once, that would end it.  The root goes on behind the fork without the two operands,
      and no other fiber notices. */
  lemma ForkStarts(code: Program, s: State, s': State) returns (arg: Val, f: Func, rest: seq<Val>)
    requires Separate(s) && HasContext(s, 0) && code(Current(s, 0).pc).Fork? && Step(code, s, 0) == Go(s')
    ensures Forks(s, arg, f, rest) && Separate(s') && |s'.fibers| == |s.fibers| + 1
    ensures var n, m := |s.fibers|, |s.scopes|;
            && s'.fibers[n].awaiting == Nothing
            && Views(s', n) == [View(s.maxId + 1, f.address, [arg], [m, m + 1])]
            && (f.closure < m ==> forall key :: LoadVar(s'.scopes, m + 1, key) == LoadVar(s.scopes, f.closure, key))
            && (f.address != 0 ==> Exec(s', n, Ret).Ended?)
    ensures Views(s', 0) == [Views(s, 0)[0].(pc := Current(s, 0).pc + 1, stack := rest)]
    ensures forall i :: 0 < i < |s.fibers| ==> s'.fibers[i] == s.fibers[i] && Views(s', i) == Views(s, i)
  {
    arg, f, rest := ForkOperands(code, s, s');
    ForkParts(code, s, s', arg, f, rest);
    StepSeparate(code, s, 0);
    hide Step, Exec, Separate, Owner;
    var n := |s.fibers|;
    CellsApart(s);
    RetEndsForked(s', n, |s.scopes|);
    forall key | f.closure < |s.scopes|
      ensures LoadVar(s'.scopes, |s.scopes| + 1, key) == LoadVar(s.scopes, f.closure, key)
    {
      EntrySees(s.scopes, Scope(map[], 0, NO_SCOPE, false), Scope(map[], f.address, f.closure, true), key);
    }
  }

  /** No other fiber uses the root's current stack. */
  lemma CellsApart(s: State)
    requires Separate(s) && HasContext(s, 0)
    ensures forall i, a :: 0 < i < |s.fibers| && 0 <= a < |s.fibers[i].contexts| ==>
              0 <= s.fibers[i].contexts[a].cell < |s.cells| && s.fibers[i].contexts[a].cell != Current(s, 0).cell
  {}

  lemma RetEndsForked(s: State, n: int, m: nat)
    requires HasContext(s, n) && CurrentCell(s, n).scopes == [m, m + 1] && m + 1 < |s.scopes|
    ensures s.scopes[m + 1].isFiber && s.scopes[m + 1].returnAddress != 0 ==> Exec(s, n, Ret).Ended?
  {
    assert Last([m, m + 1]) == m + 1;
  }

  /** An entry scope binds nothing itself. */
  lemma EntrySees(scopes: seq<Scope>, base: Scope, entry: Scope, key: string)
    requires entry.locals == map[] && entry.closure < |scopes|
    ensures LoadVar(scopes + [base, entry], |scopes| + 1, key) == LoadVar(scopes, entry.closure, key)
  {
    var all := scopes + [base, entry];
    assert all == scopes + [base] + [entry] && all[|scopes| + 1] == entry;
    NewScopeKeepsLoads(scopes, base, entry.closure, key);
    NewScopeKeepsLoads(scopes + [base], entry, entry.closure, key);
    OwnerOfEntry(all, |scopes| + 1, key);
  }

  lemma OwnerOfEntry(scopes: seq<Scope>, id: int, key: string)
    requires 0 <= id < |scopes| && scopes[id].locals == map[] && scopes[id].closure < id
    ensures Owner(scopes, id, key) == Owner(scopes, scopes[id].closure, key)
  {}

  /** A root that waits in join has another fiber. */
  ghost predicate JoinSafe(s: State) {
    s.fibers != [] && (s.fibers[0].awaiting == Join ==> |s.fibers| >= 2)
      && forall i :: 0 < i < |s.fibers| ==> s.fibers[i].awaiting != Join
  }

  /** Join runs only while there are other fibers. */
  ghost predicate JoinsOthers(code: Program, s: State, e: Event) {
    e.StepFiber? && HasContext(s, e.index) && code(Current(s, e.index).pc).JoinFibers? ==> |s.fibers| >= 2
  }

  /** The root's scopes are not fiber entry points, so the root never ends as a fiber. */
  ghost predicate RootPlain(s: State) {
    s.fibers != [] && forall a :: 0 <= a < |Views(s, 0)| ==> PlainList(s.scopes, Views(s, 0)[a].scopes)
  }

  ghost predicate PlainList(scopes: seq<Scope>, list: seq<int>) {
    forall b :: 0 <= b < |list| ==> 0 <= list[b] < |scopes| && !scopes[list[b]].isFiber
  }

  lemma ExtendPlain(scopes: seq<Scope>, scopes': seq<Scope>, list: seq<int>)
    requires PlainList(scopes, list) && Extends(scopes, scopes')
    ensures PlainList(scopes', list)
  {}

  lemma TopPlain(scopes: seq<Scope>, scopes': seq<Scope>, instr: Instr, pc: int, list: seq<int>, pc': int,
                 list': seq<int>)
    requires PlainList(scopes, list) && Extends(scopes, scopes')
             && TopMoves(scopes, scopes', instr, pc, list, pc', list')
    ensures PlainList(scopes', list')
  {}

  lemma RootDoesNotEnd(code: Program, s: State)
    requires RootPlain(s) && HasContext(s, 0)
    ensures !Step(code, s, 0).Ended?
  {
    var pc := Current(s, 0).pc;
    var s1 := WithPc(s, 0, pc + Size(code(pc)));
    TopIsCurrent(s, 0);
    assert PlainList(s.scopes, CurrentCell(s, 0).scopes);
    FetchKeeps(s, 0, pc + Size(code(pc)));
    StepIsExec(code, s, 0);
    hide WithPc, Views, Step;
    PlainDoesNotEnd(s1, code(pc));
  }

  lemma PlainDoesNotEnd(s: State, instr: Instr)
    requires HasContext(s, 0) && PlainList(s.scopes, CurrentCell(s, 0).scopes)
    ensures !Exec(s, 0, instr).Ended?
  {
    if instr.Ret? {
      var list := CurrentCell(s, 0).scopes;
      var p := Unwind(s.scopes, list);
      if p.Some? { assert !s.scopes[list[p.value]].isFiber; }
    }
  }

  lemma RootIndex(code: Program, s: State, e: Event, s': State)
    requires Separate(s) && RootPlain(s) && Next(code, s, e, s')
    ensures s.fibers != [] && SameFiber(s, 0, s', 0)
  {
    match e
    case StepFiber(k) =>
      if k == 0 { RootDoesNotEnd(code, s); }
      CurrentOf(s, k, 0);
      if Step(code, s, k).Ended? { EndedFibers(code, s, k, s'); } else { StepFibers(code, s, k); }
    case Answer(_, _) =>
    case RawAnswer(_, _) =>
  }

  lemma RootPlainStep(code: Program, s: State, e: Event, s': State)
    requires Separate(s) && RootPlain(s) && Next(code, s, e, s')
    ensures RootPlain(s')
  {
    hide Next, Separate, Step, Extends, PlainList;
    RootIndex(code, s, e, s');
    NextExtends(code, s, e, s');
    ViewStep(code, s, e, s', 0, 0);
    SeparateStep(code, s, e, s');
    CurrentOf(s, 0, 0);
    CurrentOf(s', 0, 0);
    RootTop(code, s, e, s');
    var v, v', kind := Views(s, 0), Views(s', 0), Kind(code, s, e, 0);
    forall a | 0 <= a < |v'| ensures PlainList(s'.scopes, v'[a].scopes) {
      var b := OldView(kind, v, v', a);
      if b < |v| {
        ExtendPlain(s.scopes, s'.scopes, v[b].scopes);
      }
    }
  }

  /** Every context but the top one has the scopes of an old one. */
  lemma OldView(kind: Change, v: seq<View>, v': seq<View>, a: int) returns (b: nat)
    requires Changes(kind, v, v') && 0 <= a < |v'|
    ensures b < |v| ==> v'[a].scopes == v[b].scopes
    ensures b >= |v| ==> kind == Worked && a == |v'| - 1
  {
    match kind
    case Same => b := a;
    case Worked => b := if a == |v'| - 1 then |v| else a; if b < |v| { assert v'[a] == Init(v')[a]; }
    case Suspended => b := if a < |v| then a else |v| - 1; if a < |v| { assert v'[a] == v'[..|v|][a]; }
    case WasCut => b := |v| - 1;
    case Undone => b := a; if a < |v| - 3 { assert v'[a] == v[..|v| - 3][a]; }
  }

  lemma RootTop(code: Program, s: State, e: Event, s': State)
    requires Separate(s) && RootPlain(s) && Next(code, s, e, s') && SameFiber(s, 0, s', 0) && HasContext(s, 0)
             && HasContext(s', 0)
    requires Extends(s.scopes, s'.scopes)
    ensures Kind(code, s, e, 0) == Worked ==> PlainList(s'.scopes, Last(Views(s', 0)).scopes)
  {
    TopIsCurrent(s, 0);
    TopIsCurrent(s', 0);
    if e == StepFiber(0) {
      RootDoesNotEnd(code, s);
      StepTop(code, s, 0);
      var pc := Current(s, 0).pc;
      TopPlain(s.scopes, s'.scopes, code(pc), pc, CurrentCell(s, 0).scopes, Current(s', 0).pc,
               CurrentCell(s', 0).scopes);
    } else if Kind(code, s, e, 0) == Worked {
      hide Next, Separate, Views, Kind;
      var i' := OtherTop(code, s, e, s', 0);
      SeparateStep(code, s, e, s');
      OneRoot(s, s', i');
      ExtendPlain(s.scopes, s'.scopes, Top(s, 0).scopes);
    }
  }

  lemma OneRoot(s: State, s': State, i': int)
    requires Separate(s') && SameFiber(s, 0, s', 0) && SameFiber(s, 0, s', i')
    ensures i' == 0
  {}

  lemma JoinExec(s: State, fi: int, instr: Instr)
    requires JoinSafe(s) && HasContext(s, fi) && s.fibers[fi].awaiting == Nothing
             && (instr.JoinFibers? ==> |s.fibers| >= 2)
    requires fi == 0 ==> !Exec(s, fi, instr).Ended?
    ensures var o := Exec(s, fi, instr); o.Go? || o.Wait? || o.Ended? ==> JoinSafe(o.s)
  {
    ExecAwaiting(s, fi, instr);
    var o := Exec(s, fi, instr);
    if o.Ended? { EndAwaiting(s, fi, instr); }
    hide Exec;
  }

  /** Only the fiber's own instruction makes it await something, and only join makes it await the others. */
  lemma ExecAwaiting(s: State, fi: int, instr: Instr)
    requires HasContext(s, fi) && s.fibers[fi].awaiting == Nothing
    ensures var o := Exec(s, fi, instr);
            o.Go? || o.Wait? ==>
              && |s.fibers| <= |o.s.fibers|
              && (forall j :: 0 <= j < |s.fibers| && j != fi ==> o.s.fibers[j].awaiting == s.fibers[j].awaiting)
              && (forall j :: |s.fibers| <= j < |o.s.fibers| ==> o.s.fibers[j].awaiting == Nothing)
              && (o.s.fibers[fi].awaiting == Join ==> fi == 0 && instr.JoinFibers?)
  {
    hide ExecRet, ExecSuspend, ExecFork, LoadVar, ReplaceVar, Owner;
    match instr
    case Ret => RetAwaiting(s, fi);
    case Suspend => SuspendAwaiting(s, fi);
    case Fork => ForkAwaiting(s, fi);
    case _ =>
  }

  lemma RetAwaiting(s: State, fi: int)
    requires HasContext(s, fi)
    ensures var o := ExecRet(s, fi);
            !o.Wait? && (o.Go? ==> |o.s.fibers| == |s.fibers|
                                   && forall j :: 0 <= j < |s.fibers| ==>
                                     o.s.fibers[j].awaiting == s.fibers[j].awaiting)
  {
    hide Unwind;
  }

  lemma SuspendAwaiting(s: State, fi: int)
    requires HasContext(s, fi)
    ensures var o := ExecSuspend(s, fi);
            !o.Go? && (o.Wait? ==> |o.s.fibers| == |s.fibers| && o.s.fibers[fi].awaiting == Choice
                                   && forall j :: 0 <= j < |s.fibers| && j != fi ==> o.s.fibers[j] == s.fibers[j])
  {
    hide Choices;
  }

  lemma ForkAwaiting(s: State, fi: int)
    requires HasContext(s, fi)
    ensures var o := ExecFork(s, fi);
            !o.Wait? && (o.Go? ==> |o.s.fibers| == |s.fibers| + 1 && o.s.fibers[|s.fibers|].awaiting == Nothing
                                   && forall j :: 0 <= j < |s.fibers| ==> o.s.fibers[j] == s.fibers[j])
  {}

  lemma EndAwaiting(s: State, fi: int, instr: Instr)
    requires HasContext(s, fi) && Exec(s, fi, instr).Ended?
    ensures var fibers := Exec(s, fi, instr).s.fibers;
            && |fibers| == |s.fibers| - 1
            && if |fibers| == 1 then fibers[0].awaiting == Nothing
               else forall j :: 0 <= j < |fibers| ==>
                 fibers[j].awaiting == s.fibers[if j < fi then j else j + 1].awaiting
  {
    hide ExecRet;
    EndsByRet(s, fi, instr);
    EndedByRet(s, fi);
  }

  lemma EndedByRet(s: State, fi: int)
    requires HasContext(s, fi) && ExecRet(s, fi).Ended?
    ensures var fibers := ExecRet(s, fi).s.fibers;
            && |fibers| == |s.fibers| - 1
            && if |fibers| == 1 then fibers[0].awaiting == Nothing
               else forall j :: 0 <= j < |fibers| ==>
                 fibers[j].awaiting == s.fibers[if j < fi then j else j + 1].awaiting
  {
    hide Unwind;
  }

  lemma EndsByRet(s: State, fi: int, instr: Instr)
    requires HasContext(s, fi)
    ensures Exec(s, fi, instr).Ended? ==> instr.Ret?
  {
    hide LoadVar, ReplaceVar, Owner, Choices;
  }

  lemma JoinRun(code: Program, s: State, fi: int)
    requires JoinSafe(s) && HasContext(s, fi) && s.fibers[fi].awaiting == Nothing
    requires code(Current(s, fi).pc).JoinFibers? ==> |s.fibers| >= 2
    requires fi == 0 ==> !Step(code, s, fi).Ended?
    ensures var o := Step(code, s, fi); o.Go? || o.Wait? || o.Ended? ==> JoinSafe(o.s)
  {
    hide *;
    var pc := Current(s, fi).pc;
    var s1 := WithPc(s, fi, pc + Size(code(pc)));
    StepIsExec(code, s, fi);
    FetchKeeps(s, fi, pc + Size(code(pc)));
    JoinFetch(s, s1, fi);
    JoinExec(s1, fi, code(pc));
  }

  lemma JoinFetch(s: State, s1: State, fi: int)
    requires JoinSafe(s) && |s1.fibers| == |s.fibers| && 0 <= fi < |s.fibers|
    requires s1.fibers[fi].awaiting == s.fibers[fi].awaiting
    requires forall j :: 0 <= j < |s.fibers| && j != fi ==> s1.fibers[j] == s.fibers[j]
    ensures JoinSafe(s1)
  {}

  lemma JoinStep(code: Program, s: State, e: Event, s': State)
    requires Separate(s) && RootPlain(s) && JoinSafe(s) && Next(code, s, e, s') && JoinsOthers(code, s, e)
    ensures JoinSafe(s')
  {
    hide Separate, JoinSafe, RootPlain, Step, Respond, RespondRaw;
    match e
    case StepFiber(i) =>
      CurrentOf(s, i, 0);
      CurrentOf(s, i, i);
      if i == 0 { RootDoesNotEnd(code, s); }
      JoinRun(code, s, i);
    case Answer(client, choice) => JoinAnswer(s, client, choice);
    case RawAnswer(client, data) => JoinRawAnswer(s, client, data);
  }

  lemma JoinAnswer(s: State, client: Val, choice: Val)
    requires JoinSafe(s)
    ensures var o := Respond(s, client, choice); o.Go? ==> JoinSafe(o.s)
  {}

  lemma JoinRawAnswer(s: State, client: Val, data: Val)
    requires JoinSafe(s)
    ensures var o := RespondRaw(s, client, data); o.Go? ==> JoinSafe(o.s)
  {}

  /** When the last other fiber ends the root can run, whatever it was waiting for. */
  lemma LastEndWakesRoot(code: Program, s: State, fi: int, s': State)
    requires Separate(s) && RootPlain(s) && 0 <= fi < |s.fibers| && Step(code, s, fi) == Ended(s')
    ensures fi != 0 && |s'.fibers| == |s.fibers| - 1 && s'.fibers[0].id == s.fibers[0].id
    ensures s'.fibers[0].awaiting == if |s.fibers| == 2 then Nothing else s.fibers[0].awaiting
  {
    CurrentOf(s, fi, 0);
    if fi == 0 { RootDoesNotEnd(code, s); }
    EndedFibers(code, s, fi, s');
    EndedAwaiting(code, s, fi, s');
  }

  lemma EndedAwaiting(code: Program, s: State, fi: int, s': State)
    requires HasContext(s, fi) && fi > 0 && Step(code, s, fi) == Ended(s')
    ensures s'.fibers != []
    ensures s'.fibers[0].awaiting == if |s.fibers| == 2 then Nothing else s.fibers[0].awaiting
  {}

  /** Over any run in which join runs only while there are other fibers, the first fiber is always the
      root, and a root that waits in join always has another fiber. */
  lemma {:induction false} RootJoins(code: Program, r: Run, t: nat)
    requires IsRun(code, r) && t <= |r.events| && RootPlain(r.states[0]) && JoinSafe(r.states[0])
    requires forall u :: 0 <= u < |r.events| ==> JoinsOthers(code, r.states[u], r.events[u])
    ensures RootPlain(r.states[t]) && JoinSafe(r.states[t])
    ensures r.states[t].fibers != [] && r.states[0].fibers != [] && r.states[t].fibers[0].id == r.states[0].fibers[0].id
    decreases t
  {
    if t > 0 {
      hide Next, Separate, JoinsOthers, Views;
      RootJoins(code, r, t - 1);
      RunNext(code, r, t - 1, t);
      RootIndex(code, r.states[t - 1], r.events[t - 1], r.states[t]);
      RootPlainStep(code, r.states[t - 1], r.events[t - 1], r.states[t]);
      JoinStep(code, r.states[t - 1], r.events[t - 1], r.states[t]);
    }
  }

  /** Without that condition the root waits for ever: nothing that can happen undoes a join of the only
      fiber. */
  lemma {:induction false} LoneJoinForever(code: Program, r: Run, t: nat)
    requires IsRun(code, r) && t <= |r.events| && |r.states[0].fibers| == 1 && r.states[0].fibers[0].awaiting == Join
    ensures r.states[t] == r.states[0]
    decreases t
  {
    hide *;
    if t > 0 {
      LoneJoinForever(code, r, t - 1);
      RunNext(code, r, t - 1, t);
      LoneJoinStays(code, r.states[t - 1], r.events[t - 1], r.states[t]);
    }
  }

  lemma LoneJoinStays(code: Program, s: State, e: Event, s': State)
    requires Next(code, s, e, s') && |s.fibers| == 1 && s.fibers[0].awaiting == Join
    ensures s' == s
  {}

  /** init_vm leaves a state where everything starts to hold. */
  lemma StartHolds(players: set<Val>)
    ensures var s := Start(players);
            Separate(s) && Safe(s) && WellScoped(s) && RootPlain(s) && JoinSafe(s)
    ensures var s := Start(players);
            && |s.fibers| == 1 && s.fibers[0].awaiting == Nothing && Views(s, 0) == [View(1, 0, [], [0])]
            && s.scopes == [Scope(map[], 0, NO_SCOPE, false)] && s.funcs == [] && s.arrays == map[]
            && s.players == players && !s.gameOver && s.sent == []
  {
    StartIsSeparate(players);
    hide Separate;
  }

  lemma StartIsSeparate(players: set<Val>)
    ensures Separate(Start(players))
  {}
}
