/** The interpreter of vm/vm.c as it runs: every instruction updates the machine in place.  Each method is
    proved equal to its specification in VmSpec. */
module Vms {
  import opened Commons
  import opened VmSpec
  import opened VmRuns
  import opened VmUndo
  import opened VmSchedule

  class Machine {
    const code: Program
    var fibers: seq<Fiber>
    var cells: seq<Cell>
    var scopes: seq<Scope>
    var funcs: seq<Func>
    var arrays: Arrays
    var maxId: int
    const players: set<Val>
    var gameOver: bool
    var sent: seq<Request>

    ghost function Now(): State
      reads this
    {
      State(fibers, cells, scopes, funcs, arrays, maxId, players, gameOver, sent)
    }

    /** What a return code of step says: the state it leaves, unless the program died. */
    ghost function Result(r: int): Outcome
      reads this
    {
      if r == 0 then Go(Now()) else if r == 1 then Wait(Now()) else if r == 2 then Over(Now())
      else if r == 3 then Ended(Now()) else Crash
    }

    /** init_vm, with an empty universe. */
    constructor (code: Program, players: set<Val>)
      ensures this.code == code && this.players == players
      ensures Now() == Start(players)
    {
      this.code, this.players := code, players;
      fibers := [Fiber(0, [Context(1, 0, 0)], Nothing, Int(0), map[])];
      cells, scopes, funcs := [Cell([], [0])], [Scope(map[], 0, NO_SCOPE, false)], [];
      arrays, maxId, gameOver, sent := map[], 2, false, [];
    }

    method SetContexts(fi: nat, contexts: seq<Context>)
      requires fi < |fibers|
      modifies `fibers
      ensures Now() == WithContexts(old(Now()), fi, contexts)
    {
      fibers := fibers[fi := fibers[fi].(contexts := contexts)];
    }

    method SetPc(fi: int, pc: int)
      requires HasContext(Now(), fi)
      modifies `fibers
      ensures Now() == WithPc(old(Now()), fi, pc)
    {
      var contexts := fibers[fi].contexts;
      var n := |contexts| - 1;
      assert contexts[n := contexts[n].(pc := pc)] == Init(contexts) + [Last(contexts).(pc := pc)];
      SetContexts(fi, contexts[n := contexts[n].(pc := pc)]);
    }

    method SetCell(fi: int, cell: Cell)
      requires HasContext(Now(), fi)
      modifies `cells
      ensures Now() == WithCell(old(Now()), fi, cell)
    {
      cells := cells[Last(fibers[fi].contexts).cell := cell];
    }

    /** stack_pop on the current context's stack. */
    method Pop(fi: int) returns (v: Val)
      requires HasContext(Now(), fi) && CurrentCell(Now(), fi).stack != []
      modifies `cells
      ensures v == Last(old(CurrentCell(Now(), fi)).stack)
      ensures Now() == WithCell(old(Now()), fi,
                                old(CurrentCell(Now(), fi)).(stack := Init(old(CurrentCell(Now(), fi)).stack)))
    {
      var cell := cells[Last(fibers[fi].contexts).cell];
      v := Last(cell.stack);
      SetCell(fi, cell.(stack := Init(cell.stack)));
    }

    /** load_var: the value of the key in the first scope of the chain that binds it. */
    method Load(id: int, key: string) returns (v: Option<Val>)
      ensures var o := Owner(scopes, id, key); v == if o == NO_SCOPE then None else Some(scopes[o].locals[key])
      decreases id
    {
      if !(0 <= id < |scopes|) {
        return None;
      }
      if key in scopes[id].locals {
        v := Some(scopes[id].locals[key]);
      } else if scopes[id].closure < id {
        v := Load(scopes[id].closure, key);
      } else {
        v := None;
      }
    }

    /** replace_var: changes the key in the first scope of the chain that binds it, and nothing else. */
    method Replace(id: int, key: string, val: Val) returns (ok: bool)
      modifies `scopes
      ensures var o := Owner(old(scopes), id, key);
              && (ok <==> o != NO_SCOPE)
              && scopes
                 == if ok then old(scopes)[o := old(scopes)[o].(locals := old(scopes)[o].locals[key := val])]
                    else old(scopes)
      decreases id
    {
      if !(0 <= id < |scopes|) {
        return false;
      }
      if key in scopes[id].locals {
        scopes := scopes[id := scopes[id].(locals := scopes[id].locals[key := val])];
        ok := true;
      } else if scopes[id].closure < id {
        ok := Replace(scopes[id].closure, key, val);
      } else {
        ok := false;
      }
    }

    /** The instruction ret, with its walk back along the scopes. */
    method Return(fi: int) returns (r: int)
      requires HasContext(Now(), fi)
      modifies this
      ensures Result(r) == ExecRet(old(Now()), fi)
    {
      var cell := cells[Last(fibers[fi].contexts).cell];
      if cell.scopes == [] {
        return -1;
      }
      if |cell.scopes| == 1 {
        SetCell(fi, cell.(scopes := []));
        assert cell.scopes[..0] == [];
        return 2;
      }
      var list := cell.scopes;
      while true
        invariant list <= cell.scopes && Unwind(scopes, list) == Unwind(scopes, cell.scopes)
        decreases |list|
      {
        if list == [] || !(0 <= Last(list) < |scopes|) {
          return -1;
        }
        var scope := scopes[Last(list)];
        list := Init(list);
        if scope.returnAddress != 0 {
          assert list == cell.scopes[..|list|];
          SetCell(fi, cell.(scopes := list));
          if scope.isFiber {
            fibers := fibers[..fi] + fibers[fi + 1..];
            if |fibers| == 1 {
              fibers := [fibers[0].(awaiting := Nothing)];
            }
            return 3;
          }
          SetPc(fi, scope.returnAddress);
          return 0;
        }
      }
    }

    /** The instruction suspend. */
    method SuspendFiber(fi: int) returns (r: int)
      requires HasContext(Now(), fi)
      modifies this
      ensures Result(r) == ExecSuspend(old(Now()), fi)
    {
      hide Choices;
      var stack := cells[Last(fibers[fi].contexts).cell].stack;
      CloneContext(fi);
      if |stack| < 2 {
        return -1;
      }
      var client, request := PopTwo(fi);
      if !client.Str? || !request.Arr? || request.a !in arrays || |arrays[request.a]| % 2 == 0 {
        return -1;
      }
      var elements := arrays[request.a];
      var choices: map<Val, Val> := map[];
      if |fibers[fi].contexts| > 2 {
        choices := choices[UNDO := Str("UNDO")];
      }
      choices := AddChoices(elements, choices);
      fibers := fibers[fi := Fiber(fibers[fi].id, fibers[fi].contexts, Choice, client, choices)];
      sent := sent + [Request(client, fibers[fi].id, elements[0], choices)];
      r := 1;
    }

    /** clone_current_exec_context: the clone, with a copy of the stack and the scope array, is current. */
    method CloneContext(fi: int)
      requires HasContext(Now(), fi)
      modifies `fibers, `cells, `maxId
      ensures HasContext(Now(), fi)
      ensures var s, c := old(Now()), old(Current(Now(), fi));
              Now() == WithContexts(s, fi, s.fibers[fi].contexts + [Context(s.maxId, c.pc, |s.cells|)])
                       .(cells := s.cells + [s.cells[c.cell]], maxId := s.maxId + 1)
    {
      var current := Last(fibers[fi].contexts);
      var clone := Context(maxId, current.pc, |cells|);
      maxId := maxId + 1;
      cells := cells + [cells[current.cell]];
      SetContexts(fi, fibers[fi].contexts + [clone]);
    }

    /** Two operands off the current stack. */
    method PopTwo(fi: int) returns (top: Val, second: Val)
      requires HasContext(Now(), fi) && |CurrentCell(Now(), fi).stack| >= 2
      modifies `cells
      ensures var cell := old(CurrentCell(Now(), fi));
              && top == Last(cell.stack) && second == cell.stack[|cell.stack| - 2]
              && Now() == WithCell(old(Now()), fi, cell.(stack := cell.stack[..|cell.stack| - 2]))
    {
      ghost var stack := CurrentCell(Now(), fi).stack;
      top := Pop(fi);
      second := Pop(fi);
      assert Init(Init(stack)) == stack[..|stack| - 2];
    }

    method AddChoices(elements: seq<Val>, undo: map<Val, Val>) returns (choices: map<Val, Val>)
      requires |elements| % 2 == 1
      ensures choices == Choices(elements, 1, undo)
    {
      choices := undo;
      var i := 1;
      while i < |elements|
        invariant 1 <= i <= |elements| && i % 2 == 1
        invariant Choices(elements, i, choices) == Choices(elements, 1, undo)
      {
        choices := choices[elements[i] := elements[i + 1]];
        i := i + 2;
      }
    }

    /** The instruction fork. */
    method ForkFiber(fi: int) returns (r: int)
      requires HasContext(Now(), fi)
      modifies this
      ensures Result(r) == ExecFork(old(Now()), fi)
    {
      if fi != 0 || |fibers[fi].contexts| != 1 {
        return -1;
      }
      var stack := cells[Last(fibers[fi].contexts).cell].stack;
      if |stack| < 2 {
        return -1;
      }
      var arg, func := PopTwo(fi);
      if !func.Fun? || !(0 <= func.f < |funcs|) {
        return -1;
      }
      var f := funcs[func.f];
      var context := Context(maxId + 1, f.address, |cells|);
      var fiber := Fiber(maxId, [context], Nothing, Int(0), map[]);
      maxId := maxId + 2;
      cells := cells + [Cell([arg], [|scopes|, |scopes| + 1])];
      scopes := scopes + [Scope(map[], 0, NO_SCOPE, false), Scope(map[], f.address, f.closure, true)];
      fibers := fibers + [fiber];
      r := 0;
    }

    /** The instruction apply. */
    method ApplyFunction(fi: int) returns (r: int)
      requires HasContext(Now(), fi)
      modifies this
      ensures Result(r) == ExecApply(old(Now()), fi)
    {
      var stack := cells[Last(fibers[fi].contexts).cell].stack;
      if |stack| < 2 {
        return -1;
      }
      var arg, func := PopTwo(fi);
      if !func.Fun? || !(0 <= func.f < |funcs|) {
        return -1;
      }
      var f := funcs[func.f];
      var current := Last(fibers[fi].contexts);
      var cell := cells[current.cell];
      scopes := scopes + [Scope(map[], current.pc, f.closure, false)];
      SetCell(fi, Cell(cell.stack + [arg], cell.scopes + [|scopes| - 1]));
      SetPc(fi, f.address);
      r := 0;
    }

    lemma CurrentIs(fi: int)
      requires HasContext(Now(), fi)
      ensures 0 <= fi < |fibers| && fibers[fi].contexts != [] && Last(fibers[fi].contexts) == Current(Now(), fi)
    {}

    /** step. */
    method Step(fi: int) returns (r: int)
      requires HasContext(Now(), fi)
      modifies this
      ensures Result(r) == VmSpec.Step(code, old(Now()), fi)
    {
      hide *;
      CurrentIs(fi);
      var pc := Last(fibers[fi].contexts).pc;
      var instr := code(pc);
      StepIsExec(code, Now(), fi);
      FetchKeeps(Now(), fi, pc + Size(instr));
      SetPc(fi, pc + Size(instr));
      r := Execute(fi, instr);
    }

    method Execute(fi: int, instr: Instr) returns (r: int)
      requires HasContext(Now(), fi)
      modifies this
      ensures Result(r) == Exec(old(Now()), fi, instr)
    {
      hide ExecLocal, ExecLdVar, ExecStVar, ExecRVar, ExecPushScope, ExecPopScope, ExecLambda, ExecApply, ExecRet,
           ExecSuspend, ExecFork, ExecJoin, ExecGetRaw;
      match instr
      case Local(_, effect) => r := RunLocal(fi, effect);
      case LdVar(key) => r := LoadVariable(fi, key);
      case StVar(key) => r := Store(fi, key, true);
      case PStVar(key) => r := Store(fi, key, false);
      case RVar(key) => r := ReplaceVariable(fi, key);
      case PushScope => r := EnterScope(fi);
      case PopScope => r := LeaveScope(fi);
      case Lambda(location) => r := MakeFunction(fi, location);
      case Apply => r := ApplyFunction(fi);
      case Ret => r := Return(fi);
      case Suspend => r := SuspendFiber(fi);
      case Cut =>
        SetContexts(fi, [Last(fibers[fi].contexts)]);
        r := 0;
      case Fork => r := ForkFiber(fi);
      case JoinFibers => r := JoinAll(fi);
      case GetRaw => r := AwaitRaw(fi);
    }

    method RunLocal(fi: int, effect: (Arrays, int, seq<Val>) -> Effect) returns (r: int)
      requires HasContext(Now(), fi)
      modifies this
      ensures Result(r) == ExecLocal(old(Now()), fi, effect)
    {
      var current := Last(fibers[fi].contexts);
      var cell := cells[current.cell];
      var e := effect(arrays, current.pc, cell.stack);
      if e.Died? {
        return -1;
      }
      arrays := e.arrays;
      SetPc(fi, e.pc);
      SetCell(fi, cell.(stack := e.stack));
      r := 0;
    }

    /** ldvar. */
    method LoadVariable(fi: int, key: string) returns (r: int)
      requires HasContext(Now(), fi)
      modifies this
      ensures Result(r) == ExecLdVar(old(Now()), fi, key)
    {
      hide Owner;
      var cell := cells[Last(fibers[fi].contexts).cell];
      if cell.scopes == [] {
        return -1;
      }
      var v := Load(Last(cell.scopes), key);
      if v.None? {
        return -1;
      }
      SetCell(fi, cell.(stack := cell.stack + [v.value]));
      r := 0;
    }

    /** rvar. */
    method ReplaceVariable(fi: int, key: string) returns (r: int)
      requires HasContext(Now(), fi)
      modifies this
      ensures Result(r) == ExecRVar(old(Now()), fi, key)
    {
      hide Owner;
      var cell := cells[Last(fibers[fi].contexts).cell];
      if cell.scopes == [] || cell.stack == [] {
        return -1;
      }
      var val := Pop(fi);
      var ok := Replace(Last(cell.scopes), key, val);
      r := if ok then 0 else -1;
    }

    /** pushscope. */
    method EnterScope(fi: int) returns (r: int)
      requires HasContext(Now(), fi)
      modifies this
      ensures Result(r) == ExecPushScope(old(Now()), fi)
    {
      var cell := cells[Last(fibers[fi].contexts).cell];
      if cell.scopes == [] {
        return -1;
      }
      scopes := scopes + [Scope(map[], 0, Last(cell.scopes), false)];
      SetCell(fi, cell.(scopes := cell.scopes + [|scopes| - 1]));
      r := 0;
    }

    /** popscope. */
    method LeaveScope(fi: int) returns (r: int)
      requires HasContext(Now(), fi)
      modifies this
      ensures Result(r) == ExecPopScope(old(Now()), fi)
    {
      var cell := cells[Last(fibers[fi].contexts).cell];
      if cell.scopes == [] {
        return -1;
      }
      SetCell(fi, cell.(scopes := Init(cell.scopes)));
      r := 0;
    }

    /** lambda, with init_function. */
    method MakeFunction(fi: int, location: int) returns (r: int)
      requires HasContext(Now(), fi)
      modifies this
      ensures Result(r) == ExecLambda(old(Now()), fi, location)
    {
      var current := Last(fibers[fi].contexts);
      var cell := cells[current.cell];
      if cell.scopes == [] {
        return -1;
      }
      funcs := funcs + [Func(Last(cell.scopes), current.pc + location - 5)];
      SetCell(fi, cell.(stack := cell.stack + [Fun(|funcs| - 1)]));
      r := 0;
    }

    /** join. */
    method JoinAll(fi: int) returns (r: int)
      requires HasContext(Now(), fi)
      modifies this
      ensures Result(r) == ExecJoin(old(Now()), fi)
    {
      if fi != 0 {
        return -1;
      }
      fibers := fibers[0 := fibers[0].(awaiting := Join)];
      r := 1;
    }

    /** getraw. */
    method AwaitRaw(fi: int) returns (r: int)
      requires HasContext(Now(), fi)
      modifies this
      ensures Result(r) == ExecGetRaw(old(Now()), fi)
    {
      if cells[Last(fibers[fi].contexts).cell].stack == [] {
        return -1;
      }
      var client := Pop(fi);
      fibers := fibers[fi := fibers[fi].(awaiting := RawData, client := client, choices := map[])];
      r := 1;
    }

    /** stvar and p_stvar: hash_set in the current scope. */
    method Store(fi: int, key: string, pop: bool) returns (r: int)
      requires HasContext(Now(), fi)
      modifies this
      ensures Result(r) == ExecStVar(old(Now()), fi, key, pop)
    {
      var cell := cells[Last(fibers[fi].contexts).cell];
      if cell.scopes == [] || cell.stack == [] || !(0 <= Last(cell.scopes) < |scopes|) {
        return -1;
      }
      var id, val := Last(cell.scopes), Last(cell.stack);
      if pop {
        val := Pop(fi);
      }
      scopes := scopes[id := scopes[id].(locals := scopes[id].locals[key := val])];
      r := 0;
    }

    /** vm_run: one round over the fibers.  A fiber runs until it waits, ends or meets a breakpoint; one that
        ends is removed and the next takes its place.  The round is a run that consists of turns: in a complete
        round every fiber of its start has exactly one, in order, and then perhaps newer fibers have one each.
        A round is incomplete only when `budget` steps were made or the next step of the fiber in front ends
        the game or dies. */
    method Round(breakpoints: set<int>, budget: nat)
      returns (complete: bool, visited: seq<int>, ghost r: Run, ghost marks: seq<nat>, ghost front: int)
      requires Separate(Now())
      modifies this
      ensures IsRun(code, r) && r.states[0] == old(Now()) && |r.events| <= budget
      ensures complete ==> Last(r.states) == Now() && Turns(r, marks, visited, breakpoints)
      ensures complete ==> old(IdsOf(fibers)) <= visited && Distinct(visited) && Separate(Now())
      ensures !complete ==> Stopped(code, r, front, budget - |r.events|, Now())
      ensures !complete ==> Unfinished(r, marks, visited, front, breakpoints)
    {
      hide InRound, Distinct, VmSpec.Step, HasContext, IsTurn, Turns, Separate, RunTo, Stopped, Unfinished;
      ghost var start := IdsOf(fibers);
      visited, marks, r, front := [], [0], Run([Now()], []), 0;
      assert RunTo(code, r, Now()) && Turns(r, marks, visited, breakpoints) by { EmptyRun(code, Now(), breakpoints); }
      var steps := budget;
      var count := |fibers|;
      RoundStarts(Now());
      var i := 0;
      while i < count
        invariant 0 <= i <= count <= |fibers| && InRound(Now(), start, visited, i, count)
        invariant RunTo(code, r, Now()) && Turns(r, marks, visited, breakpoints)
        invariant |r.states| == |r.events| + 1 && r.states[0] == old(Now()) && |r.events| + steps == budget
        decreases steps, count - i
      {
        RoundSeparate(Now(), start, visited, i, count);
        var f := fibers[i].id;
        ghost var before := r;
        if fibers[i].awaiting == Nothing {
          var turned, ended, left;
          turned, ended, left, r := Turn(i, count, breakpoints, steps, start, visited, r);
          steps := left;
          if !turned {
            front := i;
            TurnBreaksOff(before, r, marks, visited, i, breakpoints);
            return false, visited, r, marks, front;
          }
          AddTurn(before, r, marks, visited, f, breakpoints);
          visited, marks := visited + [f], marks + [|r.events|];
          if ended {
            i := i - 1;
            count := |fibers|;
          }
        } else {
          RoundNext(Now(), start, visited, i, count);
          NoTurn(code, r, Now(), i, breakpoints);
          AddTurn(before, r, marks, visited, f, breakpoints);
          visited, marks := visited + [f], marks + [|r.events|];
        }
        i := i + 1;
      }
      RoundSeparate(Now(), start, visited, i, count);
      RoundEnds(Now(), start, visited, i, count);
      IsRunTo(code, r, Now());
      complete := true;
    }

    /** The turn of one fiber in vm_run. */
    method Turn(i: int, count: int, breakpoints: set<int>, budget: nat, ghost start: seq<int>, ghost visited: seq<int>,
                ghost r0: Run)
      returns (complete: bool, ended: bool, left: nat, ghost r: Run)
      requires 0 <= i < count <= |fibers| && InRound(Now(), start, visited, i, count)
      requires fibers[i].awaiting == Nothing && RunTo(code, r0, Now()) && |r0.states| == |r0.events| + 1
      modifies this
      ensures Continues(r0, r) && IsRun(code, r) && |r.events| <= |r0.events| + budget
      ensures complete ==> left + |r.events| == budget + |r0.events| && (ended ==> left < budget)
      ensures complete && !ended ==>
                count <= |fibers| && InRound(Now(), start, visited + [old(fibers[i].id)], i + 1, count)
      ensures complete && !ended ==>
                fibers[i].awaiting != Nothing || (HasContext(Now(), i) && PcOf(i) + 1 in breakpoints)
      ensures complete && ended ==> i <= |fibers| && InRound(Now(), start, visited + [old(fibers[i].id)], i, |fibers|)
      ensures complete ==> RunTo(code, r, Now()) && IsTurn(r, |r0.events|, |r.events|, old(fibers[i].id), breakpoints)
      ensures !complete ==> Stopped(code, r, i, budget + |r0.events| - |r.events|, Now())
      ensures !complete ==> forall t :: |r0.events| <= t < |r.events| ==> r.events[t] == StepFiber(i)
      ensures forall t :: |r0.events| < t < |r.events| ==> !AtBreakpoint(r.states[t], i, breakpoints)
    {
      hide InRound, Distinct, VmSpec.Step, HasContext, IsTurn, Separate, RunTo, Stopped, IsRun, InTurn, Continues,
           OneMore, AtBreakpoint;
      left, r := budget, r0;
      ghost var f := fibers[i].id;
      var first := true;
      TurnStarts(code, r0, Now(), i, breakpoints);
      while true
        invariant i < |fibers| && count <= |fibers| && InRound(Now(), start, visited, i, count)
        invariant left + |r.events| == budget + |r0.events| && |r0.events| <= |r.events|
        invariant fibers[i].id == f && fibers[i].awaiting == Nothing
        invariant InTurn(code, r0, r, Now(), i, breakpoints)
        invariant !first <==> |r0.events| < |r.events|
        decreases left
      {
        RoundSeparate(Now(), start, visited, i, count);
        TurnParts(code, r0, r, Now(), i, breakpoints);
        BreakpointIs(i, breakpoints);
        if first {
          first := false;
        } else if PcOf(i) + 1 in breakpoints {
          RoundNext(Now(), start, visited, i, count);
          TurnDone(code, r0, r, old(Now()), Now(), i, breakpoints);
          return true, false, left, r;
        }
        if left == 0 {
          StoppedByBudget(code, r, i, Now());
          return false, false, 0, r;
        }
        left := left - 1;
        ghost var s := Now();
        var o := Step(i);
        if o != 0 && o != 1 && o != 3 {
          ghost var reached := Result(o);
          if o == 2 {
            gameOver := true;
            fibers := [];
          }
          StoppedByStep(code, r, i, s, left + 1, reached, Now());
          return false, false, left, r;
        }
        StepSeparate(code, s, i);
        TurnGoesOn(code, r0, r, s, i, breakpoints, Now());
        r := OneMore(r, StepFiber(i), Now());
        TurnParts(code, r0, r, Now(), i, breakpoints);
        if o == 3 {
          RoundEnd(code, s, Now(), start, visited, i, count);
          EndedFewer(code, s, i, Now());
          RoundSeparate(Now(), start, visited + [f], i, |fibers|);
          TurnDone(code, r0, r, old(Now()), Now(), i, breakpoints);
          return true, true, left, r;
        }
        RoundStep(code, s, Now(), start, visited, i, count);
        StepFibers(code, s, i);
        GoKeepsRunning(code, s, i);
        RoundSeparate(Now(), start, visited, i, count);
        if o == 1 {
          RoundNext(Now(), start, visited, i, count);
          TurnDone(code, r0, r, old(Now()), Now(), i, breakpoints);
          return true, false, left, r;
        }
      }
    }

    lemma BreakpointIs(i: int, stops: set<int>)
      requires HasContext(Now(), i)
      ensures AtBreakpoint(Now(), i, stops) <==> PcOf(i) + 1 in stops
    {}

    function PcOf(i: int): int
      requires HasContext(Now(), i)
      reads this
    {
      Last(fibers[i].contexts).pc
    }

    /** vm_handle_response. */
    method HandleResponse(client: Val, choice: Val) returns (ok: bool)
      modifies this
      ensures (if ok then Go(Now()) else Crash) == Respond(old(Now()), client, choice)
    {
      if gameOver || client !in players {
        return true;
      }
      var i := FindWaiting(Choice, client);
      if i == |fibers| || choice !in fibers[i].choices {
        return true;
      }
      fibers := fibers[i := fibers[i].(awaiting := Nothing, choices := map[])];
      if choice == UNDO {
        var contexts := fibers[i].contexts;
        if |contexts| < 3 {
          return false;
        }
        contexts := contexts[..|contexts| - 2];
        SetContexts(i, contexts);
        // ec->pc--
        SetContexts(i, Init(contexts) + [Last(contexts).(pc := Last(contexts).pc - 1)]);
      } else {
        if !(fibers[i].contexts != [] && 0 <= Last(fibers[i].contexts).cell < |cells|) {
          return false;
        }
        var cell := cells[Last(fibers[i].contexts).cell];
        SetCell(i, cell.(stack := cell.stack + [choice]));
      }
      ok := true;
    }

    /** vm_handle_raw. */
    method HandleRaw(client: Val, data: Val) returns (ok: bool)
      modifies this
      ensures (if ok then Go(Now()) else Crash) == RespondRaw(old(Now()), client, data)
    {
      if gameOver || client !in players {
        return true;
      }
      var i := FindWaiting(RawData, client);
      if i == |fibers| {
        return true;
      }
      fibers := fibers[i := fibers[i].(awaiting := Nothing)];
      if !(fibers[i].contexts != [] && 0 <= Last(fibers[i].contexts).cell < |cells|) {
        return false;
      }
      var cell := cells[Last(fibers[i].contexts).cell];
      SetCell(i, cell.(stack := cell.stack + [data]));
      ok := true;
    }

    method FindWaiting(kind: Awaiting, client: Val) returns (i: nat)
      ensures i == Waiting(fibers, kind, client)
    {
      i := 0;
      while i < |fibers| && !(fibers[i].awaiting == kind && fibers[i].client == client)
        invariant i <= |fibers|
        invariant forall j :: 0 <= j < i ==> !(fibers[j].awaiting == kind && fibers[j].client == client)
      {
        i := i + 1;
      }
      WaitingIs(fibers, kind, client, i);
    }
  }

  lemma WaitingIs(fibers: seq<Fiber>, kind: Awaiting, client: Val, i: nat)
    requires i <= |fibers| && forall j :: 0 <= j < i ==> !(fibers[j].awaiting == kind && fibers[j].client == client)
    requires i < |fibers| ==> fibers[i].awaiting == kind && fibers[i].client == client
    ensures Waiting(fibers, kind, client) == i
  {}
}
