/** Runs that meet the exceptions in the theorems about undo (vm/vm.c). */
module VmExamples {
  import opened Commons
  import opened VmSpec
  import opened VmRuns
  import opened VmUndo
  import opened VmReissue
  import opened VmSafety
  import opened VmSchedule

  const P := Str("p")   // the player

  /** The root forks a fiber that does nothing but return, and then asks the player something. */
  function ForkAndAsk(address: int): Instr {
    if address == 0 then Lambda(20)
    else if address == 5 then
      Local(1, (arrays: Arrays, pc: int, stack: seq<Val>) =>
                 Done(map[0 := [Str("?")]], pc, [Arr(0), P] + stack + [Int(0)]))
    else if address == 6 then Fork
    else if address == 7 then Suspend
    else Ret
  }

  function Asked(): State {
    State([Fiber(0, [Context(1, 8, 0), Context(4, 8, 2)], Choice, P, map[]),
           Fiber(2, [Context(3, 20, 1)], Nothing, Int(0), map[])],
          [Cell([Arr(0), P], [0]), Cell([Int(0)], [1, 2]), Cell([], [0])],
          [Scope(map[], 0, NO_SCOPE, false), Scope(map[], 0, NO_SCOPE, false), Scope(map[], 20, 0, true)],
          [Func(0, 20)], map[0 := [Str("?")]], 5, {P}, false, [Request(P, 0, Str("?"), map[])])
  }

  function Defined(): State {
    Start({P}).(fibers := [Fiber(0, [Context(1, 5, 0)], Nothing, Int(0), map[])], cells := [Cell([Fun(0)], [0])],
                funcs := [Func(0, 20)])
  }

  function Ready(): State {
    Defined().(fibers := [Fiber(0, [Context(1, 6, 0)], Nothing, Int(0), map[])],
               cells := [Cell([Arr(0), P, Fun(0), Int(0)], [0])], arrays := map[0 := [Str("?")]])
  }

  function Forked(): State {
    Asked().(fibers := [Fiber(0, [Context(1, 7, 0)], Nothing, Int(0), map[]), Asked().fibers[1]],
             cells := Asked().cells[..2], maxId := 4, sent := [])
  }

  function Woken(): State {
    Asked().(fibers := [Asked().fibers[0].(awaiting := Nothing)], cells := Asked().cells[1 := Cell([Int(0)], [1])])
  }

  lemma OneContext(s: State, i: int, pc: int)
    requires HasContext(s, i) && |s.fibers[i].contexts| == 1
    ensures WithPc(s, i, pc) == s.(fibers := s.fibers[i := s.fibers[i].(contexts := [Current(s, i).(pc := pc)])])
  {
    var c := Current(s, i).(pc := pc);
    assert Init(s.fibers[i].contexts) + [c] == [c];
  }

  lemma Only<T>(xs: seq<T>, x: T)
    requires |xs| == 1
    ensures xs[0 := x] == [x]
  {}

  lemma Defines()
    ensures Step(ForkAndAsk, Start({P}), 0) == Go(Defined())
  {
    OneContext(Start({P}), 0, 5);
    Only(Start({P}).fibers, Defined().fibers[0]);
    Only(Start({P}).cells, Defined().cells[0]);
    var s1 := WithPc(Start({P}), 0, 5);
    assert s1.fibers == [Fiber(0, [Context(1, 5, 0)], Nothing, Int(0), map[])];
    assert s1.fibers[0].contexts == [Context(1, 5, 0)] && [] + [Fun(0)] == [Fun(0)];
    assert Exec(s1, 0, Lambda(20)).s.cells == [Cell([Fun(0)], [0])];
    assert Exec(s1, 0, Lambda(20)).s.funcs == [Func(0, 20)];
  }

  lemma Pushes()
    ensures Step(ForkAndAsk, Defined(), 0) == Go(Ready())
  {
    OneContext(Defined(), 0, 6);
    Only(Defined().fibers, Ready().fibers[0]);
    var s1 := WithPc(Defined(), 0, 6);
    assert s1.fibers == [Fiber(0, [Context(1, 6, 0)], Nothing, Int(0), map[])];
    var o := Exec(s1, 0, ForkAndAsk(5));
    assert o.s.fibers == s1.fibers;
    assert [Arr(0), P] + [Fun(0)] + [Int(0)] == [Arr(0), P, Fun(0), Int(0)];
    assert o.s.cells == Ready().cells;
  }

  lemma Forks()
    ensures Step(ForkAndAsk, Ready(), 0) == Go(Forked())
  {
    OneContext(Ready(), 0, 7);
    Only(Ready().fibers, Forked().fibers[0]);
    var s1 := WithPc(Ready(), 0, 7);
    assert s1.fibers == [Fiber(0, [Context(1, 7, 0)], Nothing, Int(0), map[])];
    var o := Exec(s1, 0, Fork);
    assert HasCall(s1, 0) && Callee(s1, 0) == Func(0, 20);
    assert [Arr(0), P, Fun(0), Int(0)][..2] == [Arr(0), P];
    assert o.s.fibers == Forked().fibers;
    assert o.s.cells == Forked().cells;
    assert o.s.scopes == Forked().scopes;
  }

  lemma Asks()
    ensures Step(ForkAndAsk, Forked(), 0) == Wait(Asked())
  {
    OneContext(Forked(), 0, 8);
    var s1 := WithPc(Forked(), 0, 8);
    assert s1.fibers == [Fiber(0, [Context(1, 8, 0)], Nothing, Int(0), map[]), Asked().fibers[1]];
    var o := Exec(s1, 0, Suspend);
    assert [Arr(0), P][..0] == [];
    assert HasRequest(s1, [Arr(0), P]) && Choices([Str("?")], 1, map[]) == map[];
    assert s1.fibers[0].contexts + [Context(4, 8, 2)] == Asked().fibers[0].contexts;
    assert o.s.fibers[0] == Asked().fibers[0];
    assert o.s.fibers == Asked().fibers;
    assert o.s.cells == Asked().cells;
    assert o.s.sent == Asked().sent;
  }

  lemma Ends()
    ensures Step(ForkAndAsk, Asked(), 1) == Ended(Woken())
  {
    OneContext(Asked(), 1, 21);
    var s1 := WithPc(Asked(), 1, 21);
    assert s1.fibers[1].contexts == [Context(3, 21, 1)];
    assert Unwind(s1.scopes, [1, 2]) == Some(1);
    var o := Exec(s1, 1, Ret);
    assert [1, 2][..1] == [1];
    assert s1.fibers[..1] + s1.fibers[2..] == [Asked().fibers[0]];
    assert o.s.cells == Woken().cells;
  }

  /** The root asks, and then the fiber that it forked returns. */
  function ForkAndAskRun(): Run {
    Run([Start({P}), Defined(), Ready(), Forked(), Asked(), Woken()],
        [StepFiber(0), StepFiber(0), StepFiber(0), StepFiber(0), StepFiber(1)])
  }

  lemma ItIsARun()
    ensures IsRun(ForkAndAsk, ForkAndAskRun()) && Separate(Asked())
  {
    Defines();
    Pushes();
    Forks();
    Asks();
    Ends();
    StartHolds({P});
    hide Step, Separate;
    RunSeparate(ForkAndAsk, ForkAndAskRun(), 4);
  }

  /** From then on the root runs although nobody has answered, so it is not where UndosReissueIff would have it. */
  lemma WokenWithoutAnswer()
    ensures var r := ForkAndAskRun();
            IsRun(ForkAndAsk, r) && r.states[0] == Start({P})
            && Wakes(ForkAndAsk, r.states[4], r.events[4], r.states[5], 0)
    ensures var r := Run(ForkAndAskRun().states[4..], ForkAndAskRun().events[4..]);
            && OnlyUndos(ForkAndAsk, r, 0) && OpenRequests(ForkAndAsk, Views(r.states[0], 0), 1)
            && !(forall t :: 0 <= t <= |r.events| ==> InStep(ForkAndAsk, r, 0, 0, 1, t))
  {
    ItIsARun();
    Ends();
    hide Step, Separate, InStep, IsRun;
    var r := Run(ForkAndAskRun().states[4..], ForkAndAskRun().events[4..]);
    LastEvent(r);
    assert HasId(r.states[0], 0, 0) && Wakes(ForkAndAsk, r.states[0], r.events[0], r.states[1], 0);
    assert Views(Asked(), 0)[0] == View(1, 8, [Arr(0), P], [0]);
    UndosReissueIff(ForkAndAsk, r, 0, 0, 1);
  }

  lemma LastEvent(r: Run)
    requires r == Run(ForkAndAskRun().states[4..], ForkAndAskRun().events[4..])
    ensures r == Run([Asked(), Woken()], [StepFiber(1)]) && IsRun(ForkAndAsk, r)
  {
    Ends();
    ItIsARun();
    hide Step, Separate;
    assert r == Run([Asked(), Woken()], [StepFiber(1)]);
  }

  /** The first thing that this program does is to ask, with the undo key among the choices. */
  function AskWithUndo(address: int): Instr {
    if address == 0 then
      Local(1, (arrays: Arrays, pc: int, stack: seq<Val>) =>
                 Done(map[0 := [Str("?"), UNDO, Str("back")]], pc, [Arr(0), P]))
    else Suspend
  }

  /** The player takes it, and the fiber has no context any more. */
  lemma OwnUndoLosesContext() returns (s1: State, s2: State)
    ensures Step(AskWithUndo, Start({P}), 0) == Go(s1) && Step(AskWithUndo, s1, 0) == Wait(s2)
    ensures Respond(s2, P, UNDO) == Crash
  {
    var ready := WithPc(Start({P}), 0, 1);
    OneContext(Start({P}), 0, 1);
    s1 := Step(AskWithUndo, Start({P}), 0).s;
    var asking := WithPc(s1, 0, 2);
    OneContext(s1, 0, 2);
    assert HasRequest(asking, [Arr(0), P]) && CurrentCell(asking, 0).stack == [Arr(0), P];
    s2 := Step(AskWithUndo, s1, 0).s;
    assert HasKey([Str("?"), UNDO, Str("back")], 1, UNDO);
    UndoLosesIff(asking, 0, s2);
  }
}
