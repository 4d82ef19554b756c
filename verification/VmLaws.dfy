/** What single instructions and answers leave of the whole machine (vm/vm.c), told by its parts: addresses,
    evaluation stacks, scope arrays and bindings. */
module VmLaws {
  import opened Commons
  import opened VmSpec
  import opened VmRuns
  import opened VmScopes
  import opened VmSafety

  /** The current context of fiber fi is at address pc with this evaluation stack and scope array; everything else
      is as it was. */
  ghost function At(s: State, fi: int, pc: int, stack: seq<Val>, scopes: seq<int>): State
    requires HasContext(s, fi)
  {
    var f := s.fibers[fi];
    var n := |f.contexts| - 1;
    s.(fibers := s.fibers[fi := f.(contexts := f.contexts[n := f.contexts[n].(pc := pc)])],
       cells := s.cells[f.contexts[n].cell := Cell(stack, scopes)])
  }

  /** Where the current context of fiber fi is. */
  ghost predicate Runs(code: Program, s: State, fi: int, instr: Instr, pc: int, stack: seq<Val>, scopes: seq<int>) {
    && 0 <= fi < |s.fibers| && |s.fibers[fi].contexts| > 0
    && var c := s.fibers[fi].contexts[|s.fibers[fi].contexts| - 1];
       0 <= c.cell < |s.cells| && c.pc == pc && code(pc) == instr && s.cells[c.cell] == Cell(stack, scopes)
  }

  lemma FetchIs(code: Program, s: State, fi: int, instr: Instr, pc: int, stack: seq<Val>, scopes: seq<int>)
    requires Runs(code, s, fi, instr, pc, stack, scopes)
    ensures HasContext(s, fi) && Current(s, fi).pc == pc && CurrentCell(s, fi) == Cell(stack, scopes)
    ensures var s1 := WithPc(s, fi, pc + Size(instr));
            && HasContext(s1, fi) && Step(code, s, fi) == Exec(s1, fi, instr)
            && CurrentCell(s1, fi) == Cell(stack, scopes) && s1 == At(s, fi, pc + Size(instr), stack, scopes)
            && Current(s1, fi).pc == pc + Size(instr)
  {
    hide Exec;
    var cs := s.fibers[fi].contexts;
    var c := cs[|cs| - 1];
    assert Init(cs) + [c.(pc := pc + Size(instr))] == cs[|cs| - 1 := c.(pc := pc + Size(instr))];
    assert s.cells[c.cell := s.cells[c.cell]] == s.cells;
  }

  /** At the fetched state other contents can be put in place. */
  lemma AtAgain(s: State, fi: int, pc: int, stack: seq<Val>, scopes: seq<int>, pc': int, stack': seq<Val>,
                scopes': seq<int>)
    requires HasContext(s, fi)
    ensures HasContext(At(s, fi, pc, stack, scopes), fi)
    ensures At(At(s, fi, pc, stack, scopes), fi, pc', stack', scopes') == At(s, fi, pc', stack', scopes')
  {
    var s1, s2 := At(s, fi, pc, stack, scopes), At(s, fi, pc', stack', scopes');
    var s3 := At(s1, fi, pc', stack', scopes');
    assert s3.fibers[fi].contexts == s2.fibers[fi].contexts;
    assert s3.fibers == s2.fibers;
    assert s3.cells == s2.cells;
  }

  lemma CellIs(s: State, fi: int, pc: int, stack: seq<Val>, scopes: seq<int>, cell: Cell)
    requires HasContext(s, fi)
    ensures var s1 := At(s, fi, pc, stack, scopes);
            HasContext(s1, fi) && WithCell(s1, fi, cell) == At(s, fi, pc, cell.stack, cell.scopes)
  {}

  // ---------- variables ----------

  /** ldvar puts the value of the innermost binding on top. */
  lemma LoadGoesOnTop(code: Program, s: State, fi: int, key: string, pc: int, stack: seq<Val>, scopes: seq<int>)
      returns (a: int)
    requires Runs(code, s, fi, LdVar(key), pc, stack, scopes) && WellScoped(s) && |scopes| > 0
    ensures 0 <= scopes[|scopes| - 1] < |s.scopes|
    ensures var c := Chain(s.scopes, scopes[|scopes| - 1]);
            && Innermost(s.scopes, c, key, a)
            && Step(code, s, fi) == if a == |c| then Crash
               else Go(At(s, fi, pc + 5, stack + [s.scopes[c[a]].locals[key]], scopes))
  {
    FetchIs(code, s, fi, LdVar(key), pc, stack, scopes);
    InRange(s, fi);
    a := OwnerIsInnermost(s.scopes, scopes[|scopes| - 1], key);
    var c := Chain(s.scopes, scopes[|scopes| - 1]);
    if a < |c| { CellIs(s, fi, pc + 5, stack, scopes, Cell(stack + [s.scopes[c[a]].locals[key]], scopes)); }
    hide Owner, Chain, At;
  }

  /** stvar and p_stvar bind the key in the current scope to the value on top, and stvar takes that off. */
  lemma StoreBinds(code: Program, s: State, fi: int, key: string, pop: bool, pc: int, stack: seq<Val>, scopes: seq<int>)
    requires Runs(code, s, fi, if pop then StVar(key) else PStVar(key), pc, stack, scopes)
    requires |scopes| > 0 && 0 <= scopes[|scopes| - 1] < |s.scopes| && |stack| > 0
    ensures var id, val := scopes[|scopes| - 1], stack[|stack| - 1];
            var bound := s.scopes[id := s.scopes[id].(locals := s.scopes[id].locals[key := val])];
            Step(code, s, fi)
            == Go(At(s.(scopes := bound), fi, pc + 5, if pop then stack[..|stack| - 1] else stack, scopes))
  {
    var instr := if pop then StVar(key) else PStVar(key);
    FetchIs(code, s, fi, instr, pc, stack, scopes);
    CellIs(s, fi, pc + 5, stack, scopes, Cell(if pop then stack[..|stack| - 1] else stack, scopes));
  }

  /** What was stored is loaded back, and the machine is the old one but for that binding. */
  lemma StoreThenLoad(code: Program, s: State, s1: State, fi: int, key: string, pc: int, stack: seq<Val>,
                      scopes: seq<int>)
    requires Runs(code, s, fi, StVar(key), pc, stack, scopes) && code(pc + 5) == LdVar(key) && WellScoped(s)
    requires |scopes| > 0 && |stack| > 0 && Step(code, s, fi) == Go(s1)
    ensures 0 <= scopes[|scopes| - 1] < |s.scopes|
    ensures var id, val := scopes[|scopes| - 1], stack[|stack| - 1];
            var bound := s.scopes[id := s.scopes[id].(locals := s.scopes[id].locals[key := val])];
            && Step(code, s1, fi) == Go(At(s.(scopes := bound), fi, pc + 10, stack, scopes))
            && (forall from, key' :: key' != key ==> LoadVar(s1.scopes, from, key') == LoadVar(s.scopes, from, key'))
  {
    FetchIs(code, s, fi, StVar(key), pc, stack, scopes);
    InRange(s, fi);
    StoreBinds(code, s, fi, key, true, pc, stack, scopes);
    StepWellScoped(code, s, fi);
    var id, val, popped := scopes[|scopes| - 1], stack[|stack| - 1], stack[..|stack| - 1];
    var bound := s.scopes[id := s.scopes[id].(locals := s.scopes[id].locals[key := val])];
    var s0 := s.(scopes := bound);
    RunsAt(code, s0, fi, pc + 5, popped, scopes);
    AtAgain(s0, fi, pc + 5, popped, scopes, pc + 10, stack, scopes);
    assert popped + [val] == stack;
    hide Step, Exec, Owner, Runs, WellScoped;
    var a := LoadGoesOnTop(code, s1, fi, key, pc + 5, popped, scopes);
    BoundHere(bound, id, key, val, a);
    forall from, key' | key' != key ensures LoadVar(bound, from, key') == LoadVar(s.scopes, from, key') {
      OtherKey(s.scopes, id, key, val, from, key');
    }
  }

  lemma RunsAt(code: Program, s: State, fi: int, pc: int, stack: seq<Val>, scopes: seq<int>)
    requires HasContext(s, fi)
    ensures HasContext(At(s, fi, pc, stack, scopes), fi) && At(s, fi, pc, stack, scopes).scopes == s.scopes
    ensures Runs(code, At(s, fi, pc, stack, scopes), fi, code(pc), pc, stack, scopes)
  {}

  /** A key that the innermost scope binds is found there. */
  lemma BoundHere(scopes: seq<Scope>, id: int, key: string, val: Val, a: int)
    requires Lexical(scopes) && 0 <= id < |scopes| && key in scopes[id].locals && scopes[id].locals[key] == val
    requires Innermost(scopes, Chain(scopes, id), key, a)
    ensures var c := Chain(scopes, id); 0 <= a < |c| && c[a] == id && scopes[c[a]].locals[key] == val
  {
    assert Chain(scopes, id)[0] == id;
  }

  lemma {:induction false} OtherKey(scopes: seq<Scope>, o: int, key: string, val: Val, from: int, key': string)
    requires 0 <= o < |scopes| && key' != key
    ensures var bound := scopes[o := scopes[o].(locals := scopes[o].locals[key := val])];
            Owner(bound, from, key') == Owner(scopes, from, key')
            && LoadVar(bound, from, key') == LoadVar(scopes, from, key')
    decreases from
  {
    if 0 <= from < |scopes| && scopes[from].closure < from {
      OtherKey(scopes, o, key, val, scopes[from].closure, key');
    }
  }

  /** rvar replaces the value of the innermost binding by the one on top, which it takes off. */
  lemma ReplaceBinds(code: Program, s: State, fi: int, key: string, pc: int, stack: seq<Val>, scopes: seq<int>)
      returns (a: int)
    requires Runs(code, s, fi, RVar(key), pc, stack, scopes) && WellScoped(s) && |scopes| > 0 && |stack| > 0
    ensures 0 <= scopes[|scopes| - 1] < |s.scopes|
    ensures var c := Chain(s.scopes, scopes[|scopes| - 1]);
            && Innermost(s.scopes, c, key, a)
            && Step(code, s, fi) == if a == |c| then Crash
               else var o := s.scopes[c[a]].(locals := s.scopes[c[a]].locals[key := stack[|stack| - 1]]);
                    Go(At(s.(scopes := s.scopes[c[a] := o]), fi, pc + 5, stack[..|stack| - 1], scopes))
  {
    FetchIs(code, s, fi, RVar(key), pc, stack, scopes);
    InRange(s, fi);
    a := OwnerIsInnermost(s.scopes, scopes[|scopes| - 1], key);
    CellIs(s, fi, pc + 5, stack, scopes, Cell(stack[..|stack| - 1], scopes));
    hide Owner, Chain;
  }

  // ---------- scopes ----------

  /** pushscope: the new scope binds nothing and closes over the current one, so every load from it gives what it
      gave before, and so does every other load. */
  lemma PushScopeKeepsLoads(code: Program, s: State, fi: int, pc: int, stack: seq<Val>, scopes: seq<int>)
    requires Runs(code, s, fi, PushScope, pc, stack, scopes) && WellScoped(s) && |scopes| > 0
    ensures var n := |s.scopes|;
            var more := s.scopes + [Scope(map[], 0, scopes[|scopes| - 1], false)];
            && Step(code, s, fi) == Go(At(s.(scopes := more), fi, pc + 1, stack, scopes + [n]))
            && (forall key :: LoadVar(more, n, key) == LoadVar(s.scopes, scopes[|scopes| - 1], key))
            && (forall from, key :: from < n ==> LoadVar(more, from, key) == LoadVar(s.scopes, from, key))
  {
    FetchIs(code, s, fi, PushScope, pc, stack, scopes);
    InRange(s, fi);
    var n, top := |s.scopes|, scopes[|scopes| - 1];
    var pushed := Scope(map[], 0, top, false);
    var more := s.scopes + [pushed];
    CellIs(s, fi, pc + 1, stack, scopes, Cell(stack, scopes + [n]));
    forall from, key | from < n ensures LoadVar(more, from, key) == LoadVar(s.scopes, from, key) {
      NewScopeKeepsLoads(s.scopes, pushed, from, key);
    }
    forall key ensures LoadVar(more, n, key) == LoadVar(s.scopes, top, key) {
      assert more[n] == pushed && LoadVar(more, top, key) == LoadVar(s.scopes, top, key);
    }
  }

  /** popscope: the scope array without its last element. */
  lemma PopScopeDrops(code: Program, s: State, fi: int, pc: int, stack: seq<Val>, scopes: seq<int>)
    requires Runs(code, s, fi, PopScope, pc, stack, scopes)
    ensures Step(code, s, fi)
         == if |scopes| == 0 then Crash else Go(At(s, fi, pc + 1, stack, scopes[..|scopes| - 1]))
  {
    FetchIs(code, s, fi, PopScope, pc, stack, scopes);
    if |scopes| > 0 { CellIs(s, fi, pc + 1, stack, scopes, Cell(stack, scopes[..|scopes| - 1])); }
  }

  /** A scope that is pushed and popped leaves the stack, the scope array and what every load gives. */
  lemma PushThenPop(code: Program, s: State, s1: State, fi: int, pc: int, stack: seq<Val>, scopes: seq<int>)
    requires Runs(code, s, fi, PushScope, pc, stack, scopes) && code(pc + 1) == PopScope && WellScoped(s)
    requires Step(code, s, fi) == Go(s1)
    ensures |scopes| > 0 && |s1.scopes| == |s.scopes| + 1
    ensures Step(code, s1, fi) == Go(At(s.(scopes := s1.scopes), fi, pc + 2, stack, scopes))
    ensures forall from, key :: from < |s.scopes| ==> LoadVar(s1.scopes, from, key) == LoadVar(s.scopes, from, key)
  {
    FetchIs(code, s, fi, PushScope, pc, stack, scopes);
    PushScopeKeepsLoads(code, s, fi, pc, stack, scopes);
    var n := |s.scopes|;
    assert Runs(code, s1, fi, PopScope, pc + 1, stack, scopes + [n]);
    PopScopeDrops(code, s1, fi, pc + 1, stack, scopes + [n]);
    assert (scopes + [n])[..|scopes|] == scopes;
    AtAgain(s.(scopes := s1.scopes), fi, pc + 1, stack, scopes + [n], pc + 2, stack, scopes);
  }

  // ---------- ret ----------

  /** Position p of the scope array is the last one whose scope has a return address. */
  ghost predicate LastReturn(all: seq<Scope>, scopes: seq<int>, p: int) {
    && 0 <= p < |scopes| && (forall q :: p <= q < |scopes| ==> 0 <= scopes[q] < |all|)
    && all[scopes[p]].returnAddress != 0
    && forall q :: p < q < |scopes| ==> all[scopes[q]].returnAddress == 0
  }

  lemma {:induction false} UnwindIs(all: seq<Scope>, scopes: seq<int>, p: int)
    requires LastReturn(all, scopes, p)
    ensures Unwind(all, scopes) == Some(p)
    decreases |scopes|
  {
    if p < |scopes| - 1 { UnwindIs(all, scopes[..|scopes| - 1], p); }
  }

  /** ret: with one scope the program ends; otherwise the scope array loses everything from the last return address
      on.  Execution goes on there with the evaluation stack as it is, or the fiber ends, the others stay, and a
      fiber that is alone then can run. */
  lemma RetGoesBack(code: Program, s: State, fi: int, pc: int, stack: seq<Val>, scopes: seq<int>, p: int)
    requires Runs(code, s, fi, Ret, pc, stack, scopes) && |scopes| > 1 && LastReturn(s.scopes, scopes, p)
    ensures var back, o := s.scopes[scopes[p]], Step(code, s, fi);
            if !back.isFiber then o == Go(At(s, fi, back.returnAddress, stack, scopes[..p]))
            else
              var rest := s.fibers[..fi] + s.fibers[fi + 1..];
              o == Ended(At(s, fi, pc + 1, stack, scopes[..p])
                         .(fibers := if |rest| == 1 then [rest[0].(awaiting := Nothing)] else rest))
  {
    FetchIs(code, s, fi, Ret, pc, stack, scopes);
    UnwindIs(s.scopes, scopes, p);
    CellIs(s, fi, pc + 1, stack, scopes, Cell(stack, scopes[..p]));
    AtAgain(s, fi, pc + 1, stack, scopes[..p], s.scopes[scopes[p]].returnAddress, stack, scopes[..p]);
    var s2 := At(s, fi, pc + 1, stack, scopes[..p]);
    PcIs(s2, fi, s.scopes[scopes[p]].returnAddress, stack, scopes[..p]);
    assert s2.fibers[..fi] == s.fibers[..fi] && s2.fibers[fi + 1..] == s.fibers[fi + 1..];
  }

  lemma PcIs(s: State, fi: int, pc: int, stack: seq<Val>, scopes: seq<int>)
    requires HasContext(s, fi) && CurrentCell(s, fi) == Cell(stack, scopes)
    ensures WithPc(s, fi, pc) == At(s, fi, pc, stack, scopes)
  {
    var cs := s.fibers[fi].contexts;
    var c := cs[|cs| - 1];
    assert Init(cs) + [c.(pc := pc)] == cs[|cs| - 1 := c.(pc := pc)];
    assert s.cells[c.cell := s.cells[c.cell]] == s.cells;
  }

  lemma RetEndsProgram(code: Program, s: State, fi: int, pc: int, stack: seq<Val>, scope: int)
    requires Runs(code, s, fi, Ret, pc, stack, [scope])
    ensures Step(code, s, fi) == Over(At(s, fi, pc + 1, stack, []))
  {
    FetchIs(code, s, fi, Ret, pc, stack, [scope]);
    CellIs(s, fi, pc + 1, stack, [scope], Cell(stack, []));
  }

  // ---------- local instructions, join, cut, raw input ----------

  /** An instruction on stack, arrays and address alone does to them what it does, and nothing else. */
  lemma LocalActs(code: Program, s: State, fi: int, size: nat, effect: (Arrays, int, seq<Val>) -> Effect,
                  pc: int, stack: seq<Val>, scopes: seq<int>)
    requires Runs(code, s, fi, Local(size, effect), pc, stack, scopes)
    ensures Step(code, s, fi)
         == match effect(s.arrays, pc + size, stack)
            case Done(arrays, next, left) => Go(At(s.(arrays := arrays), fi, next, left, scopes))
            case Died => Crash
  {
    FetchIs(code, s, fi, Local(size, effect), pc, stack, scopes);
    var e := effect(s.arrays, pc + size, stack);
    if e.Done? {
      var s1 := s.(arrays := e.arrays);
      AtAgain(s1, fi, pc + size, stack, scopes, e.pc, stack, scopes);
      PcIs(At(s1, fi, pc + size, stack, scopes), fi, e.pc, stack, scopes);
      CellIs(s1, fi, e.pc, stack, scopes, Cell(e.stack, scopes));
    }
  }

  /** join: the root waits behind it; any other fiber dies of it. */
  lemma JoinWaits(code: Program, s: State, fi: int, pc: int, stack: seq<Val>, scopes: seq<int>)
    requires Runs(code, s, fi, JoinFibers, pc, stack, scopes)
    ensures var s1 := At(s, fi, pc + 1, stack, scopes);
            Step(code, s, fi)
            == if fi != 0 then Crash else Wait(s1.(fibers := s1.fibers[0 := s1.fibers[0].(awaiting := Join)]))
  {
    FetchIs(code, s, fi, JoinFibers, pc, stack, scopes);
  }

  /** cut: the current context is the only one left. */
  lemma CutKeepsCurrent(code: Program, s: State, fi: int, pc: int, stack: seq<Val>, scopes: seq<int>)
    requires Runs(code, s, fi, Cut, pc, stack, scopes)
    ensures var f := s.fibers[fi];
            Step(code, s, fi)
            == Go(s.(fibers := s.fibers[fi := f.(contexts := [f.contexts[|f.contexts| - 1].(pc := pc + 1)])]))
  {
    FetchIs(code, s, fi, Cut, pc, stack, scopes);
    var f, s1 := s.fibers[fi], At(s, fi, pc + 1, stack, scopes);
    assert s1.cells == s.cells;
    var after := s1.fibers[fi := s1.fibers[fi].(contexts := [Current(s1, fi)])];
    assert after == s.fibers[fi := f.(contexts := [f.contexts[|f.contexts| - 1].(pc := pc + 1)])];
  }

  /** getraw takes the client off the stack and waits for its data. */
  lemma RawIsAwaited(code: Program, s: State, fi: int, pc: int, stack: seq<Val>, scopes: seq<int>)
    requires Runs(code, s, fi, GetRaw, pc, stack, scopes) && |stack| > 0
    ensures var s1 := At(s, fi, pc + 1, stack[..|stack| - 1], scopes);
            var f := s1.fibers[fi].(awaiting := RawData, client := stack[|stack| - 1], choices := map[]);
            Step(code, s, fi) == Wait(s1.(fibers := s1.fibers[fi := f]))
  {
    FetchIs(code, s, fi, GetRaw, pc, stack, scopes);
    CellIs(s, fi, pc + 1, stack, scopes, Cell(stack[..|stack| - 1], scopes));
  }

  // ---------- requests and answers ----------

  /** The text behind the last occurrence of a key among the elements i, i + 2, ... */
  ghost predicate LastText(request: seq<Val>, i: nat, key: Val, text: Val) {
    exists j :: IsPair(request, i, j, key) && text == request[j + 1]
      && forall k :: j < k ==> !IsPair(request, i, k, key)
  }

  ghost predicate IsPair(request: seq<Val>, i: nat, j: int, key: Val) {
    i <= j < |request| - 1 && (j - i) % 2 == 0 && request[j] == key
  }

  /** The choices of a request: every key with the text behind its last occurrence, and what there was already. */
  lemma {:induction false} ChoiceTexts(request: seq<Val>, i: nat, choices: map<Val, Val>, key: Val)
    ensures var c := Choices(request, i, choices);
            if HasKey(request, i, key) then key in c && LastText(request, i, key, c[key])
            else (key in c <==> key in choices) && (key in c ==> c[key] == choices[key])
    decreases |request| - i
  {
    if i + 1 < |request| {
      var next := choices[request[i] := request[i + 1]];
      ChoiceTexts(request, i + 2, next, key);
      if HasKey(request, i + 2, key) {
        var c, n := Choices(request, i, choices), i + 2;
        var j :| IsPair(request, n, j, key) && c[key] == request[j + 1]
                 && forall k :: j < k ==> !IsPair(request, n, k, key);
        assert IsPair(request, i, j, key);
        forall k | j < k ensures !IsPair(request, i, k, key) { assert !IsPair(request, n, k, key); }
      } else if request[i] == key {
        assert IsPair(request, i, i, key);
        forall k | i < k ensures !IsPair(request, i, k, key) {
          if IsPair(request, i, k, key) { PairIsKey(request, i + 2, k, key); }
        }
      }
    }
  }

  lemma {:induction false} PairIsKey(request: seq<Val>, i: nat, k: int, key: Val)
    requires IsPair(request, i, k, key)
    ensures HasKey(request, i, key)
    decreases |request| - i
  {
    if k != i { PairIsKey(request, i + 2, k, key); }
  }

  /** suspend: a second context goes on behind it without the two operands, and waits for the client, who is sent the
      header and the choices: the keys of the request with their texts, and undo if there is something to undo. */
  lemma SuspendAsks(code: Program, s: State, fi: int, pc: int, rest: seq<Val>, a: int, client: Val, scopes: seq<int>)
      returns (choices: map<Val, Val>)
    requires Runs(code, s, fi, Suspend, pc, rest + [Arr(a), client], scopes) && client.Str?
    requires a in s.arrays && |s.arrays[a]| % 2 == 1
    ensures var f, request := s.fibers[fi], s.arrays[a];
            var n := |f.contexts|;
            var asked := f.contexts[n - 1 := f.contexts[n - 1].(pc := pc + 1)];
            var contexts := asked + [Context(s.maxId, pc + 1, |s.cells|)];
            && Step(code, s, fi) == Wait(s.(fibers := s.fibers[fi := Fiber(f.id, contexts, Choice, client, choices)],
                                            cells := s.cells + [Cell(rest, scopes)], maxId := s.maxId + 1,
                                            sent := s.sent + [Request(client, f.id, request[0], choices)]))
            && forall key ::
                 if HasKey(request, 1, key) then key in choices && LastText(request, 1, key, choices[key])
                 else (key in choices <==> key == UNDO && n >= 2) && (key in choices ==> choices[key] == Str("UNDO"))
  {
    var stack := rest + [Arr(a), client];
    FetchIs(code, s, fi, Suspend, pc, stack, scopes);
    var request, s1 := s.arrays[a], At(s, fi, pc + 1, stack, scopes);
    var undo := if |s.fibers[fi].contexts| + 1 > 2 then map[UNDO := Str("UNDO")] else map[];
    choices := Choices(request, 1, undo);
    forall key ensures if HasKey(request, 1, key) then key in choices && LastText(request, 1, key, choices[key])
                       else (key in choices <==> key in undo) && (key in choices ==> choices[key] == undo[key])
    {
      ChoiceTexts(request, 1, undo, key);
    }
    assert stack[..|stack| - 2] == rest && HasRequest(s1, stack);
    assert s1.cells == s.cells;
    hide Choices, HasKey, LastText;
    var o := ExecSuspend(s1, fi);
    assert o.s.fibers == s.fibers[fi := o.s.fibers[fi]];
  }

  /** A request must have a client on top and an array of odd length below. */
  lemma SuspendNeedsRequest(code: Program, s: State, fi: int, pc: int, stack: seq<Val>, scopes: seq<int>)
    requires Runs(code, s, fi, Suspend, pc, stack, scopes)
    ensures Step(code, s, fi).Crash?
       <==> |stack| < 2 || !stack[|stack| - 1].Str? || !stack[|stack| - 2].Arr?
            || stack[|stack| - 2].a !in s.arrays || |s.arrays[stack[|stack| - 2].a]| % 2 == 0
  {
    FetchIs(code, s, fi, Suspend, pc, stack, scopes);
  }

  /** Fiber fi is the first that awaits this from the client, and has this current context. */
  ghost predicate Awaits(s: State, fi: int, kind: Awaiting, client: Val, pc: int, stack: seq<Val>, scopes: seq<int>) {
    && HasContext(s, fi) && !s.gameOver && client in s.players
    && s.fibers[fi].awaiting == kind && s.fibers[fi].client == client
    && (forall j :: 0 <= j < fi ==> s.fibers[j].awaiting != kind || s.fibers[j].client != client)
    && var c := s.fibers[fi].contexts[|s.fibers[fi].contexts| - 1];
       c.pc == pc && s.cells[c.cell] == Cell(stack, scopes)
  }

  lemma FirstWaits(s: State, fi: int, kind: Awaiting, client: Val, pc: int, stack: seq<Val>, scopes: seq<int>)
    requires Awaits(s, fi, kind, client, pc, stack, scopes)
    ensures Waiting(s.fibers, kind, client) == fi
  {}

  /** An answer goes on top of the stack and the fiber can run; everything else is as it was. */
  lemma AnswerGoesOnTop(code: Program, s: State, client: Val, choice: Val, s': State,
                        fi: int, pc: int, stack: seq<Val>, scopes: seq<int>)
    requires Awaits(s, fi, Choice, client, pc, stack, scopes) && choice in s.fibers[fi].choices && choice != UNDO
    ensures Next(code, s, Answer(client, choice), s')
       <==> var s1 := At(s, fi, pc, stack + [choice], scopes);
            s' == s1.(fibers := s1.fibers[fi := s1.fibers[fi].(awaiting := Nothing, choices := map[])])
  {
    FirstWaits(s, fi, Choice, client, pc, stack, scopes);
    SamePc(s, fi, pc, stack + [choice], scopes);
  }

  /** So does raw data. */
  lemma RawGoesOnTop(code: Program, s: State, client: Val, data: Val, s': State,
                     fi: int, pc: int, stack: seq<Val>, scopes: seq<int>)
    requires Awaits(s, fi, RawData, client, pc, stack, scopes)
    ensures Next(code, s, RawAnswer(client, data), s')
       <==> var s1 := At(s, fi, pc, stack + [data], scopes);
            s' == s1.(fibers := s1.fibers[fi := s1.fibers[fi].(awaiting := Nothing)])
  {
    FirstWaits(s, fi, RawData, client, pc, stack, scopes);
    SamePc(s, fi, pc, stack + [data], scopes);
  }

  lemma SamePc(s: State, fi: int, pc: int, stack: seq<Val>, scopes: seq<int>)
    requires HasContext(s, fi) && Current(s, fi).pc == pc
    ensures At(s, fi, pc, stack, scopes) == s.(cells := s.cells[Current(s, fi).cell := Cell(stack, scopes)])
  {
    var cs := s.fibers[fi].contexts;
    assert cs[|cs| - 1 := cs[|cs| - 1].(pc := pc)] == cs;
    assert s.fibers[fi := s.fibers[fi]] == s.fibers;
  }

  /** An undo goes back to the context before the last saved one, onto its suspend; no stack changes. */
  lemma UndoGoesBack(code: Program, s: State, client: Val, s': State, fi: int, pc: int, stack: seq<Val>,
                     scopes: seq<int>)
    requires Awaits(s, fi, Choice, client, pc, stack, scopes) && UNDO in s.fibers[fi].choices
             && |s.fibers[fi].contexts| >= 3
    ensures var f := s.fibers[fi];
            var n := |f.contexts| - 3;
            var contexts := f.contexts[..n] + [f.contexts[n].(pc := f.contexts[n].pc - 1)];
            Next(code, s, Answer(client, UNDO), s')
            <==> s' == s.(fibers := s.fibers[fi := f.(contexts := contexts, awaiting := Nothing, choices := map[])])
  {
    FirstWaits(s, fi, Choice, client, pc, stack, scopes);
    var cs := s.fibers[fi].contexts;
    assert Init(cs[..|cs| - 2]) == cs[..|cs| - 3];
  }

  /** Every other message changes nothing. */
  lemma OthersIgnored(code: Program, s: State, e: Event, s': State)
    requires e.Answer? || e.RawAnswer?
    requires s.gameOver || e.client !in s.players
             || (forall j :: 0 <= j < |s.fibers| ==>
                   s.fibers[j].awaiting != (if e.Answer? then Choice else RawData) || s.fibers[j].client != e.client)
    ensures Next(code, s, e, s') <==> s' == s
  {}

  lemma UnknownChoiceIgnored(code: Program, s: State, client: Val, choice: Val, s': State,
                             fi: int, pc: int, stack: seq<Val>, scopes: seq<int>)
    requires Awaits(s, fi, Choice, client, pc, stack, scopes) && choice !in s.fibers[fi].choices
    ensures Next(code, s, Answer(client, choice), s') <==> s' == s
  {
    FirstWaits(s, fi, Choice, client, pc, stack, scopes);
  }

  /** A request and its answer: the choice takes the place of the two operands, behind the suspend. */
  lemma SuspendThenAnswer(code: Program, s: State, s1: State, s2: State, choice: Val,
                          fi: int, pc: int, rest: seq<Val>, a: int, client: Val, scopes: seq<int>)
    requires Runs(code, s, fi, Suspend, pc, rest + [Arr(a), client], scopes) && Step(code, s, fi) == Wait(s1)
    requires Awaits(s1, fi, Choice, client, pc + 1, rest, scopes) && choice in s1.fibers[fi].choices && choice != UNDO
    requires Next(code, s1, Answer(client, choice), s2)
    ensures Runs(code, s2, fi, code(pc + 1), pc + 1, rest + [choice], scopes) && s2.fibers[fi].awaiting == Nothing
  {
    AnswerGoesOnTop(code, s1, client, choice, s2, fi, pc + 1, rest, scopes);
  }

  // ---------- functions ----------

  /** lambda puts a function on the stack that closes over the current scope. */
  lemma LambdaCloses(code: Program, s: State, fi: int, location: int, pc: int, stack: seq<Val>, scopes: seq<int>)
    requires Runs(code, s, fi, Lambda(location), pc, stack, scopes) && |scopes| > 0
    ensures Step(code, s, fi)
         == Go(At(s.(funcs := s.funcs + [Func(scopes[|scopes| - 1], pc + location)]), fi, pc + 5,
                  stack + [Fun(|s.funcs|)], scopes))
  {
    FetchIs(code, s, fi, Lambda(location), pc, stack, scopes);
    CellIs(s, fi, pc + 5, stack, scopes, Cell(stack + [Fun(|s.funcs|)], scopes));
  }

  /** apply takes the function from below its argument and runs it in a new scope. */
  lemma ApplyRuns(code: Program, s: State, fi: int, pc: int, rest: seq<Val>, f: int, arg: Val, scopes: seq<int>)
    requires Runs(code, s, fi, Apply, pc, rest + [Fun(f), arg], scopes) && 0 <= f < |s.funcs|
    ensures Step(code, s, fi)
         == Go(At(s.(scopes := s.scopes + [Scope(map[], pc + 1, s.funcs[f].closure, false)]), fi, s.funcs[f].address,
                  rest + [arg], scopes + [|s.scopes|]))
  {
    var stack := rest + [Fun(f), arg];
    FetchIs(code, s, fi, Apply, pc, stack, scopes);
    assert stack[..|stack| - 2] == rest;
    var s1 := s.(scopes := s.scopes + [Scope(map[], pc + 1, s.funcs[f].closure, false)]);
    AtAgain(s1, fi, pc + 1, stack, scopes, s.funcs[f].address, stack, scopes);
    PcIs(At(s1, fi, pc + 1, stack, scopes), fi, s.funcs[f].address, stack, scopes);
    CellIs(s1, fi, s.funcs[f].address, stack, scopes, Cell(rest + [arg], scopes + [|s.scopes|]));
  }

  /** fork takes function and argument off the root's stack and adds a fiber that runs the function: its stack holds
      the argument, its scopes are an empty one and the entry scope that ends it. */
  lemma ForkAddsFiber(code: Program, s: State, pc: int, rest: seq<Val>, f: int, arg: Val, scopes: seq<int>)
    requires Runs(code, s, 0, Fork, pc, rest + [Fun(f), arg], scopes) && 0 <= f < |s.funcs|
             && |s.fibers[0].contexts| == 1
    ensures var s1, g, m := At(s, 0, pc + 1, rest, scopes), s.funcs[f], |s.scopes|;
            Step(code, s, 0)
            == Go(s1.(fibers := s1.fibers
                        + [Fiber(s.maxId, [Context(s.maxId + 1, g.address, |s.cells|)], Nothing, Int(0), map[])],
                      cells := s1.cells + [Cell([arg], [m, m + 1])],
                      scopes := s.scopes + [Scope(map[], 0, NO_SCOPE, false), Scope(map[], g.address, g.closure, true)],
                      maxId := s.maxId + 2))
  {
    var stack := rest + [Fun(f), arg];
    FetchIs(code, s, 0, Fork, pc, stack, scopes);
    assert stack[..|stack| - 2] == rest && stack[|stack| - 2] == Fun(f) && Last(stack) == arg;
    CellIs(s, 0, pc + 1, stack, scopes, Cell(rest, scopes));
  }

  /** The operands of apply and fork: a function below its argument. */
  ghost predicate IsCall(s: State, stack: seq<Val>) {
    |stack| >= 2 && stack[|stack| - 2].Fun? && 0 <= stack[|stack| - 2].f < |s.funcs|
  }

  /** What the program dies of. */
  lemma OperandsNeeded(code: Program, s: State, fi: int, instr: Instr, pc: int, stack: seq<Val>, scopes: seq<int>)
    requires Runs(code, s, fi, instr, pc, stack, scopes)
    ensures instr.StVar? || instr.PStVar? ==>
              (Step(code, s, fi).Crash?
               <==> |scopes| == 0 || |stack| == 0 || !(0 <= scopes[|scopes| - 1] < |s.scopes|))
    ensures instr.LdVar? && |scopes| == 0 ==> Step(code, s, fi).Crash?
    ensures instr.RVar? && (|scopes| == 0 || |stack| == 0) ==> Step(code, s, fi).Crash?
    ensures instr.PushScope? || instr.Lambda? || instr.PopScope? ==> (Step(code, s, fi).Crash? <==> |scopes| == 0)
    ensures instr.GetRaw? ==> (Step(code, s, fi).Crash? <==> |stack| == 0)
    ensures instr.Apply? ==> (Step(code, s, fi).Crash? <==> !IsCall(s, stack))
    ensures instr.Fork? ==> (Step(code, s, fi).Crash? <==> fi != 0 || |s.fibers[0].contexts| != 1 || !IsCall(s, stack))
    ensures instr.Ret? && |scopes| == 0 ==> Step(code, s, fi).Crash?
  {
    FetchIs(code, s, fi, instr, pc, stack, scopes);
    hide Step, Unwind, Owner;
  }

  lemma InRange(s: State, fi: int)
    requires WellScoped(s) && HasContext(s, fi)
    ensures var scopes := CurrentCell(s, fi).scopes;
            |scopes| > 0 ==> 0 <= scopes[|scopes| - 1] < |s.scopes|
  {
    assert InScope(CurrentCell(s, fi), |s.scopes|);
  }
}
