/** What one event can do to the saved contexts of each fiber (vm/vm.c): execution changes only the top
    context, suspend adds one, undo drops two, cut drops all but one. */
module VmRuns {
  import opened VmSpec

  /** What the run loop or a message does to the machine. */
  datatype Event = StepFiber(index: int) | Answer(client: Val, choice: Val) | RawAnswer(client: Val, data: Val)

  /** One event that neither ends the program nor crashes it. */
  ghost predicate Next(code: Program, s: State, e: Event, s': State) {
    match e
    case StepFiber(i) =>
      && 0 <= i < |s.fibers| && s.fibers[i].awaiting == Nothing
      && var o := Step(code, s, i);
         (o == Go(s') || o == Wait(s') || o == Ended(s'))
    case Answer(client, choice) => Respond(s, client, choice) == Go(s')
    case RawAnswer(client, data) => RespondRaw(s, client, data) == Go(s')
  }

  // ---------- separation ----------

  /** Every fiber has a context, every context has objects of its own, and fibers have their own ids. */
  ghost predicate Separate(s: State) {
    && (forall i :: 0 <= i < |s.fibers| ==> s.fibers[i].contexts != [])
    && (forall i, a :: 0 <= i < |s.fibers| && 0 <= a < |s.fibers[i].contexts| ==>
          0 <= s.fibers[i].contexts[a].cell < |s.cells| && s.fibers[i].contexts[a].id < s.maxId)
    && CellsDistinct(s.fibers)
    && (forall i :: 0 <= i < |s.fibers| ==> s.fibers[i].id < s.maxId)
    && (forall i, j :: 0 <= i < j < |s.fibers| ==> s.fibers[i].id != s.fibers[j].id)
  }

  ghost predicate CellsDistinct(fibers: seq<Fiber>) {
    forall i, j, a, b ::
      (&& 0 <= i < |fibers| && 0 <= j < |fibers|
       && 0 <= a < |fibers[i].contexts| && 0 <= b < |fibers[j].contexts|
       && fibers[i].contexts[a].cell == fibers[j].contexts[b].cell)
      ==> i == j && a == b
  }

  /** A context with the contents of its evaluation stack and of its scope array. */
  datatype View = View(id: int, pc: int, stack: seq<Val>, scopes: seq<int>)

  ghost function ViewOf(s: State, c: Context): View {
    if 0 <= c.cell < |s.cells| then View(c.id, c.pc, s.cells[c.cell].stack, s.cells[c.cell].scopes)
    else View(c.id, c.pc, [], [])
  }

  ghost function Views(s: State, i: int): (r: seq<View>)
    requires 0 <= i < |s.fibers|
    ensures |r| == |s.fibers[i].contexts|
    ensures forall a :: 0 <= a < |r| ==> r[a] == ViewOf(s, s.fibers[i].contexts[a])
  {
    var contexts := s.fibers[i].contexts;
    seq(|contexts|, a requires 0 <= a < |contexts| => ViewOf(s, contexts[a]))
  }

  // ---------- what an event does to one fiber ----------

  datatype Change = Same | Worked | Suspended | WasCut | Undone

  ghost predicate Changes(kind: Change, v: seq<View>, v': seq<View>) {
    match kind
    case Same => v' == v
    case Worked => v != [] && |v'| == |v| && Init(v') == Init(v) && Last(v').id == Last(v).id
    case Suspended =>
      && v != [] && |v'| == |v| + 1 && v'[..|v|] == Init(v) + [Last(v).(pc := Last(v).pc + 1)]
      && |Last(v).stack| >= 2
      && Last(v').pc == Last(v).pc + 1 && Last(v').scopes == Last(v).scopes
      && Last(v').stack == Last(v).stack[..|Last(v).stack| - 2]
    case WasCut => v != [] && v' == [Last(v).(pc := Last(v).pc + 1)]
    case Undone => |v| >= 3 && v' == v[..|v| - 3] + [v[|v| - 3].(pc := v[|v| - 3].pc - 1)]
  }

  ghost function Kind(code: Program, s: State, e: Event, i: int): Change
    requires 0 <= i < |s.fibers|
  {
    match e
    case StepFiber(k) =>
      if k != i || s.fibers[i].contexts == [] then Same
      else (match code(Last(s.fibers[i].contexts).pc)
            case Suspend => Suspended
            case Cut => WasCut
            case _ => Worked)
    case Answer(client, choice) =>
      if Accepts(s, Choice, client, i) && choice in s.fibers[i].choices then (if choice == UNDO then Undone else Worked)
      else Same
    case RawAnswer(client, data) => if Accepts(s, RawData, client, i) then Worked else Same
  }

  /** Fiber i is the one that takes the next answer of this kind from this client. */
  ghost predicate Accepts(s: State, kind: Awaiting, client: Val, i: int) {
    !s.gameOver && client in s.players && Waiting(s.fibers, kind, client) == i < |s.fibers|
  }

  /** Only the top context of fiber fi may have changed; there may be new fibers and new objects. */
  ghost predicate OnlyTop(s: State, s': State, fi: int) {
    && HasContext(s, fi) && |s.fibers| <= |s'.fibers| && |s.cells| <= |s'.cells|
    && (forall j :: 0 <= j < |s.fibers| && j != fi ==> s'.fibers[j] == s.fibers[j])
    && s'.fibers[fi].id == s.fibers[fi].id
    && s'.fibers[fi].contexts != [] && Init(s'.fibers[fi].contexts) == Init(s.fibers[fi].contexts)
    && Last(s'.fibers[fi].contexts).cell == Current(s, fi).cell && Last(s'.fibers[fi].contexts).id == Current(s, fi).id
    && (forall k :: 0 <= k < |s.cells| && k != Current(s, fi).cell ==> s'.cells[k] == s.cells[k])
    && s'.maxId >= s.maxId
    && (forall j :: |s.fibers| <= j < |s'.fibers| ==> s.maxId <= s'.fibers[j].id)
  }

  lemma FetchOnlyTop(s: State, fi: int, pc: int)
    requires HasContext(s, fi)
    ensures OnlyTop(s, WithPc(s, fi, pc), fi)
  {}

  /** The fetch changes nothing but the current pc. */
  lemma FetchKeeps(s: State, fi: int, pc: int)
    requires HasContext(s, fi)
    ensures var s1 := WithPc(s, fi, pc);
            && HasContext(s1, fi) && Current(s1, fi) == Current(s, fi).(pc := pc)
            && CurrentCell(s1, fi) == CurrentCell(s, fi)
            && s1 == s.(fibers := s1.fibers) && |s1.fibers| == |s.fibers|
            && s1.fibers[fi] == s.fibers[fi].(contexts := s1.fibers[fi].contexts)
            && (forall j :: 0 <= j < |s.fibers| && j != fi ==> s1.fibers[j] == s.fibers[j])
  {}

  lemma OnlyTopTransitive(s: State, s1: State, s2: State, fi: int)
    requires OnlyTop(s, s1, fi) && OnlyTop(s1, s2, fi)
    ensures OnlyTop(s, s2, fi)
  {}

  predicate Plain(i: Instr) {
    !i.Suspend? && !i.Cut?
  }

  /** An instruction other than suspend and cut works on the top context. */
  lemma ExecOnlyTop(s: State, fi: int, instr: Instr)
    requires HasContext(s, fi) && Plain(instr)
    ensures var o := Exec(s, fi, instr); o.Go? || o.Wait? ==> OnlyTop(s, o.s, fi)
  {
    match instr
    case Ret => RetOnlyTop(s, fi);
    case Fork => ForkOnlyTop(s, fi);
    case Apply => ApplyOnlyTop(s, fi);
    case _ =>
  }

  lemma RetOnlyTop(s: State, fi: int)
    requires HasContext(s, fi)
    ensures var o := ExecRet(s, fi); o.Go? || o.Wait? ==> OnlyTop(s, o.s, fi)
  {}

  lemma ForkOnlyTop(s: State, fi: int)
    requires HasContext(s, fi)
    ensures var o := ExecFork(s, fi); o.Go? || o.Wait? ==> OnlyTop(s, o.s, fi)
  {}

  lemma ApplyOnlyTop(s: State, fi: int)
    requires HasContext(s, fi)
    ensures var o := ExecApply(s, fi); o.Go? || o.Wait? ==> OnlyTop(s, o.s, fi)
  {}

  lemma OnlyTopViews(s: State, s': State, fi: int, i: int)
    requires Separate(s) && OnlyTop(s, s', fi) && 0 <= i < |s.fibers|
    ensures Changes(if i == fi then Worked else Same, Views(s, i), Views(s', i))
  {
    var v, v' := Views(s, i), Views(s', i);
    var cell := Current(s, fi).cell;
    if i == fi {
      var cs, cs' := s.fibers[i].contexts, s'.fibers[i].contexts;
      assert |cs'| == |cs| by { assert |Init(cs')| == |Init(cs)|; }
      forall a | 0 <= a < |cs| - 1 ensures v'[a] == v[a] {
        assert cs'[a] == Init(cs')[a] == Init(cs)[a] == cs[a];
        assert cs[a].cell != cs[|cs| - 1].cell;
      }
      assert Init(v') == Init(v);
    } else {
      forall a | 0 <= a < |v| ensures v'[a] == v[a] {
        assert s.fibers[i].contexts[a].cell != s.fibers[fi].contexts[|s.fibers[fi].contexts| - 1].cell;
      }
      assert v' == v;
    }
  }

  // ---------- separation is kept ----------

  /** The contexts of fiber fi are replaced by contexts with some of its cells, in order. */
  ghost predicate KeepsCells(s: State, s': State, fi: int) {
    && 0 <= fi < |s.fibers| && |s'.fibers| == |s.fibers| && |s'.cells| == |s.cells| && s'.maxId == s.maxId
    && (forall j :: 0 <= j < |s.fibers| ==> s'.fibers[j].id == s.fibers[j].id)
    && (forall j :: 0 <= j < |s.fibers| && j != fi ==> s'.fibers[j].contexts == s.fibers[j].contexts)
    && var cs, cs' := s.fibers[fi].contexts, s'.fibers[fi].contexts;
       && 0 < |cs'| <= |cs|
       && ((forall a :: 0 <= a < |cs'| ==> cs'[a].cell == cs[a].cell && cs'[a].id == cs[a].id)
           || (|cs'| == 1 && cs'[0].cell == Last(cs).cell && cs'[0].id == Last(cs).id))
  }

  lemma SameCellsSeparate(s: State, s': State, fi: int)
    requires Separate(s) && KeepsCells(s, s', fi)
    ensures Separate(s')
  {
    KeptDistinct(s, s', fi);
    hide CellsDistinct;
  }

  lemma KeptDistinct(s: State, s': State, fi: int)
    requires CellsDistinct(s.fibers) && KeepsCells(s, s', fi)
    ensures CellsDistinct(s'.fibers)
  {
    forall i, j, a, b | 0 <= i < |s'.fibers| && 0 <= j < |s'.fibers|
        && 0 <= a < |s'.fibers[i].contexts| && 0 <= b < |s'.fibers[j].contexts|
        && s'.fibers[i].contexts[a].cell == s'.fibers[j].contexts[b].cell
      ensures i == j && a == b
    {
      var a' := KeptAt(s, s', fi, i, a);
      var b' := KeptAt(s, s', fi, j, b);
      assert s.fibers[i].contexts[a'].cell == s.fibers[j].contexts[b'].cell;
    }
  }

  lemma KeptAt(s: State, s': State, fi: int, i: int, a: int) returns (a': int)
    requires KeepsCells(s, s', fi) && 0 <= i < |s.fibers| && 0 <= a < |s'.fibers[i].contexts|
    ensures 0 <= a' < |s.fibers[i].contexts| && s'.fibers[i].contexts[a].cell == s.fibers[i].contexts[a'].cell
    ensures a' == a || (i == fi && |s'.fibers[i].contexts| == 1 && a' == |s.fibers[i].contexts| - 1)
  {
    var cs, cs' := s.fibers[fi].contexts, s'.fibers[fi].contexts;
    a' := if i == fi && cs'[a].cell != cs[a].cell then |cs| - 1 else a;
  }

  lemma FetchSeparate(s: State, fi: int, pc: int)
    requires Separate(s) && HasContext(s, fi)
    ensures Separate(WithPc(s, fi, pc)) && HasContext(WithPc(s, fi, pc), fi)
  {
    SameCellsSeparate(s, WithPc(s, fi, pc), fi);
  }

  /** The contexts of fiber fi, or of a new fiber, end with a context that has a new cell. */
  ghost predicate AddsCell(fibers: seq<Fiber>, fibers': seq<Fiber>, fi: int, cell: int) {
    && 0 <= fi <= |fibers| && |fibers'| == (if fi == |fibers| then |fibers| + 1 else |fibers|)
    && (forall j :: 0 <= j < |fibers| && j != fi ==> fibers'[j].contexts == fibers[j].contexts)
    && fibers'[fi].contexts != [] && Last(fibers'[fi].contexts).cell == cell
    && Init(fibers'[fi].contexts) == (if fi < |fibers| then fibers[fi].contexts else [])
    && forall i, a :: 0 <= i < |fibers| && 0 <= a < |fibers[i].contexts| ==> fibers[i].contexts[a].cell < cell
  }

  lemma AddedDistinct(fibers: seq<Fiber>, fibers': seq<Fiber>, fi: int, cell: int)
    requires CellsDistinct(fibers) && AddsCell(fibers, fibers', fi, cell)
    ensures CellsDistinct(fibers')
  {
    forall i, j, a, b | 0 <= i < |fibers'| && 0 <= j < |fibers'|
        && 0 <= a < |fibers'[i].contexts| && 0 <= b < |fibers'[j].contexts|
        && fibers'[i].contexts[a].cell == fibers'[j].contexts[b].cell
      ensures i == j && a == b
    {
      var old1 := AddedAt(fibers, fibers', fi, cell, i, a);
      var old2 := AddedAt(fibers, fibers', fi, cell, j, b);
      if old1 && old2 { assert fibers[i].contexts[a].cell == fibers[j].contexts[b].cell; }
    }
  }

  lemma AddedAt(fibers: seq<Fiber>, fibers': seq<Fiber>, fi: int, cell: int, i: int, a: int) returns (known: bool)
    requires AddsCell(fibers, fibers', fi, cell) && 0 <= i < |fibers'| && 0 <= a < |fibers'[i].contexts|
    ensures if known
            then && i < |fibers| && a < |fibers[i].contexts|
                 && fibers'[i].contexts[a].cell == fibers[i].contexts[a].cell < cell
            else i == fi && a == |fibers'[i].contexts| - 1 && fibers'[i].contexts[a].cell == cell
  {
    known := i != fi || a < |fibers'[i].contexts| - 1;
    if i == fi {
      assert Last(fibers'[i].contexts) == fibers'[i].contexts[|fibers'[i].contexts| - 1];
      var init := Init(fibers'[i].contexts);
      assert |init| == |fibers'[i].contexts| - 1;
      if known { assert fibers'[i].contexts[a] == init[a]; }
    }
  }

  lemma SuspendSeparate(s: State, fi: int)
    requires Separate(s) && HasContext(s, fi)
    ensures var o := ExecSuspend(s, fi); o.Go? || o.Wait? || o.Ended? ==> Separate(o.s)
  {
    hide CellsDistinct, Choices;
    var o := ExecSuspend(s, fi);
    if o.Wait? {
      var cs, cs' := s.fibers[fi].contexts, o.s.fibers[fi].contexts;
      assert cs' == cs + [Last(cs')] && Init(cs') == cs;
      AddedDistinct(s.fibers, o.s.fibers, fi, |s.cells|);
    }
  }

  lemma AddFiberSeparate(s: State, s': State, f: Fiber)
    requires Separate(s) && s'.fibers == s.fibers + [f] && |s'.cells| == |s.cells| + 1 && s'.maxId == s.maxId + 2
    requires f.id == s.maxId && |f.contexts| == 1 && f.contexts[0].cell == |s.cells| && f.contexts[0].id == s.maxId + 1
    ensures Separate(s')
  {
    hide CellsDistinct;
    AddedDistinct(s.fibers, s'.fibers, |s.fibers|, |s.cells|);
  }

  lemma ForkSeparate(s: State, fi: int)
    requires Separate(s) && HasContext(s, fi)
    ensures var o := ExecFork(s, fi); o.Go? || o.Wait? || o.Ended? ==> Separate(o.s)
  {
    var o := ExecFork(s, fi);
    if o.Go? {
      var cell := CurrentCell(s, fi);
      var popped := WithCell(s, fi, cell.(stack := cell.stack[..|cell.stack| - 2]));
      hide CellsDistinct;
      SameCellsSeparate(s, popped, fi);
      hide Separate;
      AddFiberSeparate(popped, o.s, Last(o.s.fibers));
    }
  }

  lemma OneIndex(s: State, k: int, j: int)
    requires Separate(s) && 0 <= k < |s.fibers| && 0 <= j < |s.fibers| && s.fibers[j].id == s.fibers[k].id
    ensures j == k
  {
    hide CellsDistinct;
  }

  lemma RemoveDistinct(fibers: seq<Fiber>, fi: int, rest: seq<Fiber>)
    requires CellsDistinct(fibers) && 0 <= fi < |fibers| && |rest| == |fibers| - 1
    requires forall j :: 0 <= j < |rest| ==> rest[j].contexts == fibers[if j < fi then j else j + 1].contexts
    ensures CellsDistinct(rest)
  {
    forall i, j, a, b | 0 <= i < |rest| && 0 <= j < |rest| && 0 <= a < |rest[i].contexts| && 0 <= b < |rest[j].contexts|
        && rest[i].contexts[a].cell == rest[j].contexts[b].cell
      ensures i == j && a == b
    {
      var i', j' := if i < fi then i else i + 1, if j < fi then j else j + 1;
      assert fibers[i'].contexts[a].cell == fibers[j'].contexts[b].cell;
    }
  }

  lemma RemoveSeparate(s: State, fi: int)
    requires Separate(s) && 0 <= fi < |s.fibers|
    ensures Separate(WithoutFiber(s, fi))
  {
    var s' := WithoutFiber(s, fi);
    var rest := s'.fibers;
    assert forall j :: 0 <= j < |rest| ==>
      rest[j].contexts == s.fibers[if j < fi then j else j + 1].contexts
      && rest[j].id == s.fibers[if j < fi then j else j + 1].id;
    RemoveDistinct(s.fibers, fi, rest);
    hide CellsDistinct, WithoutFiber;
  }

  lemma RetSeparate(s: State, fi: int)
    requires Separate(s) && HasContext(s, fi)
    ensures var o := ExecRet(s, fi); o.Go? || o.Wait? || o.Ended? ==> Separate(o.s)
  {
    hide CellsDistinct, WithoutFiber;
    var o := ExecRet(s, fi);
    if o.Go? {
      SameCellsSeparate(s, o.s, fi);
    } else if o.Ended? {
      var p := Unwind(s.scopes, CurrentCell(s, fi).scopes);
      var cell := CurrentCell(s, fi);
      var s1 := WithCell(s, fi, cell.(scopes := cell.scopes[..p.value]));
      SameCellsSeparate(s, s1, fi);
      RemoveSeparate(s1, fi);
    }
  }

  lemma ExecSeparate(s: State, fi: int, instr: Instr)
    requires Separate(s) && HasContext(s, fi)
    ensures var o := Exec(s, fi, instr); o.Go? || o.Wait? || o.Ended? ==> Separate(o.s)
  {
    if instr.Ret? || instr.Fork? || instr.Suspend? {
      hide Separate, ExecRet, ExecFork, ExecSuspend;
      RetSeparate(s, fi);
      ForkSeparate(s, fi);
      SuspendSeparate(s, fi);
    } else {
      hide Separate, Exec, KeepsCells;
      ExecKeepsCells(s, fi, instr);
      var o := Exec(s, fi, instr);
      if o.Go? || o.Wait? { SameCellsSeparate(s, o.s, fi); }
    }
  }

  lemma ExecKeepsCells(s: State, fi: int, instr: Instr)
    requires HasContext(s, fi) && !instr.Ret? && !instr.Fork? && !instr.Suspend?
    ensures var o := Exec(s, fi, instr); !o.Ended? && (o.Go? || o.Wait? ==> KeepsCells(s, o.s, fi))
  {
    hide ExecRet, ExecFork, ExecSuspend, LoadVar, ReplaceVar, Owner;
  }

  lemma RespondSeparate(s: State, client: Val, choice: Val)
    requires Separate(s)
    ensures var o := Respond(s, client, choice); o.Go? ==> Separate(o.s)
  {
    hide CellsDistinct;
    var o := Respond(s, client, choice);
    if o.Go? && o.s != s { SameCellsSeparate(s, o.s, Waiting(s.fibers, Choice, client)); }
  }

  lemma RespondRawSeparate(s: State, client: Val, data: Val)
    requires Separate(s)
    ensures var o := RespondRaw(s, client, data); o.Go? ==> Separate(o.s)
  {
    hide CellsDistinct;
    var o := RespondRaw(s, client, data);
    if o.Go? && o.s != s { SameCellsSeparate(s, o.s, Waiting(s.fibers, RawData, client)); }
  }

  lemma StepSeparate(code: Program, s: State, i: int)
    requires Separate(s) && HasContext(s, i)
    ensures var o := Step(code, s, i); o.Go? || o.Wait? || o.Ended? ==> Separate(o.s)
  {
    hide Separate, Exec, WithPc;
    var pc := Current(s, i).pc;
    FetchSeparate(s, i, pc + Size(code(pc)));
    ExecSeparate(WithPc(s, i, pc + Size(code(pc))), i, code(pc));
  }

  /** Every event keeps the fibers separate. */
  lemma SeparateStep(code: Program, s: State, e: Event, s': State)
    requires Separate(s) && Next(code, s, e, s')
    ensures Separate(s')
  {
    hide Separate, Step, Respond, RespondRaw;
    match e
    case StepFiber(i) =>
      CurrentOf(s, i, i);
      StepSeparate(code, s, i);
    case Answer(client, choice) => RespondSeparate(s, client, choice);
    case RawAnswer(client, data) => RespondRawSeparate(s, client, data);
  }

  // ---------- the change of every fiber's views ----------

  /** Fiber i of s is fiber i' of s'. */
  ghost predicate SameFiber(s: State, i: int, s': State, i': int) {
    0 <= i < |s.fibers| && 0 <= i' < |s'.fibers| && s'.fibers[i'].id == s.fibers[i].id
  }

  lemma PlainViews(code: Program, s: State, fi: int, s': State, i: int, i': int)
    requires Separate(s) && HasContext(s, fi) && Plain(code(Current(s, fi).pc)) && SameFiber(s, i, s', i')
    requires Step(code, s, fi) == Go(s') || Step(code, s, fi) == Wait(s')
    ensures Changes(if i == fi then Worked else Same, Views(s, i), Views(s', i'))
  {
    StepOnlyTop(code, s, fi);
    hide Step, Separate, Views, OnlyTop, Changes;
    OnlyTopViews(s, s', fi, i);
    OnlyTopIndex(s, s', fi, i, i');
  }

  lemma StepOnlyTop(code: Program, s: State, fi: int)
    requires HasContext(s, fi) && Plain(code(Current(s, fi).pc))
    ensures var o := Step(code, s, fi); o.Go? || o.Wait? ==> OnlyTop(s, o.s, fi)
  {
    hide *;
    var pc := Current(s, fi).pc;
    var instr := code(pc);
    var s1 := WithPc(s, fi, pc + Size(instr));
    StepIsExec(code, s, fi);
    FetchOnlyTop(s, fi, pc + Size(instr));
    ExecOnlyTop(s1, fi, instr);
    var o := Step(code, s, fi);
    if o.Go? || o.Wait? { OnlyTopTransitive(s, s1, o.s, fi); }
  }

  lemma StepIsExec(code: Program, s: State, fi: int)
    requires HasContext(s, fi)
    ensures var pc := Current(s, fi).pc;
            var s1 := WithPc(s, fi, pc + Size(code(pc)));
            HasContext(s1, fi) && Step(code, s, fi) == Exec(s1, fi, code(pc))
  {
    hide Exec;
  }

  lemma OnlyTopIndex(s: State, s': State, fi: int, i: int, i': int)
    requires Separate(s) && OnlyTop(s, s', fi) && SameFiber(s, i, s', i')
    ensures i' == i
  {
    hide CellsDistinct, HasContext;
  }

  lemma SuspendViews(code: Program, s: State, fi: int, s': State, i: int, i': int)
    requires Separate(s) && HasContext(s, fi) && code(Current(s, fi).pc) == Suspend && SameFiber(s, i, s', i')
    requires Step(code, s, fi) == Wait(s')
    ensures Changes(if i == fi then Suspended else Same, Views(s, i), Views(s', i'))
    ensures i == fi ==> Last(Views(s', i')).id == s.maxId
  {
    assert i' == i;
    var v, v' := Views(s, i), Views(s', i');
    if i == fi {
      assert v'[..|v|] == Init(v) + [Last(v).(pc := Last(v).pc + 1)];
    } else {
      assert v' == v;
    }
  }

  lemma CutViews(code: Program, s: State, fi: int, s': State, i: int, i': int)
    requires Separate(s) && HasContext(s, fi) && code(Current(s, fi).pc) == Cut && SameFiber(s, i, s', i')
    requires Step(code, s, fi) == Go(s')
    ensures Changes(if i == fi then WasCut else Same, Views(s, i), Views(s', i'))
  {
    assert i' == i;
    var v, v' := Views(s, i), Views(s', i');
    if i == fi {
      assert v' == [Last(v).(pc := Last(v).pc + 1)];
    } else {
      assert v' == v;
    }
  }

  lemma EndedViews(code: Program, s: State, fi: int, s': State, i: int, i': int)
    requires Separate(s) && HasContext(s, fi) && SameFiber(s, i, s', i')
    requires Step(code, s, fi) == Ended(s')
    ensures i != fi && Views(s', i') == Views(s, i)
  {
    EndedFibers(code, s, fi, s');
    hide Step, CellsDistinct;
    var j := if i' < fi then i' else i' + 1;
    assert s.fibers[j].id == s'.fibers[i'].id;
    assert j == i;
    OtherCells(s, fi, i);
    assert Views(s', i') == Views(s, i);
  }

  lemma OtherCells(s: State, fi: int, i: int)
    requires Separate(s) && HasContext(s, fi) && 0 <= i < |s.fibers| && i != fi
    ensures forall a :: 0 <= a < |s.fibers[i].contexts| ==> s.fibers[i].contexts[a].cell != Current(s, fi).cell
  {
    forall a | 0 <= a < |s.fibers[i].contexts| ensures s.fibers[i].contexts[a].cell != Current(s, fi).cell {
      assert Current(s, fi) == s.fibers[fi].contexts[|s.fibers[fi].contexts| - 1];
    }
  }

  lemma EndedFibers(code: Program, s: State, fi: int, s': State)
    requires HasContext(s, fi) && Step(code, s, fi) == Ended(s')
    ensures |s'.fibers| == |s.fibers| - 1 && |s'.cells| == |s.cells|
    ensures forall j :: 0 <= j < |s'.fibers| ==>
              && s'.fibers[j].contexts == s.fibers[if j < fi then j else j + 1].contexts
              && s'.fibers[j].id == s.fibers[if j < fi then j else j + 1].id
    ensures forall k :: 0 <= k < |s.cells| && k != Current(s, fi).cell ==> s'.cells[k] == s.cells[k]
  {}

  /** Another fiber's objects changed. */
  lemma OtherViews(s: State, s': State, fi: int, i: int)
    requires Separate(s) && HasContext(s, fi) && 0 <= i < |s.fibers| && i != fi && |s'.fibers| == |s.fibers|
    requires s'.fibers[i].contexts == s.fibers[i].contexts && |s'.cells| == |s.cells|
    requires forall k :: 0 <= k < |s.cells| && k != Current(s, fi).cell ==> s'.cells[k] == s.cells[k]
    ensures Views(s', i) == Views(s, i)
  {
    OtherCells(s, fi, i);
  }

  lemma AnswerViews(s: State, client: Val, choice: Val, s': State, i: int, i': int)
    requires Separate(s) && Respond(s, client, choice) == Go(s') && SameFiber(s, i, s', i')
    ensures Changes(if Accepts(s, Choice, client, i) && choice in s.fibers[i].choices
                    then (if choice == UNDO then Undone else Worked) else Same, Views(s, i), Views(s', i'))
  {
    hide CellsDistinct, Views, Waiting, Separate, Changes;
    var fi := Waiting(s.fibers, Choice, client);
    AnswerFrame(s, client, choice, s');
    AnswerIndex(s, client, choice, s', i, i');
    if s' == s {
      SameIsNoChange(Views(s, i), Views(s', i'));
    } else if i != fi {
      CurrentOf(s, fi, i);
      OtherViews(s, s', fi, i);
      SameIsNoChange(Views(s, i), Views(s', i'));
    } else if choice == UNDO {
      UndoViews(s, client, s', i);
    } else {
      CurrentOf(s, fi, i);
      PushViews(s, s', fi, choice);
    }
  }

  lemma AnswerIndex(s: State, client: Val, choice: Val, s': State, i: int, i': int)
    requires Separate(s) && Respond(s, client, choice) == Go(s') && SameFiber(s, i, s', i')
    ensures i' == i
  {
    hide CellsDistinct;
  }

  /** What an accepted answer changes outside the fiber that takes it. */
  lemma AnswerFrame(s: State, client: Val, choice: Val, s': State)
    requires Separate(s) && Respond(s, client, choice) == Go(s')
    ensures var fi := Waiting(s.fibers, Choice, client);
            var accepted := !s.gameOver && client in s.players && fi < |s.fibers| && choice in s.fibers[fi].choices;
            && |s'.fibers| == |s.fibers| && |s'.cells| == |s.cells|
            && (!accepted ==> s' == s)
            && (accepted ==> s'.fibers[fi].awaiting == Nothing && s' != s && HasContext(s, fi))
            && (accepted ==> forall j :: 0 <= j < |s.fibers| && j != fi ==> s'.fibers[j] == s.fibers[j])
            && (accepted ==> forall k :: 0 <= k < |s.cells| && k != Current(s, fi).cell ==> s'.cells[k] == s.cells[k])
            && (accepted && choice != UNDO ==>
                  s'.fibers[fi].contexts == s.fibers[fi].contexts && s'.cells == Push(s, fi, choice).cells)
  {
    hide CellsDistinct;
    var fi := Waiting(s.fibers, Choice, client);
    if fi < |s.fibers| { assert s.fibers[fi].awaiting == Choice; }
  }

  lemma UndoViews(s: State, client: Val, s': State, i: int)
    requires Separate(s) && Respond(s, client, UNDO) == Go(s') && s' != s && i == Waiting(s.fibers, Choice, client)
    ensures Changes(Undone, Views(s, i), Views(s', i))
  {
    hide CellsDistinct;
    var v, v' := Views(s, i), Views(s', i);
    assert s'.cells == s.cells;
    assert v' == v[..|v| - 3] + [v[|v| - 3].(pc := v[|v| - 3].pc - 1)];
  }

  lemma RawAnswerViews(s: State, client: Val, data: Val, s': State, i: int, i': int)
    requires Separate(s) && RespondRaw(s, client, data) == Go(s') && SameFiber(s, i, s', i')
    ensures Changes(if Accepts(s, RawData, client, i) then Worked else Same, Views(s, i), Views(s', i'))
  {
    hide CellsDistinct, Views;
    assert i' == i;
    var fi := Waiting(s.fibers, RawData, client);
    if fi < |s.fibers| { CurrentOf(s, fi, i); }
    if s' == s {
    } else if i != fi {
      OtherViews(s, s', fi, i);
    } else {
      PushViews(s, s', fi, data);
    }
  }

  lemma PushViews(s: State, s': State, fi: int, v: Val)
    requires Separate(s) && HasContext(s, fi) && |s'.fibers| == |s.fibers|
    requires s'.fibers[fi].contexts == s.fibers[fi].contexts && s'.cells == Push(s, fi, v).cells
    ensures Changes(Worked, Views(s, fi), Views(s', fi))
  {
    var u, u' := Views(s, fi), Views(s', fi);
    forall a | 0 <= a < |u| - 1 ensures u'[a] == u[a] {
      assert s.fibers[fi].contexts[a].cell != s.fibers[fi].contexts[|u| - 1].cell;
    }
    assert Init(u') == Init(u);
  }

  /** What an event does to the saved contexts of every fiber that it leaves. */
  lemma ViewStep(code: Program, s: State, e: Event, s': State, i: int, i': int)
    requires Separate(s) && Next(code, s, e, s') && SameFiber(s, i, s', i')
    ensures Changes(Kind(code, s, e, i), Views(s, i), Views(s', i'))
  {
    hide Separate, Step, Respond, RespondRaw, Views, Changes, Exec;
    match e
    case StepFiber(k) =>
      CurrentOf(s, k, i);
      var instr := code(Current(s, k).pc);
      StepCode(code, s, k);
      if Step(code, s, k).Ended? {
        EndedViews(code, s, k, s', i, i');
        SameIsNoChange(Views(s, i), Views(s', i'));
      } else if instr.Suspend? {
        SuspendViews(code, s, k, s', i, i');
      } else if instr.Cut? {
        CutViews(code, s, k, s', i, i');
      } else {
        PlainViews(code, s, k, s', i, i');
      }
    case Answer(client, choice) => AnswerViews(s, client, choice, s', i, i');
    case RawAnswer(client, data) => RawAnswerViews(s, client, data, s', i, i');
  }

  lemma SameIsNoChange(v: seq<View>, v': seq<View>)
    requires v' == v
    ensures Changes(Same, v, v')
  {}

  lemma CurrentOf(s: State, k: int, i: int)
    requires Separate(s) && 0 <= k < |s.fibers| && 0 <= i < |s.fibers|
    ensures HasContext(s, k) && s.fibers[i].contexts != []
  {}

  /** Only suspend and join wait without working on the top context alone; only ret ends a fiber. */
  lemma StepCode(code: Program, s: State, k: int)
    requires HasContext(s, k)
    ensures var o := Step(code, s, k);
            var instr := code(Current(s, k).pc);
            && (o.Ended? ==> instr.Ret?) && (instr.Suspend? ==> o.Wait? || o.Crash?)
            && (instr.Cut? ==> o.Go? || o.Crash?)
  {}
}
