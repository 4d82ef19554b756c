/** Calls and returns (vm/vm.c): apply pushes a scope with the return address, ret goes back along the
    scopes to the last one that has an address.  Over any run in which calls nest, ret brings back the
    caller's exact scope array and goes on just after the apply, whatever is still pushed. */
module VmCalls {
  import opened Commons
  import opened VmSpec
  import opened VmRuns
  import opened VmUndo
  import opened VmScopes

  /** An open call: the caller's scopes and the address after the apply. */
  datatype Frame = Frame(list: seq<int>, pc: int)

  ghost function Top(s: State, i: int): View
    requires 0 <= i < |s.fibers| && s.fibers[i].contexts != []
  {
    Last(Views(s, i))
  }

  /** Above the outermost open call the scope array consists of the scopes of the open calls and of
      scopes without a return address. */
  ghost predicate Framed(scopes: seq<Scope>, list: seq<int>, frames: seq<Frame>) {
    && (forall a :: 0 <= a < |list| ==> 0 <= list[a] < |scopes|)
    && (forall k :: 0 <= k < |frames| ==> IsOpen(scopes, list, frames[k]))
    && (forall j, k :: 0 <= j < k < |frames| ==> |frames[j].list| < |frames[k].list|)
    && (forall a :: 0 <= a < |list| && frames != [] && a >= |frames[0].list| ==>
          scopes[list[a]].returnAddress == 0 || exists k :: 0 <= k < |frames| && |frames[k].list| == a)
  }

  ghost predicate IsOpen(scopes: seq<Scope>, list: seq<int>, f: Frame) {
    && 0 < |f.list| < |list| && f.list == list[..|f.list|]
    && 0 <= list[|f.list|] < |scopes|
    && var scope := scopes[list[|f.list|]];
       scope.returnAddress == f.pc && f.pc != 0 && !scope.isFiber
  }

  /** Scopes keep their return addresses. */
  ghost predicate Extends(scopes: seq<Scope>, scopes': seq<Scope>) {
    && |scopes| <= |scopes'|
    && forall k :: 0 <= k < |scopes| ==>
         scopes'[k].returnAddress == scopes[k].returnAddress && scopes'[k].isFiber == scopes[k].isFiber
  }

  lemma ExtendFramed(scopes: seq<Scope>, scopes': seq<Scope>, list: seq<int>, frames: seq<Frame>)
    requires Framed(scopes, list, frames) && Extends(scopes, scopes')
    ensures Framed(scopes', list, frames)
  {
    forall k | 0 <= k < |frames| ensures IsOpen(scopes', list, frames[k]) { assert IsOpen(scopes, list, frames[k]); }
  }

  lemma CallFramed(scopes: seq<Scope>, list: seq<int>, frames: seq<Frame>, id: int, pc: int)
    requires Framed(scopes, list, frames) && 0 <= id < |scopes| && list != [] && pc != 0
    requires scopes[id].returnAddress == pc && !scopes[id].isFiber
    ensures Framed(scopes, list + [id], frames + [Frame(list, pc)])
  {
    var list', frames' := list + [id], frames + [Frame(list, pc)];
    forall k | 0 <= k < |frames'| ensures IsOpen(scopes, list', frames'[k]) {
      if k < |frames| { assert IsOpen(scopes, list, frames[k]); }
    }
    forall a | 0 <= a < |list'| && a >= |frames'[0].list|
      ensures scopes[list'[a]].returnAddress == 0 || exists k :: 0 <= k < |frames'| && |frames'[k].list| == a
    {
      if a == |list| {
        assert |frames'[|frames|].list| == a;
      } else if scopes[list[a]].returnAddress != 0 {
        var k :| 0 <= k < |frames| && |frames[k].list| == a;
        assert |frames'[k].list| == a;
      }
    }
  }

  lemma PushFramed(scopes: seq<Scope>, list: seq<int>, frames: seq<Frame>, id: int)
    requires Framed(scopes, list, frames) && 0 <= id < |scopes| && scopes[id].returnAddress == 0
    ensures Framed(scopes, list + [id], frames)
  {
    forall k | 0 <= k < |frames|
      ensures IsOpen(scopes, list + [id], frames[k])
    {
      assert IsOpen(scopes, list, frames[k]);
    }
  }

  lemma PopFramed(scopes: seq<Scope>, list: seq<int>, frames: seq<Frame>)
    requires Framed(scopes, list, frames) && list != [] && (frames != [] ==> |Last(frames).list| < |list| - 1)
    ensures Framed(scopes, Init(list), frames)
  {
    forall k | 0 <= k < |frames| ensures IsOpen(scopes, Init(list), frames[k]) {
      assert IsOpen(scopes, list, frames[k]);
      assert |frames[k].list| <= |Last(frames).list|;
    }
  }

  /** The walk of ret stops at the scope of the innermost open call. */
  lemma {:induction false} UnwindFrame(scopes: seq<Scope>, list: seq<int>, frames: seq<Frame>, n: nat)
    requires Framed(scopes, list, frames) && frames != [] && |Last(frames).list| < n <= |list|
    ensures Unwind(scopes, list[..n]) == Some(|Last(frames).list|)
    decreases n
  {
    assert IsOpen(scopes, list, Last(frames));
    if n - 1 > |Last(frames).list| {
      UnwindFrame(scopes, list, frames, n - 1);
      assert Init(list[..n]) == list[..n - 1];
      assert forall k :: 0 <= k < |frames| ==> |frames[k].list| <= |Last(frames).list|;
      assert scopes[list[n - 1]].returnAddress == 0;
    }
  }

  lemma ReturnFramed(scopes: seq<Scope>, list: seq<int>, frames: seq<Frame>)
    requires Framed(scopes, list, frames) && frames != []
    ensures Framed(scopes, Last(frames).list, Init(frames))
  {
    var list', frames' := Last(frames).list, Init(frames);
    assert IsOpen(scopes, list, Last(frames));
    forall k | 0 <= k < |frames'| ensures IsOpen(scopes, list', frames'[k]) { assert IsOpen(scopes, list, frames[k]); }
    forall a | 0 <= a < |list'| && frames' != [] && a >= |frames'[0].list|
      ensures scopes[list'[a]].returnAddress == 0 || exists k :: 0 <= k < |frames'| && |frames'[k].list| == a
    {
      assert list'[a] == list[a];
      if scopes[list[a]].returnAddress != 0 {
        var k :| 0 <= k < |frames| && |frames[k].list| == a;
        assert |frames'[k].list| == a;
      }
    }
  }

  // ---------- one event ----------

  /** The open calls of the current context after its own step, as a caller would count them. */
  ghost function TopFrames(code: Program, s: State, e: Event, i: int, frames: seq<Frame>): seq<Frame>
    requires 0 <= i < |s.fibers| && s.fibers[i].contexts != []
  {
    var top := Top(s, i);
    if e != StepFiber(i) then frames
    else
      match code(top.pc)
      case Apply => frames + [Frame(top.scopes, top.pc + 1)]
      case Ret => if frames == [] then [] else Init(frames)
      case _ => frames
  }

  /** The open calls of every context: a suspend saves those of the current one, an undo brings back those
      that were saved, a cut forgets all but the current ones. */
  ghost function ChangedFrames(kind: Change, fs: seq<seq<Frame>>, top: seq<Frame>): seq<seq<Frame>> {
    if fs == [] then []
    else
      match kind
      case Same => fs
      case Worked => Init(fs) + [top]
      case Suspended => fs + [Last(fs)]
      case WasCut => [Last(fs)]
      case Undone => if |fs| < 3 then fs else fs[..|fs| - 2]
  }

  ghost function FramesAfter(code: Program, s: State, e: Event, i: int, fs: seq<seq<Frame>>): seq<seq<Frame>>
    requires 0 <= i < |s.fibers| && s.fibers[i].contexts != []
  {
    if fs == [] then [] else ChangedFrames(Kind(code, s, e, i), fs, TopFrames(code, s, e, i, Last(fs)))
  }

  /** Calls nest: no ret without an open call, no popscope of an open call's own scope, and the caller has
      a scope and a non-zero address to come back to. */
  ghost predicate Nests(code: Program, s: State, e: Event, i: int, frames: seq<Frame>)
    requires 0 <= i < |s.fibers| && s.fibers[i].contexts != []
  {
    e == StepFiber(i) ==>
      var top := Top(s, i);
      match code(top.pc)
      case Apply => top.scopes != [] && top.pc + 1 != 0
      case Ret => frames != []
      case PopScope => frames != [] ==> |Last(frames).list| < |top.scopes| - 1
      case _ => true
  }

  lemma ExecExtends(s: State, fi: int, instr: Instr)
    requires HasContext(s, fi)
    ensures var o := Exec(s, fi, instr); o.Go? || o.Wait? || o.Ended? ==> Extends(s.scopes, o.s.scopes)
  {
    match instr
    case RVar(key) =>
      var cell := CurrentCell(s, fi);
      if cell.scopes != [] && cell.stack != [] { ReplaceExtends(s.scopes, Last(cell.scopes), key, Last(cell.stack)); }
    case _ =>
  }

  lemma ReplaceExtends(scopes: seq<Scope>, id: int, key: string, val: Val)
    ensures var r := ReplaceVar(scopes, id, key, val); r.Some? ==> Extends(scopes, r.value)
  {}

  lemma StepExtends(code: Program, s: State, fi: int)
    requires HasContext(s, fi)
    ensures var o := Step(code, s, fi); o.Go? || o.Wait? || o.Ended? ==> Extends(s.scopes, o.s.scopes)
  {
    hide *;
    var pc := Current(s, fi).pc;
    var s1 := WithPc(s, fi, pc + Size(code(pc)));
    StepIsExec(code, s, fi);
    FetchKeeps(s, fi, pc + Size(code(pc)));
    ExecExtends(s1, fi, code(pc));
  }

  /** What an instruction does to the current scope array, and where it returns to. */
  ghost predicate TopMoves(scopes: seq<Scope>, scopes': seq<Scope>, instr: Instr, pc: int, list: seq<int>, pc': int,
                           list': seq<int>) {
    var n := |scopes|;
    match instr
    case PushScope =>
      n < |scopes'| && list' == list + [n] && scopes'[n].returnAddress == 0 && !scopes'[n].isFiber
    case Apply =>
      n < |scopes'| && list' == list + [n] && scopes'[n].returnAddress == pc + 1 && !scopes'[n].isFiber
    case PopScope => list != [] && list' == Init(list)
    case Ret =>
      var p := Unwind(scopes, list);
      p.Some? && list' == list[..p.value] && pc' == scopes[list[p.value]].returnAddress
    case _ => list' == list
  }

  lemma ExecTop(s: State, fi: int, instr: Instr, pc: int)
    requires HasContext(s, fi) && Current(s, fi).pc == pc + Size(instr)
    ensures var o := Exec(s, fi, instr);
            o.Go? || o.Wait? ==>
              && HasContext(o.s, fi)
              && TopMoves(s.scopes, o.s.scopes, instr, pc, CurrentCell(s, fi).scopes,
                          Current(o.s, fi).pc, CurrentCell(o.s, fi).scopes)
  {
    hide ExecLocal, ExecLdVar, ExecStVar, ExecRVar, ExecPushScope, ExecPopScope, ExecLambda, ExecApply, ExecRet,
         ExecSuspend, ExecFork, ExecJoin, ExecGetRaw, Unwind;
    match instr
    case PushScope => ExecTopPush(s, fi);
    case PopScope => ExecTopPop(s, fi);
    case Apply => ExecTopApply(s, fi);
    case Ret => ExecTopRet(s, fi);
    case Suspend => ExecTopSuspend(s, fi);
    case Fork => ExecTopFork(s, fi);
    case _ => ExecTopSame(s, fi, instr);
  }

  /** Other instructions leave the scope array alone. */
  lemma ExecTopSame(s: State, fi: int, instr: Instr)
    requires HasContext(s, fi)
    requires !instr.PushScope? && !instr.PopScope? && !instr.Apply? && !instr.Ret? && !instr.Suspend? && !instr.Fork?
    ensures var o := Exec(s, fi, instr);
            o.Go? || o.Wait? ==> HasContext(o.s, fi) && CurrentCell(o.s, fi).scopes == CurrentCell(s, fi).scopes
  {
    hide ExecRet, ExecApply, ExecFork, ExecSuspend, LoadVar, ReplaceVar, Owner;
  }

  lemma ExecTopPush(s: State, fi: int)
    requires HasContext(s, fi)
    ensures var o, n := ExecPushScope(s, fi), |s.scopes|;
            o.Go? ==>
              HasContext(o.s, fi) && n < |o.s.scopes| && CurrentCell(o.s, fi).scopes == CurrentCell(s, fi).scopes + [n]
                      && o.s.scopes[n].returnAddress == 0 && !o.s.scopes[n].isFiber
    ensures !ExecPushScope(s, fi).Wait?
  {}

  lemma ExecTopPop(s: State, fi: int)
    requires HasContext(s, fi)
    ensures var o, list := ExecPopScope(s, fi), CurrentCell(s, fi).scopes;
            o.Go? ==> HasContext(o.s, fi) && list != [] && CurrentCell(o.s, fi).scopes == Init(list)
    ensures !ExecPopScope(s, fi).Wait?
  {}

  lemma ExecTopApply(s: State, fi: int)
    requires HasContext(s, fi)
    ensures var o, n := ExecApply(s, fi), |s.scopes|;
            o.Go? ==>
              HasContext(o.s, fi) && n < |o.s.scopes| && CurrentCell(o.s, fi).scopes == CurrentCell(s, fi).scopes + [n]
                      && o.s.scopes[n].returnAddress == Current(s, fi).pc && !o.s.scopes[n].isFiber
    ensures !ExecApply(s, fi).Wait?
  {}

  lemma ExecTopRet(s: State, fi: int)
    requires HasContext(s, fi)
    ensures var o, list := ExecRet(s, fi), CurrentCell(s, fi).scopes;
            o.Go? ==> HasContext(o.s, fi)
                      && var p := Unwind(s.scopes, list);
                         p.Some? && CurrentCell(o.s, fi).scopes == list[..p.value]
                         && Current(o.s, fi).pc == s.scopes[list[p.value]].returnAddress
    ensures !ExecRet(s, fi).Wait?
  {}

  lemma ExecTopSuspend(s: State, fi: int)
    requires HasContext(s, fi)
    ensures var o := ExecSuspend(s, fi);
            !o.Go? && (o.Wait? ==> HasContext(o.s, fi) && CurrentCell(o.s, fi).scopes == CurrentCell(s, fi).scopes)
  {}

  lemma ExecTopFork(s: State, fi: int)
    requires HasContext(s, fi)
    ensures var o := ExecFork(s, fi);
            !o.Wait? && (o.Go? ==> HasContext(o.s, fi) && CurrentCell(o.s, fi).scopes == CurrentCell(s, fi).scopes)
  {}

  lemma StepTop(code: Program, s: State, fi: int)
    requires HasContext(s, fi)
    ensures var o, pc := Step(code, s, fi), Current(s, fi).pc;
            o.Go? || o.Wait? ==>
              && HasContext(o.s, fi)
              && TopMoves(s.scopes, o.s.scopes, code(pc), pc, CurrentCell(s, fi).scopes,
                          Current(o.s, fi).pc, CurrentCell(o.s, fi).scopes)
  {
    hide *;
    var pc := Current(s, fi).pc;
    var s1 := WithPc(s, fi, pc + Size(code(pc)));
    StepIsExec(code, s, fi);
    FetchKeeps(s, fi, pc + Size(code(pc)));
    ExecTop(s1, fi, code(pc), pc);
  }

  lemma TopIsCurrent(s: State, i: int)
    requires HasContext(s, i)
    ensures Top(s, i).pc == Current(s, i).pc && Top(s, i).scopes == CurrentCell(s, i).scopes
  {}

  /** Ret in an open call goes on; it neither ends the program nor the fiber. */
  lemma RetGoes(s: State, fi: int, frames: seq<Frame>)
    requires HasContext(s, fi) && Framed(s.scopes, CurrentCell(s, fi).scopes, frames) && frames != []
    ensures ExecRet(s, fi).Go?
  {
    var list := CurrentCell(s, fi).scopes;
    assert IsOpen(s.scopes, list, Last(frames));
    UnwindFrame(s.scopes, list, frames, |list|);
    assert list[..|list|] == list;
  }

  lemma NextExtends(code: Program, s: State, e: Event, s': State)
    requires Separate(s) && Next(code, s, e, s')
    ensures Extends(s.scopes, s'.scopes)
  {
    if e.StepFiber? {
      hide Step, Extends, CellsDistinct;
      StepExtends(code, s, e.index);
    }
  }

  /** An event that is neither the fiber's own step nor an undo leaves its scope array. */
  lemma OtherTop(code: Program, s: State, e: Event, s': State, i: int) returns (i': int)
    requires Separate(s) && Next(code, s, e, s') && 0 <= i < |s.fibers| && e != StepFiber(i)
             && Kind(code, s, e, i) != Undone
    ensures SameFiber(s, i, s', i') && s'.fibers[i'].contexts != [] && Top(s', i').scopes == Top(s, i).scopes
  {
    hide Separate, Views, Top, Step, Respond, RespondRaw, HasContext;
    match e
    case StepFiber(k) =>
      CurrentOf(s, k, i);
      i' := OtherIndexAfterStep(code, s, k, s', i);
      hide Next;
      ViewStep(code, s, e, s', i, i');
      SameTop(s, s', i, i');
    case Answer(client, choice) =>
      i' := i;
      AnswerTop(s, client, choice, s', i);
    case RawAnswer(client, data) =>
      i' := i;
      RawAnswerTop(s, client, data, s', i);
  }

  lemma OtherIndexAfterStep(code: Program, s: State, k: int, s': State, i: int) returns (i': int)
    requires HasContext(s, k) && 0 <= i < |s.fibers| && i != k
    requires var o := Step(code, s, k); o == Go(s') || o == Wait(s') || o == Ended(s')
    ensures SameFiber(s, i, s', i')
  {
    hide Step;
    i' := i;
    if Step(code, s, k).Ended? {
      EndedFibers(code, s, k, s');
      i' := if i < k then i else i - 1;
    } else {
      StepFibers(code, s, k);
    }
  }

  lemma AnswerTop(s: State, client: Val, choice: Val, s': State, i: int)
    requires Separate(s) && 0 <= i < |s.fibers| && Respond(s, client, choice) == Go(s')
    requires choice == UNDO ==> !(Accepts(s, Choice, client, i) && choice in s.fibers[i].choices)
    ensures SameFiber(s, i, s', i) && s'.fibers[i].contexts != [] && Top(s', i).scopes == Top(s, i).scopes
  {
    var fi := Waiting(s.fibers, Choice, client);
    AnswerFrame(s, client, choice, s');
    AnswerIds(s, client, choice, s', i);
    hide Separate, Respond, Waiting, Views, HasContext, Push, Top;
    CurrentOf(s, i, i);
    if s' == s {
    } else if i != fi {
      OtherViews(s, s', fi, i);
      SameTop(s, s', i, i);
    } else {
      PushTop(s, s', i, choice);
    }
  }

  lemma SameTop(s: State, s': State, i: int, i': int)
    requires 0 <= i < |s.fibers| && 0 <= i' < |s'.fibers| && s.fibers[i].contexts != [] && Views(s', i') == Views(s, i)
    ensures s'.fibers[i'].contexts != [] && Top(s', i') == Top(s, i)
  {
    assert |Views(s', i')| == |s'.fibers[i'].contexts|;
  }

  lemma PushTop(s: State, s': State, i: int, v: Val)
    requires HasContext(s, i) && i < |s'.fibers| && s'.fibers[i].contexts == s.fibers[i].contexts
    requires s'.cells == Push(s, i, v).cells
    ensures Top(s', i).scopes == Top(s, i).scopes
  {}

  lemma AnswerIds(s: State, client: Val, choice: Val, s': State, i: int)
    requires 0 <= i < |s.fibers| && Respond(s, client, choice) == Go(s')
    ensures i < |s'.fibers| && s'.fibers[i].id == s.fibers[i].id
  {}

  lemma RawAnswerTop(s: State, client: Val, data: Val, s': State, i: int)
    requires Separate(s) && 0 <= i < |s.fibers| && RespondRaw(s, client, data) == Go(s')
    ensures SameFiber(s, i, s', i) && s'.fibers[i].contexts != [] && Top(s', i).scopes == Top(s, i).scopes
  {
    hide CellsDistinct, Views, Top;
    var fi := Waiting(s.fibers, RawData, client);
    CurrentOf(s, i, i);
    if s' == s {
    } else if i != fi {
      OtherViews(s, s', fi, i);
      SameTop(s, s', i, i);
    } else {
      PushTop(s, s', i, data);
    }
  }

  ghost predicate FramedTop(s: State, i: int, frames: seq<Frame>) {
    HasContext(s, i) && Framed(s.scopes, CurrentCell(s, i).scopes, frames)
  }

  /** The same for every context of the fiber. */
  ghost predicate FramedFiber(s: State, i: int, fs: seq<seq<Frame>>) {
    HasContext(s, i) && FramedViews(s.scopes, Views(s, i), fs)
  }

  ghost predicate FramedViews(scopes: seq<Scope>, v: seq<View>, fs: seq<seq<Frame>>) {
    |fs| == |v| && forall a :: 0 <= a < |v| ==> Framed(scopes, v[a].scopes, fs[a])
  }

  /** The fiber's own step. */
  lemma OwnStep(code: Program, s: State, s': State, i: int, frames: seq<Frame>)
    requires Separate(s) && Next(code, s, StepFiber(i), s') && FramedTop(s, i, frames)
    requires Nests(code, s, StepFiber(i), i, frames)
    ensures SameFiber(s, i, s', i) && FramedTop(s', i, TopFrames(code, s, StepFiber(i), i, frames))
    ensures code(Current(s, i).pc).Ret? ==>
              frames != [] && CurrentCell(s', i).scopes == Last(frames).list && Current(s', i).pc == Last(frames).pc
              && CurrentCell(s', i).stack == CurrentCell(s, i).stack
  {
    hide *;
    NestFacts(code, s, i, frames);
    var pc, list := Current(s, i).pc, CurrentCell(s, i).scopes;
    if code(pc).Ret? { RetStep(code, s, s', i, frames); }
    NextIsStep(code, s, s', i);
    StepCode(code, s, i);
    NextExtends(code, s, StepFiber(i), s');
    StepFibers(code, s, i);
    StepTop(code, s, i);
    FramesMove(s.scopes, s'.scopes, code(pc), pc, list, Current(s', i).pc, CurrentCell(s', i).scopes, frames);
    OwnFrames(code, s, s', i, frames);
  }

  lemma NestFacts(code: Program, s: State, i: int, frames: seq<Frame>)
    requires FramedTop(s, i, frames) && Nests(code, s, StepFiber(i), i, frames)
    ensures HasContext(s, i) && Framed(s.scopes, CurrentCell(s, i).scopes, frames)
    ensures var instr, list := code(Current(s, i).pc), CurrentCell(s, i).scopes;
            && (instr.Apply? ==> list != [] && Current(s, i).pc + 1 != 0) && (instr.Ret? ==> frames != [])
            && (instr.PopScope? && frames != [] ==> |Last(frames).list| < |list| - 1)
  {
    hide Framed;
    TopIsCurrent(s, i);
  }

  lemma OwnFrames(code: Program, s: State, s': State, i: int, frames: seq<Frame>)
    requires HasContext(s, i) && HasContext(s', i) && |s.fibers| <= |s'.fibers| && s'.fibers[i].id == s.fibers[i].id
    requires code(Current(s, i).pc).Ret? ==> frames != []
    requires var pc, list := Current(s, i).pc, CurrentCell(s, i).scopes;
             Framed(s'.scopes, CurrentCell(s', i).scopes, match code(pc)
                                                          case Apply => frames + [Frame(list, pc + 1)]
                                                          case Ret => Init(frames)
                                                          case _ => frames)
    ensures SameFiber(s, i, s', i) && FramedTop(s', i, TopFrames(code, s, StepFiber(i), i, frames))
  {
    hide Framed;
    TopIsCurrent(s, i);
  }

  /** What an instruction makes of the open calls. */
  lemma FramesMove(scopes: seq<Scope>, scopes': seq<Scope>, instr: Instr, pc: int, list: seq<int>, pc': int,
                   list': seq<int>, frames: seq<Frame>)
    requires Framed(scopes, list, frames) && Extends(scopes, scopes')
    requires TopMoves(scopes, scopes', instr, pc, list, pc', list')
    requires instr.Apply? ==> list != [] && pc + 1 != 0
    requires instr.Ret? ==> frames != []
    requires instr.PopScope? && frames != [] ==> |Last(frames).list| < |list| - 1
    ensures Framed(scopes', list', match instr
                                   case Apply => frames + [Frame(list, pc + 1)]
                                   case Ret => Init(frames)
                                   case _ => frames)
    ensures instr.Ret? ==> list' == Last(frames).list && pc' == Last(frames).pc
  {
    hide Framed, Extends, Unwind;
    ExtendFramed(scopes, scopes', list, frames);
    match instr
    case PushScope => PushFramed(scopes', list, frames, |scopes|);
    case Apply => CallFramed(scopes', list, frames, |scopes|, pc + 1);
    case PopScope => PopFramed(scopes', list, frames);
    case Ret => ReturnStep(scopes, scopes', list, frames);
    case _ =>
  }

  lemma ReturnStep(scopes: seq<Scope>, scopes': seq<Scope>, list: seq<int>, frames: seq<Frame>)
    requires Framed(scopes, list, frames) && Framed(scopes', list, frames) && frames != []
    ensures var p := Unwind(scopes, list);
            && p.Some? && list[..p.value] == Last(frames).list && scopes[list[p.value]].returnAddress == Last(frames).pc
    ensures Framed(scopes', Last(frames).list, Init(frames))
  {
    assert IsOpen(scopes, list, Last(frames));
    UnwindFrame(scopes, list, frames, |list|);
    assert list[..|list|] == list;
    ReturnFramed(scopes', list, frames);
  }

  lemma RetStepGoes(code: Program, s: State, i: int, frames: seq<Frame>)
    requires HasContext(s, i) && FramedTop(s, i, frames) && frames != [] && code(Current(s, i).pc).Ret?
    ensures Step(code, s, i).Go?
  {
    hide *;
    var pc := Current(s, i).pc;
    var s1 := WithPc(s, i, pc + Size(code(pc)));
    StepIsExec(code, s, i);
    FetchKeeps(s, i, pc + Size(code(pc)));
    ExecOfRet(s1, i, code(pc));
    FramedFetch(s, s1, i, frames);
    RetGoes(s1, i, frames);
  }

  lemma NextIsStep(code: Program, s: State, s': State, i: int)
    requires Next(code, s, StepFiber(i), s')
    ensures var o := Step(code, s, i); o == Go(s') || o == Wait(s') || o == Ended(s')
    ensures 0 <= i < |s.fibers| && s.fibers[i].awaiting == Nothing
  {
    hide Step;
  }

  lemma RetKeepsStack(code: Program, s: State, i: int)
    requires HasContext(s, i) && code(Current(s, i).pc).Ret? && Step(code, s, i).Go?
    ensures var s' := Step(code, s, i).s; HasContext(s', i) && CurrentCell(s', i).stack == CurrentCell(s, i).stack
  {}

  lemma RetStep(code: Program, s: State, s': State, i: int, frames: seq<Frame>)
    requires Next(code, s, StepFiber(i), s') && FramedTop(s, i, frames) && code(Current(s, i).pc).Ret?
    requires Nests(code, s, StepFiber(i), i, frames)
    ensures frames != [] && Step(code, s, i) == Go(s')
    ensures HasContext(s', i) && CurrentCell(s', i).stack == CurrentCell(s, i).stack
  {
    hide Step, Framed;
    TopIsCurrent(s, i);
    RetStepGoes(code, s, i, frames);
    RetKeepsStack(code, s, i);
  }

  lemma FramedFetch(s: State, s1: State, i: int, frames: seq<Frame>)
    requires FramedTop(s, i, frames) && HasContext(s1, i) && CurrentCell(s1, i) == CurrentCell(s, i)
             && s1.scopes == s.scopes
    ensures Framed(s1.scopes, CurrentCell(s1, i).scopes, frames)
  {}

  lemma ExecOfRet(s: State, i: int, instr: Instr)
    requires HasContext(s, i) && instr.Ret?
    ensures Exec(s, i, instr) == ExecRet(s, i)
  {}

  /** Every context but a working one has the scopes and the open calls of an old one. */
  lemma FromOld(kind: Change, v: seq<View>, v': seq<View>, fs: seq<seq<Frame>>, top: seq<Frame>, a: int)
    returns (b: nat)
    requires Changes(kind, v, v') && |fs| == |v| > 0 && 0 <= a < |v'|
    ensures var fs' := ChangedFrames(kind, fs, top);
            && |fs'| == |v'|
            && (b < |v| ==> v'[a].scopes == v[b].scopes && fs'[a] == fs[b])
            && (b >= |v| ==> kind == Worked && a == |v'| - 1 && fs'[a] == top)
  {
    match kind
    case Same => b := a;
    case Worked => b := if a == |v'| - 1 then |v| else a; if b < |v| { assert v'[a] == Init(v')[a]; }
    case Suspended => b := if a < |v| then a else |v| - 1; if a < |v| { assert v'[a] == v'[..|v|][a]; }
    case WasCut => b := |v| - 1;
    case Undone => b := a; if a < |v| - 3 { assert v'[a] == v[..|v| - 3][a]; }
  }

  lemma ViewsFramed(kind: Change, scopes: seq<Scope>, v: seq<View>, fs: seq<seq<Frame>>,
                    scopes': seq<Scope>, v': seq<View>, top: seq<Frame>)
    requires FramedViews(scopes, v, fs) && v != [] && Changes(kind, v, v') && Extends(scopes, scopes')
    requires kind == Worked ==> Framed(scopes', Last(v').scopes, top)
    ensures FramedViews(scopes', v', ChangedFrames(kind, fs, top))
  {
    hide Framed, Extends, Changes, ChangedFrames;
    var fs' := ChangedFrames(kind, fs, top);
    if v' == [] { SomeContext(kind, v, v'); }
    var _ := FromOld(kind, v, v', fs, top, 0);
    forall a | 0 <= a < |v'| ensures Framed(scopes', v'[a].scopes, fs'[a]) {
      var b := FromOld(kind, v, v', fs, top, a);
      if b < |v| { ExtendFramed(scopes, scopes', v[b].scopes, fs[b]); }
    }
  }

  lemma SomeContext(kind: Change, v: seq<View>, v': seq<View>)
    requires Changes(kind, v, v') && v != []
    ensures v' != []
  {}

  /** Where the fiber is after an event that is not its own step. */
  lemma OtherIndex(code: Program, s: State, e: Event, s': State, i: int, frames: seq<Frame>) returns (i': int)
    requires Separate(s) && Next(code, s, e, s') && 0 <= i < |s.fibers| && e != StepFiber(i)
    requires HasContext(s, i) && Framed(s.scopes, Top(s, i).scopes, frames) && Extends(s.scopes, s'.scopes)
    ensures SameFiber(s, i, s', i')
    ensures Kind(code, s, e, i) == Worked ==>
              s'.fibers[i'].contexts != [] && Framed(s'.scopes, Top(s', i').scopes, frames)
  {
    if Kind(code, s, e, i) == Undone {
      i' := i;
      AnswerIds(s, e.client, e.choice, s', i);
    } else {
      hide Next, Separate, Views, Framed, Extends, Kind;
      i' := OtherTop(code, s, e, s', i);
      ExtendFramed(s.scopes, s'.scopes, Top(s, i).scopes, frames);
    }
  }

  lemma TopFramed(s: State, i: int, fs: seq<seq<Frame>>)
    requires FramedFiber(s, i, fs)
    ensures fs != [] && |fs| == |Views(s, i)| && FramedViews(s.scopes, Views(s, i), fs)
    ensures FramedTop(s, i, Last(fs)) && Framed(s.scopes, Top(s, i).scopes, Last(fs)) && HasContext(s, i)
  {
    hide Framed;
    TopIsCurrent(s, i);
  }

  lemma FrameStep(code: Program, s: State, e: Event, s': State, i: int, fs: seq<seq<Frame>>) returns (i': int)
    requires Separate(s) && Next(code, s, e, s') && FramedFiber(s, i, fs) && fs != [] && Nests(code, s, e, i, Last(fs))
    ensures SameFiber(s, i, s', i') && FramedFiber(s', i', FramesAfter(code, s, e, i, fs))
    ensures e == StepFiber(i) && code(Current(s, i).pc).Ret? ==>
              && Last(fs) != []
              && CurrentCell(s', i').scopes == Last(Last(fs)).list && Current(s', i').pc == Last(Last(fs)).pc
              && CurrentCell(s', i').stack == CurrentCell(s, i).stack
  {
    hide Next, Separate, Views, Framed, FramedViews, FramedTop, FramedFiber, Changes, ChangedFrames, Step, Kind,
         Extends;
    var frames := Last(fs);
    TopFramed(s, i, fs);
    NextExtends(code, s, e, s');
    SeparateStep(code, s, e, s');
    if e == StepFiber(i) {
      i' := i;
      OwnStep(code, s, s', i, frames);
      OwnTop(s', i, TopFrames(code, s, e, i, frames));
    } else {
      i' := OtherIndex(code, s, e, s', i, frames);
    }
    ViewStep(code, s, e, s', i, i');
    ViewsFramed(Kind(code, s, e, i), s.scopes, Views(s, i), fs, s'.scopes, Views(s', i'),
                TopFrames(code, s, e, i, frames));
    CurrentOf(s', i', i');
    PackFramed(s', i', FramesAfter(code, s, e, i, fs));
  }

  lemma OwnTop(s: State, i: int, frames: seq<Frame>)
    requires FramedTop(s, i, frames)
    ensures s.fibers[i].contexts != [] && Framed(s.scopes, Top(s, i).scopes, frames)
  {
    hide Framed;
    TopIsCurrent(s, i);
  }

  lemma PackFramed(s: State, i: int, fs: seq<seq<Frame>>)
    requires HasContext(s, i) && FramedViews(s.scopes, Views(s, i), fs)
    ensures FramedFiber(s, i, fs)
  {}

  // ---------- runs ----------

  ghost predicate IsFiber(s: State, i: int, d: int) {
    HasContext(s, i) && s.fibers[i].id == d
  }

  ghost function IndexOf(s: State, d: int): int {
    if exists i :: IsFiber(s, i, d) then var i :| IsFiber(s, i, d); i else -1
  }

  lemma IndexIs(s: State, i: int, d: int)
    requires Separate(s) && IsFiber(s, i, d)
    ensures IndexOf(s, d) == i
  {
    hide CellsDistinct;
    assert IsFiber(s, IndexOf(s, d), d);
  }

  /** The calls that are open at moment t in each context of fiber d, counting from moment a. */
  ghost function FramesAt(code: Program, r: Run, d: int, a: nat, t: nat): seq<seq<Frame>>
    requires |r.states| == |r.events| + 1 && a <= t <= |r.events|
  {
    var s := r.states[if t == a then a else t - 1];
    var i := IndexOf(s, d);
    if !HasContext(s, i) then []
    else if t == a then seq(|s.fibers[i].contexts|, _ => [])
    else FramesAfter(code, s, r.events[t - 1], i, FramesAt(code, r, d, a, t - 1))
  }

  /** The calls that are open in its current context. */
  ghost function OpenAt(code: Program, r: Run, d: int, a: nat, t: nat): seq<Frame>
    requires |r.states| == |r.events| + 1 && a <= t <= |r.events|
  {
    var fs := FramesAt(code, r, d, a, t);
    if fs == [] then [] else Last(fs)
  }

  ghost predicate NestsAt(code: Program, r: Run, d: int, a: nat, t: nat)
    requires |r.states| == |r.events| + 1 && a <= t < |r.events|
  {
    var s := r.states[t];
    var i := IndexOf(s, d);
    HasContext(s, i) ==> Nests(code, s, r.events[t], i, OpenAt(code, r, d, a, t))
  }

  lemma {:induction false} RunWellScoped(code: Program, r: Run, t: nat)
    requires |r.states| == |r.events| + 1 && IsRun(code, r) && t <= |r.events| && WellScoped(r.states[0])
    ensures WellScoped(r.states[t])
    decreases t
  {
    hide *;
    if t > 0 {
      RunWellScoped(code, r, t - 1);
      RunNext(code, r, t - 1, t);
      WellScopedStep(code, r.states[t - 1], r.events[t - 1], r.states[t]);
    }
  }

  /** Throughout the call the scope arrays stay above the caller's. */
  lemma {:induction false} FramesHold(code: Program, r: Run, d: int, a: nat, i0: int, t: nat) returns (i: int)
    requires IsRun(code, r) && a <= t <= |r.events|
    requires IsFiber(r.states[a], i0, d) && WellScoped(r.states[a])
    requires forall u :: a <= u < t ==> NestsAt(code, r, d, a, u)
    ensures IsFiber(r.states[t], i, d) && FramedFiber(r.states[t], i, FramesAt(code, r, d, a, t))
    decreases t
  {
    if t == a {
      i := i0;
      RunSeparate(code, r, a);
      IndexIs(r.states[a], i0, d);
      StartFramed(r.states[a], i0);
    } else {
      hide Next, Separate, FramedFiber, Nests, FramesAfter, WellScoped, Views;
      var j := FramesHold(code, r, d, a, i0, t - 1);
      RunNext(code, r, t - 1, t);
      IndexIs(r.states[t - 1], j, d);
      assert NestsAt(code, r, d, a, t - 1);
      TopFramed(r.states[t - 1], j, FramesAt(code, r, d, a, t - 1));
      i := FrameStep(code, r.states[t - 1], r.events[t - 1], r.states[t], j, FramesAt(code, r, d, a, t - 1));
      TopFramed(r.states[t], i, FramesAfter(code, r.states[t - 1], r.events[t - 1], j, FramesAt(code, r, d, a, t - 1)));
    }
  }

  lemma StartFramed(s: State, i: int)
    requires WellScoped(s) && HasContext(s, i) && Separate(s)
    ensures FramedFiber(s, i, seq(|s.fibers[i].contexts|, _ => []))
  {
    hide CellsDistinct;
    var v := Views(s, i);
    forall a | 0 <= a < |v| ensures Framed(s.scopes, v[a].scopes, []) {
      assert InScope(s.cells[s.fibers[i].contexts[a].cell], |s.scopes|);
    }
  }

  /** Fiber i runs the instruction apply at moment a. */
  ghost predicate AppliesAt(code: Program, r: Run, d: int, a: nat, i: int) {
    && |r.states| == |r.events| + 1 && a < |r.events| && IsFiber(r.states[a], i, d)
    && r.events[a] == StepFiber(i) && code(Current(r.states[a], i).pc).Apply?
  }

  /** Every context has this call at the bottom of its open calls, or none open. */
  ghost predicate Bottomed(fs: seq<seq<Frame>>, f: Frame) {
    forall a :: 0 <= a < |fs| && fs[a] != [] ==> fs[a][0] == f
  }

  lemma KeepBottom(code: Program, s: State, e: Event, i: int, fs: seq<seq<Frame>>, f: Frame)
    requires HasContext(s, i) && fs != [] && Bottomed(fs, f) && Last(fs) != []
    ensures Bottomed(FramesAfter(code, s, e, i, fs), f)
  {
    hide Kind, Views;
    var fs' := FramesAfter(code, s, e, i, fs);
    forall a | 0 <= a < |fs'| && fs'[a] != [] ensures fs'[a][0] == f {
      match Kind(code, s, e, i)
      case Same =>
      case Worked => if a < |fs| - 1 { assert fs'[a] == fs[a]; } else { assert fs'[a][0] == Last(fs)[0]; }
      case Suspended => if a < |fs| { assert fs'[a] == fs[a]; }
      case WasCut =>
      case Undone => assert fs'[a] == fs[a];
    }
  }

  lemma FramesAtNext(code: Program, r: Run, d: int, a: nat, t: nat, u: nat)
    requires |r.states| == |r.events| + 1 && a <= t && u == t + 1 && u <= |r.events|
    ensures var s := r.states[t];
            var i := IndexOf(s, d);
            FramesAt(code, r, d, a, u)
            == if HasContext(s, i) then FramesAfter(code, s, r.events[t], i, FramesAt(code, r, d, a, t)) else []
  {}

  lemma FirstFrame(code: Program, r: Run, d: int, a: nat, i0: int, t: nat)
    requires AppliesAt(code, r, d, a, i0) && Separate(r.states[a]) && t == a + 1 && t <= |r.events|
    ensures Bottomed(FramesAt(code, r, d, a, t),
                     Frame(CurrentCell(r.states[a], i0).scopes, Current(r.states[a], i0).pc + 1))
  {
    hide Separate, Views;
    IndexIs(r.states[a], i0, d);
    TopIsCurrent(r.states[a], i0);
    FramesAtNext(code, r, d, a, a, t);
    var fs := FramesAt(code, r, d, a, a);
    assert forall x :: 0 <= x < |fs| ==> fs[x] == [];
  }

  /** While the call is open in the current context, it is at the bottom in every context. */
  lemma {:induction false} BottomFrame(code: Program, r: Run, d: int, a: nat, i0: int, t: nat)
    requires |r.states| == |r.events| + 1 && AppliesAt(code, r, d, a, i0) && a < t <= |r.events|
    requires Separate(r.states[a]) && HasContext(r.states[a], i0)
    requires forall u :: a < u <= t ==> OpenAt(code, r, d, a, u) != []
    ensures Bottomed(FramesAt(code, r, d, a, t),
                     Frame(CurrentCell(r.states[a], i0).scopes, Current(r.states[a], i0).pc + 1))
    decreases t
  {
    hide *;
    assert OpenAt(code, r, d, a, t) != [];
    if t == a + 1 {
      FirstFrame(code, r, d, a, i0, t);
    } else {
      BottomFrame(code, r, d, a, i0, t - 1);
      FramesAtNext(code, r, d, a, t - 1, t);
      assert OpenAt(code, r, d, a, t - 1) != [];
      OpenIsLast(code, r, d, a, t - 1);
      var f := Frame(CurrentCell(r.states[a], i0).scopes, Current(r.states[a], i0).pc + 1);
      if HasContext(r.states[t - 1], IndexOf(r.states[t - 1], d)) {
        KeepBottom(code, r.states[t - 1], r.events[t - 1], IndexOf(r.states[t - 1], d), FramesAt(code, r, d, a, t - 1),
                   f);
      } else {
        NoneBottomed(f);
      }
    }
  }

  lemma NoneBottomed(f: Frame)
    ensures Bottomed([], f)
  {}

  lemma OpenIsLast(code: Program, r: Run, d: int, a: nat, t: nat)
    requires |r.states| == |r.events| + 1 && a <= t <= |r.events| && OpenAt(code, r, d, a, t) != []
    ensures var fs := FramesAt(code, r, d, a, t); fs != [] && Last(fs) == OpenAt(code, r, d, a, t)
  {}

  /** A call that runs from the apply at moment a to the matching ret at moment b, in any run, whatever the
      other fibers do, and with any suspends, cuts and undos on the way that stay within the call: the ret
      brings back the caller's exact scope array and the address just after the apply, however many scopes
      are still pushed and calls were made in between. */
  lemma CallReturns(code: Program, r: Run, d: int, a: nat, i0: int, b: nat, c: nat, i1: int) returns (i2: int)
    requires IsRun(code, r) && WellScoped(r.states[0]) && a < b < c <= |r.events| && c == b + 1
    requires AppliesAt(code, r, d, a, i0)
    requires forall u :: a <= u <= b ==> NestsAt(code, r, d, a, u)
    requires forall u :: a < u <= b ==> OpenAt(code, r, d, a, u) != []
    requires |OpenAt(code, r, d, a, b)| == 1
    requires IsFiber(r.states[b], i1, d) && r.events[b] == StepFiber(i1) && code(Current(r.states[b], i1).pc).Ret?
    ensures IsFiber(r.states[c], i2, d)
    ensures CurrentCell(r.states[c], i2).scopes == CurrentCell(r.states[a], i0).scopes
    ensures Current(r.states[c], i2).pc == Current(r.states[a], i0).pc + 1
    ensures CurrentCell(r.states[c], i2).stack == CurrentCell(r.states[b], i1).stack
  {
    RunWellScoped(code, r, a);
    RunSeparate(code, r, a);
    hide Next, Separate, FramedFiber, Nests, FramesAfter, FramesAt, WellScoped, Views;
    var i := FramesHold(code, r, d, a, i0, b);
    RunNext(code, r, b, c);
    IndexIs(r.states[b], i, d);
    IndexIs(r.states[b], i1, d);
    BottomFrame(code, r, d, a, i0, b);
    assert NestsAt(code, r, d, a, b);
    var fs := FramesAt(code, r, d, a, b);
    i2 := FrameStep(code, r.states[b], r.events[b], r.states[c], i1, fs);
    TopFramed(r.states[c], i2, FramesAfter(code, r.states[b], r.events[b], i1, fs));
  }

  /** A call of a function with an argument whose body leaves a value in the argument's place: the caller goes on
      behind the apply with its scope array and its own stack, the value in the place of the two operands. */
  lemma CallGivesValue(code: Program, r: Run, d: int, a: nat, i0: int, b: nat, c: nat, i1: int,
                       rest: seq<Val>, f: int, arg: Val, v: Val)
      returns (i2: int)
    requires IsRun(code, r) && WellScoped(r.states[0]) && a < b < c <= |r.events| && c == b + 1
    requires AppliesAt(code, r, d, a, i0)
    requires forall u :: a <= u <= b ==> NestsAt(code, r, d, a, u)
    requires forall u :: a < u <= b ==> OpenAt(code, r, d, a, u) != []
    requires |OpenAt(code, r, d, a, b)| == 1
    requires IsFiber(r.states[b], i1, d) && r.events[b] == StepFiber(i1) && code(Current(r.states[b], i1).pc).Ret?
    requires CurrentCell(r.states[a], i0).stack == rest + [Fun(f), arg] && 0 <= f < |r.states[a].funcs|
    requires CurrentCell(r.states[b], i1).stack == rest + [v]
    ensures Step(code, r.states[a], i0) == Go(r.states[a + 1]) && HasContext(r.states[a + 1], i0)
    ensures CurrentCell(r.states[a + 1], i0).stack == rest + [arg]
    ensures Current(r.states[a + 1], i0).pc == r.states[a].funcs[f].address
    ensures IsFiber(r.states[c], i2, d) && Current(r.states[c], i2).pc == Current(r.states[a], i0).pc + 1
    ensures CurrentCell(r.states[c], i2) == Cell(rest + [v], CurrentCell(r.states[a], i0).scopes)
  {
    hide Step, FramesAt, NestsAt, Next;
    i2 := CallReturns(code, r, d, a, i0, b, c, i1);
    ApplyEnters(code, r.states[a], i0, f, arg, rest);
    GoesOn(code, r, a, i0);
  }

  lemma GoesOn(code: Program, r: Run, a: nat, i: int)
    requires IsRun(code, r) && a < |r.events| && r.events[a] == StepFiber(i) && Step(code, r.states[a], i).Go?
    ensures Step(code, r.states[a], i) == Go(r.states[a + 1])
  {
    hide Step;
    RunNext(code, r, a, a + 1);
  }

  /** The call was opened by an apply of the fiber between moments a and t. */
  ghost predicate Opened(code: Program, r: Run, d: int, a: nat, t: nat, f: Frame) {
    exists u: nat, j :: a <= u < t && AppliesAt(code, r, d, u, j)
      && f == Frame(CurrentCell(r.states[u], j).scopes, Current(r.states[u], j).pc + 1)
  }

  ghost predicate AllOpened(code: Program, r: Run, d: int, a: nat, t: nat, fs: seq<seq<Frame>>) {
    forall x, k :: 0 <= x < |fs| && 0 <= k < |fs[x]| ==> Opened(code, r, d, a, t, fs[x][k])
  }

  lemma OpenedLater(code: Program, r: Run, d: int, a: nat, t: nat, u: nat, f: Frame)
    requires Opened(code, r, d, a, t, f) && t <= u
    ensures Opened(code, r, d, a, u, f)
  {}

  lemma OpenedStep(code: Program, r: Run, d: int, a: nat, t: nat, u: nat, i: int, fs: seq<seq<Frame>>)
    requires |r.states| == |r.events| + 1 && a <= t && u == t + 1 && u <= |r.events| && IsFiber(r.states[t], i, d)
    requires AllOpened(code, r, d, a, t, fs)
    ensures AllOpened(code, r, d, a, u, FramesAfter(code, r.states[t], r.events[t], i, fs))
  {
    hide Kind, Views, AppliesAt, Opened;
    var s, e := r.states[t], r.events[t];
    var fs' := FramesAfter(code, s, e, i, fs);
    if fs != [] {
      var top := TopFrames(code, s, e, i, Last(fs));
      forall k | 0 <= k < |top| ensures Opened(code, r, d, a, u, top[k]) {
        if k < |Last(fs)| { OpenedLater(code, r, d, a, t, u, Last(fs)[k]); } else { OpenedNow(code, r, d, a, t, u, i); }
      }
      forall x, k | 0 <= x < |fs'| && 0 <= k < |fs'[x]| ensures Opened(code, r, d, a, u, fs'[x][k]) {
        var y := OldFrames(Kind(code, s, e, i), fs, top, x);
        if y < |fs| { OpenedLater(code, r, d, a, t, u, fs[y][k]); }
      }
    }
  }

  lemma OldFrames(kind: Change, fs: seq<seq<Frame>>, top: seq<Frame>, x: int) returns (y: nat)
    requires fs != [] && 0 <= x < |ChangedFrames(kind, fs, top)|
    ensures ChangedFrames(kind, fs, top)[x] == if y < |fs| then fs[y] else top
  {
    match kind
    case Same => y := x;
    case Worked => y := if x < |fs| - 1 then x else |fs|;
    case Suspended => y := if x < |fs| then x else |fs| - 1;
    case WasCut => y := |fs| - 1;
    case Undone => y := x;
  }

  lemma OpenedNow(code: Program, r: Run, d: int, a: nat, t: nat, u: nat, i: int)
    requires |r.states| == |r.events| + 1 && a <= t && u == t + 1 && u <= |r.events| && IsFiber(r.states[t], i, d)
    ensures r.events[t] == StepFiber(i) && code(Top(r.states[t], i).pc).Apply?
        ==> Opened(code, r, d, a, u, Frame(Top(r.states[t], i).scopes, Top(r.states[t], i).pc + 1))
  {
    TopIsCurrent(r.states[t], i);
    hide Views;
    if r.events[t] == StepFiber(i) && code(Top(r.states[t], i).pc).Apply? {
      assert AppliesAt(code, r, d, t, i);
    }
  }

  lemma {:induction false} AllOpenedAt(code: Program, r: Run, d: int, a: nat, i0: int, t: nat)
    requires IsRun(code, r) && a <= t <= |r.events| && IsFiber(r.states[a], i0, d) && WellScoped(r.states[a])
    requires forall u :: a <= u < t ==> NestsAt(code, r, d, a, u)
    ensures AllOpened(code, r, d, a, t, FramesAt(code, r, d, a, t))
    decreases t
  {
    hide Next, Separate, Nests, FramesAfter, WellScoped, Views, AppliesAt, Opened, FramedFiber;
    if t > a {
      AllOpenedAt(code, r, d, a, i0, t - 1);
      var j := FramesHold(code, r, d, a, i0, t - 1);
      RunSeparate(code, r, t - 1);
      IndexIs(r.states[t - 1], j, d);
      FramesAtNext(code, r, d, a, t - 1, t);
      OpenedStep(code, r, d, a, t - 1, t, j, FramesAt(code, r, d, a, t - 1));
    }
  }

  /** Every ret of a run in which calls nest comes back to an apply: to the exact scope array that the fiber
      had when it executed that apply, and to the address just after it - also when the call was left by an
      undo or had already returned and an undo went back into it. */
  lemma EveryRetComesBack(code: Program, r: Run, d: int, a: nat, i0: int, b: nat, c: nat, i1: int)
      returns (t: nat, j: int, i2: int)
    requires IsRun(code, r) && WellScoped(r.states[0]) && a <= b < c <= |r.events| && c == b + 1
    requires IsFiber(r.states[a], i0, d) && forall u :: a <= u <= b ==> NestsAt(code, r, d, a, u)
    requires IsFiber(r.states[b], i1, d) && r.events[b] == StepFiber(i1) && code(Current(r.states[b], i1).pc).Ret?
    ensures a <= t < b && AppliesAt(code, r, d, t, j) && IsFiber(r.states[c], i2, d)
    ensures CurrentCell(r.states[c], i2).scopes == CurrentCell(r.states[t], j).scopes
    ensures Current(r.states[c], i2).pc == Current(r.states[t], j).pc + 1
    ensures CurrentCell(r.states[c], i2).stack == CurrentCell(r.states[b], i1).stack
  {
    RunWellScoped(code, r, a);
    hide Next, Separate, FramedFiber, Nests, FramesAfter, FramesAt, WellScoped, Views, AppliesAt, Opened;
    var i := FramesHold(code, r, d, a, i0, b);
    RunNext(code, r, b, c);
    IndexIs(r.states[b], i, d);
    IndexIs(r.states[b], i1, d);
    AllOpenedAt(code, r, d, a, i0, b);
    assert NestsAt(code, r, d, a, b);
    var fs := FramesAt(code, r, d, a, b);
    TopFramed(r.states[b], i1, fs);
    i2 := FrameStep(code, r.states[b], r.events[b], r.states[c], i1, fs);
    TopFramed(r.states[c], i2, FramesAfter(code, r.states[b], r.events[b], i1, fs));
    t, j := WhereOpened(code, r, d, a, b, Last(Last(fs)));
  }

  lemma WhereOpened(code: Program, r: Run, d: int, a: nat, t: nat, f: Frame) returns (u: nat, j: int)
    requires Opened(code, r, d, a, t, f)
    ensures a <= u < t && AppliesAt(code, r, d, u, j)
    ensures f == Frame(CurrentCell(r.states[u], j).scopes, Current(r.states[u], j).pc + 1)
  {
    u, j :| a <= u < t && AppliesAt(code, r, d, u, j)
            && f == Frame(CurrentCell(r.states[u], j).scopes, Current(r.states[u], j).pc + 1);
  }

  // ---------- where a call goes ----------

  /** A function made by lambda at address a with operand n, then an argument, then apply: execution goes on
      at a + n with the argument on the caller's stack, in a new empty scope that closes over the scope
      where lambda ran and remembers the address after the apply. */
  lemma LambdaThenApply(code: Program, s: State, s1: State, s2: State, fi: int, arg: Val)
    requires HasContext(s, fi) && code(Current(s, fi).pc).Lambda? && Step(code, s, fi) == Go(s1)
    requires HasContext(s1, fi) && code(Current(s1, fi).pc).Local? && Step(code, s1, fi) == Go(s2)
    requires HasContext(s2, fi) && CurrentCell(s2, fi).stack == CurrentCell(s1, fi).stack + [arg]
    requires code(Current(s2, fi).pc).Apply?
    ensures var pc, cell := Current(s, fi).pc, CurrentCell(s, fi);
            var o := Step(code, s2, fi);
            && cell.scopes != [] && o.Go? && HasContext(o.s, fi)
            && Current(o.s, fi).pc == pc + code(pc).location
            && CurrentCell(o.s, fi) == Cell(cell.stack + [arg], cell.scopes + [|s.scopes|])
            && o.s.scopes == s.scopes + [Scope(map[], Current(s2, fi).pc + 1, Last(cell.scopes), false)]
  {
    LambdaMakes(code, s, fi);
    ArgumentPushed(code, s1, fi, s2);
    ApplyEnters(code, s2, fi, |s.funcs|, arg, CurrentCell(s, fi).stack);
  }

  lemma LambdaMakes(code: Program, s: State, fi: int)
    requires HasContext(s, fi) && code(Current(s, fi).pc).Lambda? && Step(code, s, fi).Go?
    ensures var s', cell, pc := Step(code, s, fi).s, CurrentCell(s, fi), Current(s, fi).pc;
            && cell.scopes != [] && HasContext(s', fi) && s'.scopes == s.scopes
            && CurrentCell(s', fi) == cell.(stack := cell.stack + [Fun(|s.funcs|)])
            && s'.funcs == s.funcs + [Func(Last(cell.scopes), pc + code(pc).location)]
  {}

  lemma ArgumentPushed(code: Program, s: State, fi: int, s': State)
    requires HasContext(s, fi) && code(Current(s, fi).pc).Local? && Step(code, s, fi) == Go(s')
    ensures HasContext(s', fi) && s'.scopes == s.scopes && s'.funcs == s.funcs
    ensures CurrentCell(s', fi).scopes == CurrentCell(s, fi).scopes
  {}

  lemma ApplyEnters(code: Program, s: State, fi: int, f: int, arg: Val, rest: seq<Val>)
    requires HasContext(s, fi) && code(Current(s, fi).pc).Apply? && 0 <= f < |s.funcs|
    requires CurrentCell(s, fi).stack == rest + [Fun(f), arg]
    ensures var o, cell, pc := Step(code, s, fi), CurrentCell(s, fi), Current(s, fi).pc;
            && o.Go? && HasContext(o.s, fi) && Current(o.s, fi).pc == s.funcs[f].address
            && CurrentCell(o.s, fi) == Cell(rest + [arg], cell.scopes + [|s.scopes|])
            && o.s.scopes == s.scopes + [Scope(map[], pc + 1, s.funcs[f].closure, false)]
  {
    var stack := CurrentCell(s, fi).stack;
    assert stack[..|stack| - 2] == rest;
  }
}
