/** Lexical scoping (vm/vm.c): load_var and replace_var along the chain of closures. */
module VmScopes {
  import opened Commons
  import opened VmSpec
  import opened VmRuns

  /** The closure of a scope is null or an older scope. */
  ghost predicate Lexical(scopes: seq<Scope>) {
    forall k :: 0 <= k < |scopes| ==> NO_SCOPE <= scopes[k].closure < k
  }

  /** Functions and scope arrays refer to existing scopes. */
  ghost predicate WellScoped(s: State) {
    && Lexical(s.scopes)
    && (forall f :: 0 <= f < |s.funcs| ==> 0 <= s.funcs[f].closure < |s.scopes|)
    && (forall k :: 0 <= k < |s.cells| ==> InScope(s.cells[k], |s.scopes|))
  }

  ghost predicate InScope(c: Cell, n: int) {
    forall a :: 0 <= a < |c.scopes| ==> 0 <= c.scopes[a] < n
  }

  /** The scopes from `id` on along the closures, innermost first. */
  ghost function Chain(scopes: seq<Scope>, id: int): (r: seq<int>)
    requires Lexical(scopes) && NO_SCOPE <= id < |scopes|
    ensures forall a :: 0 <= a < |r| ==> 0 <= r[a] <= id
    decreases id
  {
    if id == NO_SCOPE then [] else [id] + Chain(scopes, scopes[id].closure)
  }

  /** Position a of the chain is the innermost binding of the key; the length of the chain if there is none. */
  ghost predicate Innermost(scopes: seq<Scope>, chain: seq<int>, key: string, a: int) {
    && 0 <= a <= |chain|
    && (forall b :: 0 <= b < |chain| ==> 0 <= chain[b] < |scopes|)
    && (forall b :: 0 <= b < a ==> key !in scopes[chain[b]].locals)
    && (a < |chain| ==> key in scopes[chain[a]].locals)
  }

  /** The chain reaches null through ever older scopes. */
  lemma {:induction false} ChainEnds(scopes: seq<Scope>, id: int)
    requires Lexical(scopes) && NO_SCOPE <= id < |scopes|
    ensures var c := Chain(scopes, id);
            && (forall a, b :: 0 <= a < |c| && b == a + 1 && b < |c| ==> c[b] == scopes[c[a]].closure && c[b] < c[a])
            && (c != [] ==> c[0] == id && scopes[Last(c)].closure == NO_SCOPE)
    decreases id
  {
    if id != NO_SCOPE {
      ChainEnds(scopes, scopes[id].closure);
    }
  }

  /** The owner is the first scope of the chain that binds the key. */
  lemma {:induction false} OwnerIsInnermost(scopes: seq<Scope>, id: int, key: string) returns (a: int)
    requires Lexical(scopes) && NO_SCOPE <= id < |scopes|
    ensures var c := Chain(scopes, id);
            Innermost(scopes, c, key, a) && Owner(scopes, id, key) == if a == |c| then NO_SCOPE else c[a]
    decreases id
  {
    var c := Chain(scopes, id);
    a := 0;
    if id != NO_SCOPE && key !in scopes[id].locals {
      var a' := OwnerIsInnermost(scopes, scopes[id].closure, key);
      a := a' + 1;
      assert forall b :: 0 < b < |c| ==> c[b] == Chain(scopes, scopes[id].closure)[b - 1];
    }
  }

  /** After a replace, loads from any scope see the new value exactly when their innermost binding of the
      key is the one that was replaced; every other load is as before. */
  lemma ReplaceThenLoad(scopes: seq<Scope>, id: int, key: string, val: Val, from: int, key': string)
    requires LoadVar(scopes, id, key).Some?
    ensures var scopes' := ReplaceVar(scopes, id, key, val);
            && scopes'.Some? && |scopes'.value| == |scopes| && (Lexical(scopes) ==> Lexical(scopes'.value))
            && LoadVar(scopes'.value, from, key')
               == if key' == key && Owner(scopes, from, key) == Owner(scopes, id, key) then Some(val)
                  else LoadVar(scopes, from, key')
  {
    OwnerAfter(scopes, Owner(scopes, id, key), key, val, from, key');
  }

  /** A new value for a binding leaves every binding where it is. */
  lemma {:induction false} OwnerAfter(scopes: seq<Scope>, o: int, key: string, val: Val, from: int, key': string)
    requires 0 <= o < |scopes| && key in scopes[o].locals
    ensures Owner(scopes[o := scopes[o].(locals := scopes[o].locals[key := val])], from, key')
            == Owner(scopes, from, key')
    decreases from
  {
    if 0 <= from < |scopes| && scopes[from].closure < from {
      OwnerAfter(scopes, o, key, val, scopes[from].closure, key');
    }
  }

  /** A scope pushed or applied does not change what the others see. */
  lemma {:induction false} NewScopeKeepsLoads(scopes: seq<Scope>, scope: Scope, from: int, key: string)
    requires from < |scopes|
    ensures LoadVar(scopes + [scope], from, key) == LoadVar(scopes, from, key)
    decreases from
  {
    if 0 <= from && key !in scopes[from].locals {
      assert (scopes + [scope])[from] == scopes[from];
      if scopes[from].closure < from { NewScopeKeepsLoads(scopes, scope, scopes[from].closure, key); }
    }
  }

  // ---------- over a run ----------

  lemma ExecRVarWellScoped(s: State, fi: int, key: string)
    requires WellScoped(s) && HasContext(s, fi)
    ensures var o := ExecRVar(s, fi, key); o.Go? || o.Wait? || o.Ended? ==> WellScoped(o.s)
  {
    hide Owner;
  }

  lemma ExecForkWellScoped(s: State, fi: int)
    requires WellScoped(s) && HasContext(s, fi)
    ensures var o := ExecFork(s, fi); o.Go? || o.Wait? || o.Ended? ==> WellScoped(o.s)
  {}

  lemma ExecApplyWellScoped(s: State, fi: int)
    requires WellScoped(s) && HasContext(s, fi)
    ensures var o := ExecApply(s, fi); o.Go? || o.Wait? || o.Ended? ==> WellScoped(o.s)
  {}

  lemma ExecRetWellScoped(s: State, fi: int)
    requires WellScoped(s) && HasContext(s, fi)
    ensures var o := ExecRet(s, fi); o.Go? || o.Wait? || o.Ended? ==> WellScoped(o.s)
  {
    assert InScope(CurrentCell(s, fi), |s.scopes|);
  }

  lemma ExecSuspendWellScoped(s: State, fi: int)
    requires WellScoped(s) && HasContext(s, fi)
    ensures var o := ExecSuspend(s, fi); o.Go? || o.Wait? || o.Ended? ==> WellScoped(o.s)
  {
    assert InScope(CurrentCell(s, fi), |s.scopes|);
  }

  lemma ExecWellScoped(s: State, fi: int, instr: Instr)
    requires WellScoped(s) && HasContext(s, fi)
    ensures var o := Exec(s, fi, instr); o.Go? || o.Wait? || o.Ended? ==> WellScoped(o.s)
  {
    hide ExecRVar, ExecFork, ExecApply, ExecRet, ExecSuspend, ReplaceVar, LoadVar, Owner, Choices;
    assert InScope(CurrentCell(s, fi), |s.scopes|);
    match instr
    case RVar(key) => ExecRVarWellScoped(s, fi, key);
    case Fork => ExecForkWellScoped(s, fi);
    case Apply => ExecApplyWellScoped(s, fi);
    case Ret => ExecRetWellScoped(s, fi);
    case Suspend => ExecSuspendWellScoped(s, fi);
    case _ =>
  }

  lemma FetchWellScoped(s: State, fi: int, pc: int)
    requires WellScoped(s) && HasContext(s, fi)
    ensures WellScoped(WithPc(s, fi, pc))
  {}

  lemma StepWellScoped(code: Program, s: State, fi: int)
    requires WellScoped(s) && HasContext(s, fi)
    ensures var o := Step(code, s, fi); o.Go? || o.Wait? || o.Ended? ==> WellScoped(o.s)
  {
    hide *;
    var pc := Current(s, fi).pc;
    StepIsExec(code, s, fi);
    FetchWellScoped(s, fi, pc + Size(code(pc)));
    ExecWellScoped(WithPc(s, fi, pc + Size(code(pc))), fi, code(pc));
  }

  /** Every event keeps the scopes lexical. */
  lemma WellScopedStep(code: Program, s: State, e: Event, s': State)
    requires WellScoped(s) && Next(code, s, e, s')
    ensures WellScoped(s')
  {
    if e.StepFiber? {
      hide WellScoped;
      StepWellScoped(code, s, e.index);
    }
  }
}
