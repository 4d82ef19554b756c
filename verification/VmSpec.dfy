/** The control part of vm/vm.c as a state machine: fibers with saved execution contexts, evaluation
    stacks, scope arrays and scopes, and what one call of step or of a response handler does to them. */
module VmSpec {
  import opened Commons

  const NO_SCOPE := -1
  const UNDO := Str("__UNDO__")

  /** A value on an evaluation stack; functions and arrays by the cell that holds them. */
  datatype Val = Int(i: int) | Str(s: string) | Fun(f: int) | Arr(a: int) | Other(typ: int, data: int)

  datatype Scope = Scope(locals: map<string, Val>, returnAddress: int, closure: int, isFiber: bool)
  datatype Func = Func(closure: int, address: int)

  /** An execution context's own objects: its evaluation stack (the top is last) and its array of scope
      references (the current scope is last).  Every context allocates the two together. */
  datatype Cell = Cell(stack: seq<Val>, scopes: seq<int>)
  datatype Context = Context(id: int, pc: int, cell: int)

  datatype Awaiting = Nothing | Choice | RawData | Join
  datatype Fiber = Fiber(id: int, contexts: seq<Context>, awaiting: Awaiting, client: Val, choices: map<Val, Val>)
  datatype Request = Request(client: Val, fiberId: int, header: Val, choices: map<Val, Val>)

  type Arrays = map<int, seq<Val>>
  datatype State = State(fibers: seq<Fiber>, cells: seq<Cell>, scopes: seq<Scope>, funcs: seq<Func>,
                         arrays: Arrays, maxId: int, players: set<Val>, gameOver: bool, sent: seq<Request>)

  /** What an instruction that only works on the current evaluation stack and on arrays does. */
  datatype Effect = Done(arrays: Arrays, pc: int, stack: seq<Val>) | Died

  /** One instruction with its operands.  `Local` is any instruction of `size` bytes that touches neither
      scopes, contexts nor fibers, branches included. */
  datatype Instr =
    | Local(size: nat, effect: (Arrays, int, seq<Val>) -> Effect)
    | LdVar(key: string) | StVar(key: string) | PStVar(key: string) | RVar(key: string)
    | PushScope | PopScope | Lambda(location: int) | Apply | Ret
    | Suspend | Cut | Fork | JoinFibers | GetRaw

  /** The decoded program: the instruction at an address. */
  type Program = int -> Instr

  /** step returns 0, 1, 2 or 3; a failed assertion, DIE or a read outside an array ends the program. */
  datatype Outcome = Go(s: State) | Wait(s: State) | Over(s: State) | Ended(s: State) | Crash

  function Size(i: Instr): nat {
    match i
    case Local(size, _) => size
    case LdVar(_) | StVar(_) | PStVar(_) | RVar(_) | Lambda(_) => 5
    case _ => 1
  }

  // ---------- parts of the state ----------

  predicate HasContext(s: State, fi: int) {
    && 0 <= fi < |s.fibers| && s.fibers[fi].contexts != []
    && 0 <= Last(s.fibers[fi].contexts).cell < |s.cells|
  }

  function Last<T>(xs: seq<T>): T
    requires xs != []
  {
    xs[|xs| - 1]
  }

  function Init<T>(xs: seq<T>): seq<T>
    requires xs != []
  {
    xs[..|xs| - 1]
  }

  /** current_ec. */
  function Current(s: State, fi: int): Context
    requires HasContext(s, fi)
  {
    Last(s.fibers[fi].contexts)
  }

  function CurrentCell(s: State, fi: int): Cell
    requires HasContext(s, fi)
  {
    s.cells[Current(s, fi).cell]
  }

  function WithContexts(s: State, fi: int, contexts: seq<Context>): State
    requires 0 <= fi < |s.fibers|
  {
    s.(fibers := s.fibers[fi := s.fibers[fi].(contexts := contexts)])
  }

  function WithPc(s: State, fi: int, pc: int): State
    requires HasContext(s, fi)
  {
    WithContexts(s, fi, Init(s.fibers[fi].contexts) + [Current(s, fi).(pc := pc)])
  }

  function WithCell(s: State, fi: int, cell: Cell): State
    requires HasContext(s, fi)
  {
    s.(cells := s.cells[Current(s, fi).cell := cell])
  }

  function Push(s: State, fi: int, v: Val): State
    requires HasContext(s, fi)
  {
    var cell := CurrentCell(s, fi);
    WithCell(s, fi, cell.(stack := cell.stack + [v]))
  }

  /** The state that init_vm leaves: the root fiber with one context that has one scope. */
  function Start(players: set<Val>): State {
    State([Fiber(0, [Context(1, 0, 0)], Nothing, Int(0), map[])], [Cell([], [0])],
          [Scope(map[], 0, NO_SCOPE, false)], [], map[], 2, players, false, [])
  }

  // ---------- scopes ----------

  /** The scope with the innermost binding of a key along the closure chain that starts at `id`. */
  function Owner(scopes: seq<Scope>, id: int, key: string): (r: int)
    ensures r == NO_SCOPE || (0 <= r < |scopes| && r <= id && key in scopes[r].locals)
    decreases id
  {
    if !(0 <= id < |scopes|) then NO_SCOPE
    else if key in scopes[id].locals then id
    else if scopes[id].closure < id then Owner(scopes, scopes[id].closure, key)
    else NO_SCOPE
  }

  /** load_var: the innermost binding. */
  function LoadVar(scopes: seq<Scope>, id: int, key: string): Option<Val> {
    var o := Owner(scopes, id, key);
    if o == NO_SCOPE then None else Some(scopes[o].locals[key])
  }

  /** replace_var: the innermost binding changes. */
  function ReplaceVar(scopes: seq<Scope>, id: int, key: string, val: Val): Option<seq<Scope>> {
    var o := Owner(scopes, id, key);
    if o == NO_SCOPE then None else Some(scopes[o := scopes[o].(locals := scopes[o].locals[key := val])])
  }

  /** The walk of ret: the position of the last scope with a return address. */
  function Unwind(scopes: seq<Scope>, list: seq<int>): (r: Option<nat>)
    ensures r.Some? ==> r.value < |list| && 0 <= list[r.value] < |scopes|
    ensures r.Some? ==> scopes[list[r.value]].returnAddress != 0
  {
    if list == [] || !(0 <= Last(list) < |scopes|) then None
    else if scopes[Last(list)].returnAddress != 0 then Some(|list| - 1)
    else Unwind(scopes, Init(list))
  }

  // ---------- step ----------

  /** step: fetch, which advances the pc, and execute. */
  function Step(code: Program, s: State, fi: int): Outcome {
    if !HasContext(s, fi) then Crash
    else
      var pc := Current(s, fi).pc;
      Exec(WithPc(s, fi, pc + Size(code(pc))), fi, code(pc))
  }

  function Exec(s: State, fi: int, instr: Instr): Outcome {
    if !HasContext(s, fi) then Crash
    else
      match instr
      case Local(_, effect) => ExecLocal(s, fi, effect)
      case LdVar(key) => ExecLdVar(s, fi, key)
      case StVar(key) => ExecStVar(s, fi, key, true)
      case PStVar(key) => ExecStVar(s, fi, key, false)
      case RVar(key) => ExecRVar(s, fi, key)
      case PushScope => ExecPushScope(s, fi)
      case PopScope => ExecPopScope(s, fi)
      case Lambda(location) => ExecLambda(s, fi, location)
      case Apply => ExecApply(s, fi)
      case Ret => ExecRet(s, fi)
      case Suspend => ExecSuspend(s, fi)
      case Cut => Go(WithContexts(s, fi, [Current(s, fi)]))
      case Fork => ExecFork(s, fi)
      case JoinFibers => ExecJoin(s, fi)
      case GetRaw => ExecGetRaw(s, fi)
  }

  function ExecLocal(s: State, fi: int, effect: (Arrays, int, seq<Val>) -> Effect): Outcome
    requires HasContext(s, fi)
  {
    var cell := CurrentCell(s, fi);
    var e := effect(s.arrays, Current(s, fi).pc, cell.stack);
    if e.Died? then Crash
    else Go(WithCell(WithPc(s.(arrays := e.arrays), fi, e.pc), fi, cell.(stack := e.stack)))
  }

  function ExecLdVar(s: State, fi: int, key: string): Outcome
    requires HasContext(s, fi)
  {
    var cell := CurrentCell(s, fi);
    if cell.scopes == [] then Crash
    else
      var v := LoadVar(s.scopes, Last(cell.scopes), key);
      if v.None? then Crash else Go(Push(s, fi, v.value))
  }

  function ExecStVar(s: State, fi: int, key: string, pop: bool): Outcome
    requires HasContext(s, fi)
  {
    var cell := CurrentCell(s, fi);
    if cell.scopes == [] || cell.stack == [] || !(0 <= Last(cell.scopes) < |s.scopes|) then Crash
    else
      var id := Last(cell.scopes);
      var scopes := s.scopes[id := s.scopes[id].(locals := s.scopes[id].locals[key := Last(cell.stack)])];
      Go(WithCell(s.(scopes := scopes), fi, if pop then cell.(stack := Init(cell.stack)) else cell))
  }

  function ExecRVar(s: State, fi: int, key: string): Outcome
    requires HasContext(s, fi)
  {
    var cell := CurrentCell(s, fi);
    if cell.scopes == [] || cell.stack == [] then Crash
    else
      var scopes := ReplaceVar(s.scopes, Last(cell.scopes), key, Last(cell.stack));
      if scopes.None? then Crash
      else Go(WithCell(s.(scopes := scopes.value), fi, cell.(stack := Init(cell.stack))))
  }

  function ExecPushScope(s: State, fi: int): Outcome
    requires HasContext(s, fi)
  {
    var cell := CurrentCell(s, fi);
    if cell.scopes == [] then Crash
    else
      var scope := Scope(map[], 0, Last(cell.scopes), false);
      Go(WithCell(s.(scopes := s.scopes + [scope]), fi, cell.(scopes := cell.scopes + [|s.scopes|])))
  }

  function ExecPopScope(s: State, fi: int): Outcome
    requires HasContext(s, fi)
  {
    var cell := CurrentCell(s, fi);
    if cell.scopes == [] then Crash else Go(WithCell(s, fi, cell.(scopes := Init(cell.scopes))))
  }

  /** init_function: the current scope is the closure; the address is relative to the instruction. */
  function ExecLambda(s: State, fi: int, location: int): Outcome
    requires HasContext(s, fi)
  {
    var cell := CurrentCell(s, fi);
    if cell.scopes == [] then Crash
    else
      var f := Func(Last(cell.scopes), Current(s, fi).pc + location - 5);
      Go(WithCell(s.(funcs := s.funcs + [f]), fi, cell.(stack := cell.stack + [Fun(|s.funcs|)])))
  }

  /** The two operands of apply and fork: the argument on top, then the function. */
  predicate HasCall(s: State, fi: int)
    requires HasContext(s, fi)
  {
    var stack := CurrentCell(s, fi).stack;
    |stack| >= 2 && stack[|stack| - 2].Fun? && 0 <= stack[|stack| - 2].f < |s.funcs|
  }

  function Callee(s: State, fi: int): Func
    requires HasContext(s, fi) && HasCall(s, fi)
  {
    var stack := CurrentCell(s, fi).stack;
    s.funcs[stack[|stack| - 2].f]
  }

  function ExecApply(s: State, fi: int): Outcome
    requires HasContext(s, fi)
  {
    if !HasCall(s, fi) then Crash
    else
      var cell := CurrentCell(s, fi);
      var f := Callee(s, fi);
      var scope := Scope(map[], Current(s, fi).pc, f.closure, false);
      var stack := cell.stack[..|cell.stack| - 2] + [Last(cell.stack)];
      Go(WithCell(WithPc(s.(scopes := s.scopes + [scope]), fi, f.address), fi,
                  Cell(stack, cell.scopes + [|s.scopes|])))
  }

  /** ret: the program ends with the last scope; otherwise the scopes go up to and with the last one that
      has a return address, which is where execution goes on, or where the fiber ends. */
  function ExecRet(s: State, fi: int): Outcome
    requires HasContext(s, fi)
  {
    var cell := CurrentCell(s, fi);
    if cell.scopes == [] then Crash
    else if |cell.scopes| == 1 then Over(WithCell(s, fi, cell.(scopes := [])))
    else
      var p := Unwind(s.scopes, cell.scopes);
      if p.None? then Crash
      else
        var scope := s.scopes[cell.scopes[p.value]];
        var s' := WithCell(s, fi, cell.(scopes := cell.scopes[..p.value]));
        if scope.isFiber then Ended(WithoutFiber(s', fi)) else Go(WithPc(s', fi, scope.returnAddress))
  }

  /** A fiber ends; if only the root is left, it goes on. */
  function WithoutFiber(s: State, fi: int): State
    requires 0 <= fi < |s.fibers|
  {
    var rest := s.fibers[..fi] + s.fibers[fi + 1..];
    s.(fibers := if |rest| == 1 then [rest[0].(awaiting := Nothing)] else rest)
  }

  /** The choices of a request: keys and texts alternate from index i on. */
  function Choices(request: seq<Val>, i: nat, choices: map<Val, Val>): map<Val, Val>
    decreases |request| - i
  {
    if i + 1 >= |request| then choices
    else Choices(request, i + 2, choices[request[i] := request[i + 1]])
  }

  /** The operands of suspend: a client on top, then an array of odd length. */
  predicate HasRequest(s: State, stack: seq<Val>) {
    && |stack| >= 2 && Last(stack).Str?
    && var request := stack[|stack| - 2];
       request.Arr? && request.a in s.arrays && |s.arrays[request.a]| % 2 != 0
  }

  /** suspend: the context is cloned, the clone becomes current and awaits an answer.  An undo is offered
      when there are more than two contexts. */
  function ExecSuspend(s: State, fi: int): Outcome
    requires HasContext(s, fi)
  {
    var cell := CurrentCell(s, fi);
    if !HasRequest(s, cell.stack) then Crash
    else
      var fiber := s.fibers[fi];
      var clone := Context(s.maxId, Current(s, fi).pc, |s.cells|);
      var contexts := fiber.contexts + [clone];
      var request := s.arrays[cell.stack[|cell.stack| - 2].a];
      var undo := if |contexts| > 2 then map[UNDO := Str("UNDO")] else map[];
      var choices := Choices(request, 1, undo);
      var client := Last(cell.stack);
      Wait(s.(fibers := s.fibers[fi := Fiber(fiber.id, contexts, Choice, client, choices)],
              cells := s.cells + [cell.(stack := cell.stack[..|cell.stack| - 2])],
              maxId := s.maxId + 1,
              sent := s.sent + [Request(client, fiber.id, request[0], choices)]))
  }

  /** fork: only the root, and only without saved contexts.  The new fiber has a scope of its own and,
      above it, the entry scope that ends the fiber on return. */
  function ExecFork(s: State, fi: int): Outcome
    requires HasContext(s, fi)
  {
    if fi != 0 || |s.fibers[fi].contexts| != 1 || !HasCall(s, fi) then Crash
    else
      var cell := CurrentCell(s, fi);
      var f := Callee(s, fi);
      var base := Scope(map[], 0, NO_SCOPE, false);
      var entry := Scope(map[], f.address, f.closure, true);
      var context := Context(s.maxId + 1, f.address, |s.cells|);
      var newCell := Cell([Last(cell.stack)], [|s.scopes|, |s.scopes| + 1]);
      var popped := WithCell(s, fi, cell.(stack := cell.stack[..|cell.stack| - 2]));
      Go(popped.(fibers := popped.fibers + [Fiber(s.maxId, [context], Nothing, Int(0), map[])],
                 cells := popped.cells + [newCell],
                 scopes := popped.scopes + [base, entry],
                 maxId := s.maxId + 2))
  }

  function ExecJoin(s: State, fi: int): Outcome
    requires HasContext(s, fi)
  {
    if fi != 0 then Crash
    else Wait(s.(fibers := s.fibers[fi := s.fibers[fi].(awaiting := Join)]))
  }

  function ExecGetRaw(s: State, fi: int): Outcome
    requires HasContext(s, fi)
  {
    var cell := CurrentCell(s, fi);
    if cell.stack == [] then Crash
    else
      var fiber := s.fibers[fi].(awaiting := RawData, client := Last(cell.stack), choices := map[]);
      Wait(WithCell(s, fi, cell.(stack := Init(cell.stack))).(fibers := s.fibers[fi := fiber]))
  }

  // ---------- responses ----------

  /** The first fiber that awaits this kind of response from this client. */
  function Waiting(fibers: seq<Fiber>, kind: Awaiting, client: Val): (r: nat)
    ensures r <= |fibers|
    ensures r < |fibers| ==> fibers[r].awaiting == kind && fibers[r].client == client
    ensures forall j :: 0 <= j < r ==> !(fibers[j].awaiting == kind && fibers[j].client == client)
  {
    if fibers == [] then 0
    else if fibers[0].awaiting == kind && fibers[0].client == client then 0
    else 1 + Waiting(fibers[1..], kind, client)
  }

  /** vm_handle_response: an undo drops the clone and the context saved before it and steps back onto
      the suspend; any other choice is pushed. */
  function Respond(s: State, client: Val, choice: Val): Outcome {
    var fi := Waiting(s.fibers, Choice, client);
    if s.gameOver || client !in s.players || fi == |s.fibers| || choice !in s.fibers[fi].choices then Go(s)
    else
      var s' := s.(fibers := s.fibers[fi := s.fibers[fi].(awaiting := Nothing, choices := map[])]);
      if choice == UNDO then
        var contexts := s.fibers[fi].contexts;
        if |contexts| < 3 then Crash
        else
          var kept := contexts[..|contexts| - 2];
          Go(WithContexts(s', fi, Init(kept) + [Last(kept).(pc := Last(kept).pc - 1)]))
      else if !HasContext(s', fi) then Crash
      else Go(Push(s', fi, choice))
  }

  /** vm_handle_raw. */
  function RespondRaw(s: State, client: Val, data: Val): Outcome {
    var fi := Waiting(s.fibers, RawData, client);
    if s.gameOver || client !in s.players || fi == |s.fibers| then Go(s)
    else
      var s' := s.(fibers := s.fibers[fi := s.fibers[fi].(awaiting := Nothing)]);
      if !HasContext(s', fi) then Crash else Go(Push(s', fi, data))
  }
}
