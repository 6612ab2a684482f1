/** One activation of a function, concretely (opcode documentation, crates/lex-bytecode/src/op.rs:22-213).

    A value is either an aggregate this activation built, referred to by its place in `heap`, or
    `Plain`: everything else, foreign aggregates included. Calls and effects may return anything
    that is not an aggregate of this activation, or any aggregate that has already left it. Scalars
    are not told apart, so a branch may go either way. */
module FrameMachine {
  import opened Options
  import opened EscapeStep
  import opened Bodies

  datatype Val = Plain | Ref(id: nat)

  datatype Obj = Obj(site: nat, fields: seq<Val>)

  /** `gone`: the aggregates handed over so far, with everything inside them. */
  datatype Frame = Frame(pc: nat, stack: seq<Val>, locals: seq<Val>, heap: seq<Obj>, gone: set<nat>)

  /** The aggregate `id` and, through its fields, everything inside it. Fields refer to older
      aggregates only. */
  function Deep(heap: seq<Obj>, id: nat): set<nat>
    decreases id
  {
    if id < |heap| then {id} + DeepAll(heap, heap[id].fields, id) else {}
  }

  function DeepAll(heap: seq<Obj>, vals: seq<Val>, bound: nat): set<nat>
    decreases bound, |vals|
  {
    if vals == [] then {} else
      (if vals[0].Ref? && vals[0].id < bound then Deep(heap, vals[0].id) else {})
      + DeepAll(heap, vals[1..], bound)
  }

  function Top(stack: seq<Val>, n: nat): seq<Val>
    requires n <= |stack|
  {
    stack[|stack| - n..]
  }

  function Under(stack: seq<Val>, n: nat): seq<Val>
    requires n <= |stack|
  {
    stack[..|stack| - n]
  }

  /** Operands an instruction passes to something that may outlive the scope. */
  function HandCount(b: Behaviour, policy: Policy): nat {
    match b
    case Hands(n) => n
    case TailHands(n) => n
    case Extends => 1
    case Returns => if policy.FrameScope? then 1 else 0
    case _ => 0
  }

  /** The aggregates leaving at this instruction, at any depth. */
  function Leaving(b: Behaviour, policy: Policy, s: Frame): set<nat> {
    var n := HandCount(b, policy);
    if n <= |s.stack| then DeepAll(s.heap, Top(s.stack, n), |s.heap|) else {}
  }

  /** A value that is no live aggregate of this activation, unless one that has already left. */
  predicate Loose(v: Val, gone: set<nat>) {
    v.Ref? ==> v.id in gone
  }

  /** The part of `v` that is selected; the parts of a foreign value are unknown. */
  ghost predicate PartOf(f: Body, s: Frame, v: Val, sel: Selector, part: Val) {
    if v.Ref? && v.id < |s.heap| then
      var i := Picked(f, s.heap[v.id].site, sel);
      i.Some? && i.value < |s.heap[v.id].fields| && part == s.heap[v.id].fields[i.value]
    else Loose(part, s.gone)
  }

  ghost predicate Step(f: Body, policy: Policy, s: Frame, t: Frame)
    requires s.pc < |f.code|
  {
    t.pc < |f.code| && Does(f, BehaviourAt(f, s.pc), policy, s, t)
  }

  /** One instruction, by its behaviour. */
  ghost predicate Does(f: Body, b: Behaviour, policy: Policy, s: Frame, t: Frame) {
    t.gone == s.gone + Leaving(b, policy, s) && Allocates(b, s, t) && Assigns(b, s, t) && Executes(f, b, s, t)
  }

  predicate Allocates(b: Behaviour, s: Frame, t: Frame) {
    if b.Builds? && b.n <= |s.stack| then t.heap == s.heap + [Obj(s.pc, Top(s.stack, b.n))] else t.heap == s.heap
  }

  predicate Assigns(b: Behaviour, s: Frame, t: Frame) {
    if b.Moves? && b.i < |s.locals| then t.locals == s.locals[b.i := Plain]
    else if b.Writes? && b.i < |s.locals| && s.stack != [] then t.locals == s.locals[b.i := s.stack[|s.stack| - 1]]
    else t.locals == s.locals
  }

  /** Where control and the stack go. */
  ghost predicate Executes(f: Body, b: Behaviour, s: Frame, t: Frame) {
    var depth := |s.stack|;
    match b
    case Produces => t.pc == s.pc + 1 && t.stack == s.stack + [Plain]
    case Discards => t.pc == s.pc + 1 && depth > 0 && t.stack == Under(s.stack, 1)
    case Copies => t.pc == s.pc + 1 && depth > 0 && t.stack == s.stack + Top(s.stack, 1)
    case Reads(i) => t.pc == s.pc + 1 && i < |s.locals| && t.stack == s.stack + [s.locals[i]]
    case Moves(i) => t.pc == s.pc + 1 && i < |s.locals| && t.stack == s.stack + [s.locals[i]]
    case Writes(i) => t.pc == s.pc + 1 && i < |s.locals| && depth > 0 && t.stack == Under(s.stack, 1)
    case Builds(n) => t.pc == s.pc + 1 && n <= depth && t.stack == Under(s.stack, n) + [Ref(|s.heap|)]
    case Hands(n) =>
      t.pc == s.pc + 1 && n <= depth
      && exists r :: Loose(r, t.gone) && t.stack == Under(s.stack, n) + [r]
    case Inspects(n) =>
      t.pc == s.pc + 1 && n <= depth
      && exists r :: Loose(r, t.gone) && t.stack == Under(s.stack, n) + [r]
    case Projects(sel) =>
      t.pc == s.pc + 1 && depth > 0
      && exists r :: PartOf(f, s, s.stack[depth - 1], sel, r) && t.stack == Under(s.stack, 1) + [r]
    case Extends =>
      t.pc == s.pc + 1 && depth >= 2 && t.stack == Under(s.stack, 2) + [Plain]
    case Jumps(off) => t.pc == s.pc + 1 + off && t.stack == s.stack
    case Tests(off) =>
      (t.pc == s.pc + 1 || t.pc == s.pc + 1 + off) && depth > 0 && t.stack == Under(s.stack, 1)
    case Returns | Aborts | TailHands(_) => false
  }

  predicate Start(f: Body, s: Frame) {
    s.pc == 0 && s.stack == [] && s.heap == [] && s.gone == {}
    && |s.locals| == (if f.localsCount < f.arity then f.arity else f.localsCount)
    && forall v | v in s.locals :: v == Plain
  }

  ghost predicate IsRun(f: Body, policy: Policy, run: seq<Frame>)
  {
    |run| > 0 && f.code != [] && Start(f, run[0]) && (forall k | 0 <= k < |run| :: run[k].pc < |f.code|)
    && forall j, k | 0 <= j < k < |run| && k <= j + 1 :: Step(f, policy, run[j], run[k])
  }

  /** Every field or element read of the run yields a value that is no aggregate still inside. */
  ghost predicate FlatReads(f: Body, run: seq<Frame>)
    requires forall k | 0 <= k < |run| :: run[k].pc < |f.code|
  {
    forall j, k | 0 <= j < k < |run| && k <= j + 1 && BehaviourAt(f, run[j].pc).Projects? && run[k].stack != [] ::
      Loose(run[k].stack[|run[k].stack| - 1], run[k].gone)
  }
}
