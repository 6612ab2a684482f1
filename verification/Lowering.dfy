/** The opcode tables of the escape analysis and of the machine, and a function as they see it. */
module Lowering {
  import opened Options
  import opened Bytecode
  import Cfg
  import opened EscapeDomain
  import opened EscapeStep
  import Bodies
  import opened EscapePaths

  /** What `step` of the analysis does, opcode by opcode (crates/lex-bytecode/src/escape.rs:389-704). */
  function ActionOf(op: Op): Action
    requires !Fused(op)
  {
    match op
    case PushConst(_) => Push
    case Pop => Discard
    case Dup => Duplicate
    case LoadLocal(i) => Load(i)
    case TakeLocal(i) => Load(i)
    case StoreLocal(i) => Store(i)
    case MakeRecord(_, n) => Build(n)
    case AllocStackRecord(_, n) => Build(n)
    case AllocArenaRecord(_, n) => Build(n)
    case MakeTuple(n) => Build(n)
    case AllocStackTuple(n) => Build(n)
    case AllocArenaTuple(n) => Build(n)
    case MakeList(n) => Leak(n)
    case MakeVariant(_, n) => Leak(n)
    case MakeClosure(_, n) => Leak(n)
    case GetField(_, _) | GetElem(_) | TestVariant(_) | GetVariant(_) | GetVariantArg(_) => Drop(1)
    case GetListLen | GetListElem(_) => Drop(1)
    case GetListElemDyn => Drop(2)
    case ListAppend => Append
    case Jump(off) => Goto(off)
    case JumpIf(off) => Branch(off)
    case JumpIfNot(off) => Branch(off)
    case Return => Ret
    case Panic(_) => Stop
    case TailCall(_, n, _) => TailLeak(n)
    case Call(_, n, _) => Leak(n)
    case CallClosure(n, _) => Leak(n + 1)
    case SortByKey(_) | ParallelMap(_) | ListMap(_) | ListFilter(_) => Leak(2)
    case ListFold(_) => Leak(3)
    case EffectCall(_, _, n, _) => Leak(n)
    case IntAdd | IntSub | IntMul | IntDiv | IntMod | IntEq | IntLt | IntLe => Drop(2)
    case FloatAdd | FloatSub | FloatMul | FloatDiv | FloatEq | FloatLt | FloatLe => Drop(2)
    case NumAdd | NumSub | NumMul | NumDiv | NumMod | NumEq | NumLt | NumLe => Drop(2)
    case BoolAnd | BoolOr | StrConcat | StrEq | BytesEq => Drop(2)
    case IntNeg | FloatNeg | NumNeg | BoolNot | StrLen | BytesLen => Drop(1)
    case _ => Push
  }

  /** What an instruction does when it is executed (crates/lex-bytecode/src/op.rs:22-213,
      crates/lex-bytecode/src/vm/dispatch.rs:95-1200). */
  function BehaviourOf(op: Op): Bodies.Behaviour
    requires !Fused(op)
  {
    match op
    case PushConst(_) => Bodies.Produces
    case Pop => Bodies.Discards
    case Dup => Bodies.Copies
    case LoadLocal(i) => Bodies.Reads(i)
    case TakeLocal(i) => Bodies.Moves(i)
    case StoreLocal(i) => Bodies.Writes(i)
    case MakeRecord(_, n) => Bodies.Builds(n)
    case AllocStackRecord(_, n) => Bodies.Builds(n)
    case AllocArenaRecord(_, n) => Bodies.Builds(n)
    case MakeTuple(n) => Bodies.Builds(n)
    case AllocStackTuple(n) => Bodies.Builds(n)
    case AllocArenaTuple(n) => Bodies.Builds(n)
    case MakeList(n) => Bodies.Hands(n)
    case MakeVariant(_, n) => Bodies.Hands(n)
    case MakeClosure(_, n) => Bodies.Hands(n)
    case Call(_, n, _) => Bodies.Hands(n)
    case CallClosure(n, _) => Bodies.Hands(n + 1)
    case EffectCall(_, _, n, _) => Bodies.Hands(n)
    case SortByKey(_) | ParallelMap(_) | ListMap(_) | ListFilter(_) => Bodies.Hands(2)
    case ListFold(_) => Bodies.Hands(3)
    case ListAppend => Bodies.Extends
    case GetField(name, _) => Bodies.Projects(Bodies.Field(name))
    case GetElem(i) => Bodies.Projects(Bodies.Element(i))
    case TestVariant(_) | GetVariant(_) | GetVariantArg(_) | GetListLen | GetListElem(_) => Bodies.Inspects(1)
    case GetListElemDyn => Bodies.Inspects(2)
    case Jump(off) => Bodies.Jumps(off)
    case JumpIf(off) => Bodies.Tests(off)
    case JumpIfNot(off) => Bodies.Tests(off)
    case Return => Bodies.Returns
    case Panic(_) => Bodies.Aborts
    case TailCall(_, n, _) => Bodies.TailHands(n)
    case IntNeg | FloatNeg | NumNeg | BoolNot | StrLen | BytesLen => Bodies.Inspects(1)
    case _ => Bodies.Inspects(2)
  }

  /** How the parts of what an instruction builds are named (crates/lex-bytecode/src/vm/dispatch.rs:95-285). */
  function LayoutOf(op: Op, shapes: Shapes): Bodies.Layout {
    match op
    case MakeRecord(shape, _) => Shaped(shape, shapes)
    case AllocStackRecord(shape, _) => Shaped(shape, shapes)
    case AllocArenaRecord(shape, _) => Shaped(shape, shapes)
    case MakeTuple(_) | AllocStackTuple(_) | AllocArenaTuple(_) => Bodies.Numbered
    case _ => Bodies.NoParts
  }

  function Shaped(shape: nat, shapes: Shapes): Bodies.Layout {
    if shape < |shapes| then Bodies.Named(shapes[shape]) else Bodies.NoParts
  }

  function Lowered(f: Function): (b: Bodies.Body)
    requires Unfused(f.code)
    ensures |b.code| == |f.code|
  {
    Bodies.Body(f.arity, f.localsCount,
                seq(|f.code|, pc requires 0 <= pc < |f.code| => BehaviourOf(f.code[pc])),
                seq(|f.code|, pc requires 0 <= pc < |f.code| => LayoutOf(f.code[pc], f.shapes)))
  }

  // ---- the tables agree ----

  lemma ActionsAbstractInspection(op: Op)
    requires !Fused(op) && ActionOf(op).Drop?
    ensures ActionOf(op) == Bodies.Abstracts(BehaviourOf(op))
  {
  }

  lemma ActionsAbstractSinks(op: Op)
    requires !Fused(op) && (ActionOf(op).Leak? || ActionOf(op).Build?)
    ensures ActionOf(op) == Bodies.Abstracts(BehaviourOf(op))
  {
  }

  lemma ActionsAbstractRest(op: Op)
    requires !Fused(op) && !ActionOf(op).Drop? && !ActionOf(op).Leak? && !ActionOf(op).Build?
    ensures ActionOf(op) == Bodies.Abstracts(BehaviourOf(op))
  {
  }

  lemma ActionsAbstract(op: Op)
    requires !Fused(op)
    ensures ActionOf(op) == Bodies.Abstracts(BehaviourOf(op))
  {
    hide *;
    if ActionOf(op).Drop? {
      ActionsAbstractInspection(op);
    } else if ActionOf(op).Leak? || ActionOf(op).Build? {
      ActionsAbstractSinks(op);
    } else {
      ActionsAbstractRest(op);
    }
  }

  lemma EdgesAgree(op: Op, pc: nat)
    requires !Fused(op)
    ensures StepSuccs(ActionOf(op), pc) == Successors(op, pc)
  {
  }

  lemma DeltasAgree(op: Op)
    requires !Fused(op)
    ensures op.Return? || op.Panic? || op.TailCall? || StackDelta(op) == HeightDelta(ActionOf(op))
  {
  }

  /** The two tables of the original agree: the analysis and the verifier take the same edges,
      and, where the operands are there, change the stack height alike. */
  lemma TablesAgree(op: Op, pc: nat, s: State)
    requires !Fused(op)
    ensures StepSuccs(ActionOf(op), pc) == Successors(op, pc)
    ensures Successors(op, pc) != [] && |s.stack| >= Operands(ActionOf(op)) ==>
      |StepOut(ActionOf(op), pc, s).stack| == |s.stack| + StackDelta(op)
  {
    EdgesAgree(op, pc);
    DeltasAgree(op);
    if |s.stack| >= Operands(ActionOf(op)) {
      var a := ActionOf(op);
      hide StackDelta, StepOut, ActionOf;
      StepHeight(a, pc, s);
    }
  }

  lemma LoweredActions(f: Function, pc: nat)
    requires Unfused(f.code) && pc < |f.code|
    ensures Bodies.ActionAt(Lowered(f), pc) == ActionOf(f.code[pc])
    ensures StepSuccs(Bodies.ActionAt(Lowered(f), pc), pc) == Successors(f.code[pc], pc)
    ensures Successors(f.code[pc], pc) != [] ==> HeightDelta(Bodies.ActionAt(Lowered(f), pc)) == StackDelta(f.code[pc])
  {
    ActionsAbstract(f.code[pc]);
    EdgesAgree(f.code[pc], pc);
    DeltasAgree(f.code[pc]);
    StaysOrGoes(f.code[pc], pc);
    hide ActionOf, BehaviourOf, LayoutOf, Successors, StackDelta;
  }

  lemma StaysOrGoes(op: Op, pc: nat)
    ensures op.Return? || op.Panic? || op.TailCall? ==> Successors(op, pc) == []
  {
  }

  /** The control-flow paths are the same. */
  lemma LoweredPaths(f: Function, p: Cfg.Path)
    requires Unfused(f.code)
    ensures Bodies.IsPath(Lowered(f).code, p) <==> Cfg.IsPath(f.code, p)
  {
    forall pc: nat, next: nat | pc < |f.code| ensures Bodies.Edge(Lowered(f).code, pc, next) == Cfg.Edge(f.code, pc, next) {
      LoweredActions(f, pc);
      hide Lowered, Successors, StepSuccs;
    }
    hide Lowered, Bodies.Edge, Cfg.Edge;
  }

  /** With the same depths. */
  lemma {:induction false} LoweredDepths(f: Function, p: Cfg.Path)
    requires Unfused(f.code) && Bodies.IsPath(Lowered(f).code, p) && Cfg.IsPath(f.code, p)
    ensures Bodies.PathDepth(Lowered(f).code, p) == Cfg.PathDepth(f.code, p)
    decreases |p|
  {
    if |p| > 1 {
      var q := p[..|p| - 1];
      Bodies.PathPrefix(Lowered(f).code, p);
      Cfg.PathPrefix(f.code, p);
      LoweredDepths(f, q);
      LoweredActions(f, Cfg.Last(q));
      hide Lowered, Successors, StackDelta, Bodies.IsPath, Cfg.IsPath;
    }
  }

  /** What `verify_function` accepts, where no path underflows. */
  ghost predicate Accepted(f: Function)
    requires Unfused(f.code)
  {
    && Cfg.Consistent(f.code)
    && forall p | Cfg.IsPath(f.code, p) :: Operands(ActionOf(f.code[Cfg.Last(p)])) <= Cfg.PathDepth(f.code, p)
  }

  /** The analysis sees such a function as balanced, and no other. */
  lemma AcceptedExactly(f: Function)
    requires Unfused(f.code)
    ensures Accepted(f) <==> Balanced(Lowered(f))
  {
    forall p ensures Bodies.IsPath(Lowered(f).code, p) <==> Cfg.IsPath(f.code, p) { LoweredPaths(f, p); }
    forall p | Cfg.IsPath(f.code, p)
      ensures Bodies.PathDepth(Lowered(f).code, p) == Cfg.PathDepth(f.code, p) && Bodies.Last(p) == Cfg.Last(p)
      ensures Bodies.ActionAt(Lowered(f), Bodies.Last(p)) == ActionOf(f.code[Cfg.Last(p)])
    {
      LoweredDepths(f, p);
      LoweredActions(f, Cfg.Last(p));
    }
    hide Lowered, ActionOf, Bodies.IsPath, Cfg.IsPath, Bodies.ActionAt;
  }
}
