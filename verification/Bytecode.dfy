/** The instruction set, its stack effect and its control flow
    (crates/lex-bytecode/src/op.rs, crates/lex-bytecode/src/verify.rs).

    Constant-pool, local and shape indices are `nat`; jump offsets are signed.
    A jump target below zero wraps to a huge `usize` in the original and is dropped
    there by the `pc >= n` test, so a target outside the code has no edge here. */
module Bytecode {
  import opened Options

  datatype Op =
    // stack manipulation and locals
    | PushConst(c: nat) | Pop | Dup
    | LoadLocal(i: nat) | StoreLocal(i: nat) | TakeLocal(i: nat)
    // constructors
    | MakeRecord(shape: nat, fieldCount: nat)
    | AllocStackRecord(shape: nat, fieldCount: nat)
    | AllocArenaRecord(shape: nat, fieldCount: nat)
    | MakeTuple(arity: nat) | AllocStackTuple(arity: nat) | AllocArenaTuple(arity: nat)
    | MakeList(len: nat) | MakeVariant(name: nat, arity: nat)
    // reads
    | GetField(name: nat, site: nat) | GetElem(idx: nat)
    | TestVariant(name: nat) | GetVariant(name: nat) | GetVariantArg(idx: nat)
    | GetListLen | GetListElem(idx: nat) | ListAppend | GetListElemDyn
    // control flow and calls
    | Jump(off: int) | JumpIf(off: int) | JumpIfNot(off: int)
    | Call(fn: nat, arity: nat, node: nat) | TailCall(fn: nat, arity: nat, node: nat)
    | MakeClosure(fn: nat, captures: nat) | CallClosure(arity: nat, node: nat)
    | SortByKey(node: nat) | ParallelMap(node: nat)
    | ListMap(node: nat) | ListFilter(node: nat) | ListFold(node: nat)
    | EffectCall(kind: nat, op: nat, arity: nat, node: nat)
    | Return | Panic(c: nat)
    // arithmetic, logic, strings
    | IntAdd | IntSub | IntMul | IntDiv | IntMod | IntNeg | IntEq | IntLt | IntLe
    | FloatAdd | FloatSub | FloatMul | FloatDiv | FloatNeg | FloatEq | FloatLt | FloatLe
    | NumAdd | NumSub | NumMul | NumDiv | NumMod | NumNeg | NumEq | NumLt | NumLe
    | BoolAnd | BoolOr | BoolNot
    | StrConcat | StrLen | StrEq | BytesLen | BytesEq
    // superinstructions
    | LoadLocalAddIntConst(i: nat, c: nat)
    | LoadLocalAddIntConstStoreLocal(src: nat, c: nat, dst: nat)
    | LoadLocalAddLocal(i: nat, rhs: nat)
    | LoadLocalSubLocal(i: nat, rhs: nat)
    | LoadLocalMulLocal(i: nat, rhs: nat)
    | LoadLocalEqIntConstJumpIfNot(i: nat, c: nat, off: int)
    | LoadLocalStoreEqIntConstJumpIfNot(src: nat, dst: nat, c: nat, off: int)
    | LoadLocalGetFieldAdd(i: nat, name: nat, site: nat)
    | LoadLocalGetFieldSub(i: nat, name: nat, site: nat)
    | LoadLocalGetFieldMul(i: nat, name: nat, site: nat)
    | LoadLocalGetField(i: nat, name: nat, site: nat)

  type Code = seq<Op>

  /** Field names of each record shape of the program, in the order of the operands. */
  type Shapes = seq<seq<nat>>

  /** The parts of a compiled function the analyses read, and the program's shapes. */
  datatype Function = Function(name: string, arity: nat, localsCount: nat, code: Code, shapes: Shapes)

  predicate Fused(op: Op) {
    op.LoadLocalAddIntConst? || op.LoadLocalAddIntConstStoreLocal? || op.LoadLocalAddLocal? ||
    op.LoadLocalSubLocal? || op.LoadLocalMulLocal? || op.LoadLocalEqIntConstJumpIfNot? ||
    op.LoadLocalStoreEqIntConstJumpIfNot? || op.LoadLocalGetFieldAdd? ||
    op.LoadLocalGetFieldSub? || op.LoadLocalGetFieldMul? || op.LoadLocalGetField?
  }

  predicate Unfused(code: Code) {
    forall op | op in code :: !Fused(op)
  }

  /** Net change of the stack depth, opcode by opcode (verify.rs:146-286). */
  function StackDelta(op: Op): int {
    match op
    case PushConst(_) | Dup | LoadLocal(_) | TakeLocal(_) => 1
    case Pop | StoreLocal(_) => -1
    case MakeRecord(_, n) => 1 - n
    case AllocStackRecord(_, n) => 1 - n
    case AllocArenaRecord(_, n) => 1 - n
    case MakeTuple(n) => 1 - n
    case AllocStackTuple(n) => 1 - n
    case AllocArenaTuple(n) => 1 - n
    case MakeList(n) => 1 - n
    case MakeVariant(_, n) => 1 - n
    case GetField(_, _) | GetElem(_) | GetListElem(_) | GetListLen => 0
    case TestVariant(_) | GetVariant(_) | GetVariantArg(_) => 0
    case ListAppend | GetListElemDyn => -1
    case Jump(_) => 0
    case JumpIf(_) | JumpIfNot(_) => -1
    case Call(_, n, _) => 1 - n
    case TailCall(_, n, _) => 1 - n
    case CallClosure(n, _) => -(n + 1) + 1
    case EffectCall(_, _, n, _) => 1 - n
    case MakeClosure(_, n) => 1 - n
    case SortByKey(_) | ParallelMap(_) | ListMap(_) | ListFilter(_) => -1
    case ListFold(_) => -2
    case Return => -1
    case Panic(_) => 0
    case IntAdd | IntSub | IntMul | IntDiv | IntMod | IntEq | IntLt | IntLe => -1
    case FloatAdd | FloatSub | FloatMul | FloatDiv | FloatEq | FloatLt | FloatLe => -1
    case NumAdd | NumSub | NumMul | NumDiv | NumMod | NumEq | NumLt | NumLe => -1
    case IntNeg | FloatNeg | NumNeg | BoolNot | StrLen | BytesLen => 0
    case BoolAnd | BoolOr | StrConcat | StrEq | BytesEq => -1
    case LoadLocalAddIntConst(_, _) => 1
    case LoadLocalAddIntConstStoreLocal(_, _, _) => 0
    case LoadLocalAddLocal(_, _) | LoadLocalSubLocal(_, _) | LoadLocalMulLocal(_, _) => 1
    case LoadLocalEqIntConstJumpIfNot(_, _, _) | LoadLocalStoreEqIntConstJumpIfNot(_, _, _, _) => 0
    case LoadLocalGetFieldAdd(_, _, _) | LoadLocalGetFieldSub(_, _, _) | LoadLocalGetFieldMul(_, _, _) => 1
    case LoadLocalGetField(_, _, _) => 1
  }

  /** Successor pcs in the order `verify_function` pushes them (verify.rs:81-136). */
  function Successors(op: Op, pc: nat): seq<int> {
    match op
    case Jump(off) => [pc + 1 + off]
    case JumpIf(off) => [pc + 1, pc + 1 + off]
    case JumpIfNot(off) => [pc + 1, pc + 1 + off]
    case Return | TailCall(_, _, _) | Panic(_) => []
    case LoadLocalAddIntConstStoreLocal(_, _, _) => [pc + 4]
    case LoadLocalEqIntConstJumpIfNot(_, _, off) => [pc + 4, pc + 4 + off]
    case LoadLocalStoreEqIntConstJumpIfNot(_, _, _, off) => [pc + 6, pc + 6 + off]
    case _ => [pc + 1]
  }
}

/** Control-flow paths from the function entry. */
module Cfg {
  import opened Bytecode

  type Path = seq<nat>

  predicate InCode(code: Code, pc: int) {
    0 <= pc < |code|
  }

  predicate Edge(code: Code, pc: nat, next: nat)
    requires InCode(code, pc)
  {
    InCode(code, next) && next in Successors(code[pc], pc)
  }

  ghost predicate IsPath(code: Code, p: Path) {
    |p| > 0 && p[0] == 0 && (forall k | 0 <= k < |p| :: p[k] < |code|)
    && forall j, k | 0 <= j < k < |p| && k <= j + 1 :: Edge(code, p[j], p[k])
  }

  function Last(p: Path): nat
    requires |p| > 0
  {
    p[|p| - 1]
  }

  ghost predicate PathTo(code: Code, p: Path, pc: nat) {
    IsPath(code, p) && Last(p) == pc
  }

  ghost predicate Reachable(code: Code, pc: nat) {
    exists p :: PathTo(code, p, pc)
  }

  /** Stack depth on arrival at the end of `p`: the sum of the deltas of the ops run before it. */
  ghost function PathDepth(code: Code, p: Path): int
    requires IsPath(code, p)
    decreases |p|
  {
    if |p| == 1 then 0
    else
      PathPrefix(code, p);
      PathDepth(code, p[..|p| - 1]) + StackDelta(code[Last(p[..|p| - 1])])
  }

  /** All paths to one pc carry one depth: what the verifier is meant to decide. */
  ghost predicate Consistent(code: Code) {
    forall p, q | IsPath(code, p) && IsPath(code, q) && Last(p) == Last(q) ::
      PathDepth(code, p) == PathDepth(code, q)
  }

  lemma PathPrefix(code: Code, p: Path)
    requires IsPath(code, p) && |p| > 1
    ensures IsPath(code, p[..|p| - 1])
    ensures Edge(code, Last(p[..|p| - 1]), Last(p))
  {
    var q := p[..|p| - 1];
    forall k | 0 < k < |q| ensures Edge(code, q[k - 1], q[k]) {
      assert Edge(code, p[k - 1], p[k]);
    }
  }

  lemma ExtendPath(code: Code, p: Path, next: nat)
    requires IsPath(code, p) && Edge(code, Last(p), next)
    ensures IsPath(code, p + [next])
    ensures PathDepth(code, p + [next]) == PathDepth(code, p) + StackDelta(code[Last(p)])
  {
    var q := p + [next];
    forall k | 0 < k < |q| ensures Edge(code, q[k - 1], q[k]) {
      if k < |p| { assert Edge(code, p[k - 1], p[k]); }
    }
    assert q[..|q| - 1] == p;
  }
}
