/** The patterns of the peephole passes and the windows they leave behind
    (crates/lex-bytecode/src/compiler/peephole.rs). */
module Windows {
  import opened Options
  import opened Bytecode

  datatype Slice =
    | AddConst | AddConstStore | AddLocals | SubMulLocals
    | EqConstBranch | StoreEqBranch | FieldArith | FieldRead

  /** Slots the pass checks and then steps over. */
  function Width(slice: Slice): nat {
    match slice
    case AddConst | AddLocals | SubMulLocals | StoreEqBranch | FieldArith => 3
    case AddConstStore | EqConstBranch => 4
    case FieldRead => 2
  }

  /** The superinstruction for the window at `k`, if the pass's pattern matches. `ints` are the
      constant-pool indices that hold an integer. */
  function Match(slice: Slice, code: Code, k: nat, ints: set<nat>): Option<Op>
    requires k + Width(slice) <= |code|
  {
    match slice
    case AddConst =>
      if code[k].LoadLocal? && code[k + 1].PushConst? && code[k + 2].IntAdd? && code[k + 1].c in ints
      then Some(LoadLocalAddIntConst(code[k].i, code[k + 1].c)) else None
    case AddConstStore =>
      if code[k].LoadLocalAddIntConst? && code[k + 3].StoreLocal?
      then Some(LoadLocalAddIntConstStoreLocal(code[k].i, code[k].c, code[k + 3].i)) else None
    case AddLocals =>
      if code[k].LoadLocal? && code[k + 1].LoadLocal? && code[k + 2].IntAdd?
      then Some(LoadLocalAddLocal(code[k].i, code[k + 1].i)) else None
    case SubMulLocals =>
      if code[k].LoadLocal? && code[k + 1].LoadLocal? && code[k + 2].IntSub?
      then Some(LoadLocalSubLocal(code[k].i, code[k + 1].i))
      else if code[k].LoadLocal? && code[k + 1].LoadLocal? && code[k + 2].IntMul?
      then Some(LoadLocalMulLocal(code[k].i, code[k + 1].i)) else None
    case EqConstBranch =>
      if code[k].LoadLocal? && code[k + 1].PushConst? && code[k + 2].IntEq? && code[k + 3].JumpIfNot?
         && code[k + 1].c in ints
      then Some(LoadLocalEqIntConstJumpIfNot(code[k].i, code[k + 1].c, code[k + 3].off)) else None
    case StoreEqBranch =>
      if code[k].LoadLocal? && code[k + 1].StoreLocal? && code[k + 2].LoadLocalEqIntConstJumpIfNot?
         && code[k + 2].i == code[k + 1].i
      then Some(LoadLocalStoreEqIntConstJumpIfNot(code[k].i, code[k + 1].i, code[k + 2].c, code[k + 2].off)) else None
    case FieldArith =>
      if code[k].LoadLocal? && code[k + 1].GetField? && code[k + 2].IntAdd?
      then Some(LoadLocalGetFieldAdd(code[k].i, code[k + 1].name, code[k + 1].site))
      else if code[k].LoadLocal? && code[k + 1].GetField? && code[k + 2].IntSub?
      then Some(LoadLocalGetFieldSub(code[k].i, code[k + 1].name, code[k + 1].site))
      else if code[k].LoadLocal? && code[k + 1].GetField? && code[k + 2].IntMul?
      then Some(LoadLocalGetFieldMul(code[k].i, code[k + 1].name, code[k + 1].site)) else None
    case FieldRead =>
      if code[k].LoadLocal? && code[k + 1].GetField?
      then Some(LoadLocalGetField(code[k].i, code[k + 1].name, code[k + 1].site)) else None
  }

  predicate JumpsTo(op: Op, pc: nat, target: int) {
    (op.Jump? || op.JumpIf? || op.JumpIfNot?) && target == pc + 1 + op.off
  }

  predicate IsTarget(code: Code, target: int) {
    exists pc: nat | pc < |code| :: JumpsTo(code[pc], pc, target)
  }

  predicate Safe(code: Code, k: nat, w: nat) {
    forall t | k < t < k + w :: !IsTarget(code, t)
  }

  predicate Absorbed(code: Code, k: nat, second: Op, third: Op) {
    k + 2 < |code| && code[k + 1] == second && code[k + 2] == third && Safe(code, k, 3)
  }

  /** Every fused op still sits in front of the slots it absorbed, and nothing jumps into them. */
  predicate WindowKept(code: Code, k: nat)
    requires k < |code|
  {
    match code[k]
    case LoadLocalAddIntConst(_, c) =>
      k + 2 < |code| && code[k + 1] == PushConst(c) && code[k + 2] == IntAdd && Safe(code, k, 3)
    case LoadLocalAddIntConstStoreLocal(_, c, dst) =>
      k + 3 < |code| && code[k + 1] == PushConst(c) && code[k + 2] == IntAdd
      && code[k + 3] == StoreLocal(dst) && Safe(code, k, 4)
    case LoadLocalEqIntConstJumpIfNot(_, c, off) =>
      k + 3 < |code| && code[k + 1] == PushConst(c) && code[k + 2] == IntEq
      && code[k + 3] == JumpIfNot(off) && Safe(code, k, 4)
    case LoadLocalStoreEqIntConstJumpIfNot(_, dst, c, off) =>
      k + 5 < |code| && code[k + 1] == StoreLocal(dst) && code[k + 2] == LoadLocalEqIntConstJumpIfNot(dst, c, off)
      && code[k + 3] == PushConst(c) && code[k + 4] == IntEq && code[k + 5] == JumpIfNot(off) && Safe(code, k, 6)
    case LoadLocalAddLocal(_, rhs) => Absorbed(code, k, LoadLocal(rhs), IntAdd)
    case LoadLocalSubLocal(_, rhs) => Absorbed(code, k, LoadLocal(rhs), IntSub)
    case LoadLocalMulLocal(_, rhs) => Absorbed(code, k, LoadLocal(rhs), IntMul)
    case LoadLocalGetFieldAdd(_, name, site) => Absorbed(code, k, GetField(name, site), IntAdd)
    case LoadLocalGetFieldSub(_, name, site) => Absorbed(code, k, GetField(name, site), IntSub)
    case LoadLocalGetFieldMul(_, name, site) => Absorbed(code, k, GetField(name, site), IntMul)
    case LoadLocalGetField(_, name, site) => k + 1 < |code| && code[k + 1] == GetField(name, site) && Safe(code, k, 2)
    case _ => true
  }

  predicate WellFused(code: Code) {
    forall k: nat | k < |code| :: WindowKept(code, k)
  }

  lemma UnfusedIsWellFused(code: Code)
    requires Unfused(code)
    ensures WellFused(code)
  {
    forall k: nat | k < |code| ensures WindowKept(code, k) {
      assert code[k] in code;
    }
  }

  predicate Head(op: Op) {
    op.LoadLocal? || op.LoadLocalAddIntConst?
  }

  /** A pass only ever overwrites a slot that is no jump and no absorbed slot of another window. */
  predicate Begins(code: Code, k: nat)
    requires k < |code|
  {
    Head(code[k]) && (code[k].LoadLocal? ==> k + 1 < |code| && !code[k + 1].IntAdd? && !code[k + 1].IntSub? && !code[k + 1].IntMul?)
  }

  lemma MatchHead(slice: Slice, code: Code, k: nat, ints: set<nat>)
    requires k + Width(slice) <= |code| && Match(slice, code, k, ints).Some?
    ensures Begins(code, k) && Fused(Match(slice, code, k, ints).value)
    ensures forall pc: nat, t :: !JumpsTo(code[k], pc, t) && !JumpsTo(Match(slice, code, k, ints).value, pc, t)
  {
  }

  lemma TargetsUnchanged(code: Code, k: nat, fused: Op)
    requires k < |code| && forall pc: nat, t :: !JumpsTo(code[k], pc, t) && !JumpsTo(fused, pc, t)
    ensures forall t :: IsTarget(code[k := fused], t) <==> IsTarget(code, t)
  {
    var after := code[k := fused];
    forall t ensures IsTarget(after, t) <==> IsTarget(code, t) {
      if pc: nat :| pc < |code| && JumpsTo(code[pc], pc, t) {
        assert pc != k && JumpsTo(after[pc], pc, t);
      }
      if pc: nat :| pc < |code| && JumpsTo(after[pc], pc, t) {
        assert pc != k && JumpsTo(code[pc], pc, t);
      }
    }
  }

  lemma SafeUnchanged(code: Code, k: nat, fused: Op)
    requires k < |code| && forall pc: nat, t :: !JumpsTo(code[k], pc, t) && !JumpsTo(fused, pc, t)
    ensures forall j: nat, w: nat :: Safe(code[k := fused], j, w) <==> Safe(code, j, w)
  {
    TargetsUnchanged(code, k, fused);
    hide IsTarget;
    var after := code[k := fused];
    assert forall t :: IsTarget(after, t) <==> IsTarget(code, t);
    forall j: nat, w: nat
      ensures Safe(after, j, w) ==> Safe(code, j, w)
      ensures Safe(code, j, w) ==> Safe(after, j, w)
    {
    }
  }

  lemma OthersKept(code: Code, k: nat, fused: Op, j: nat)
    requires WellFused(code) && k < |code| && j < |code| && j != k && Begins(code, k)
    requires forall i: nat, w: nat :: Safe(code[k := fused], i, w) <==> Safe(code, i, w)
    ensures WindowKept(code[k := fused], j)
  {
    hide Safe;
    assert WindowKept(code, j);
  }

  lemma OwnKept(slice: Slice, code: Code, k: nat, ints: set<nat>)
    requires WellFused(code) && k + Width(slice) <= |code| && Match(slice, code, k, ints).Some?
    requires Safe(code, k, Width(slice))
    requires forall i: nat, w: nat :: Safe(code[k := Match(slice, code, k, ints).value], i, w) <==> Safe(code, i, w)
    ensures WindowKept(code[k := Match(slice, code, k, ints).value], k)
  {
    hide IsTarget;
    assert WindowKept(code, k);
    if slice.StoreEqBranch? {
      assert WindowKept(code, k + 2);
    }
  }

  lemma RewriteKeepsWindows(slice: Slice, code: Code, k: nat, ints: set<nat>)
    requires WellFused(code) && k + Width(slice) <= |code| && Match(slice, code, k, ints).Some?
    requires Safe(code, k, Width(slice))
    ensures WellFused(code[k := Match(slice, code, k, ints).value])
  {
    var fused := Match(slice, code, k, ints).value;
    MatchHead(slice, code, k, ints);
    SafeUnchanged(code, k, fused);
    OwnKept(slice, code, k, ints);
    hide Match, Safe, WindowKept, Begins, JumpsTo;
    var after := code[k := fused];
    forall j: nat | j < |after| ensures WindowKept(after, j) {
      if j != k { OthersKept(code, k, fused, j); }
    }
  }
}
