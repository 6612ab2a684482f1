/** The peephole passes (crates/lex-bytecode/src/compiler/peephole.rs): they rewrite in place, and
    neither a run, nor the verifier, nor the body hash can tell. */
module Peephole {
  import opened Options
  import opened Bytecode
  import opened Cfg
  import opened Verifier
  import opened Fusion
  import opened Windows
  import opened Machine
  import opened PeepholeRuns

  // ---- the verifier's view ----

  /** Where control can come from: the next slot, a jump target, or past the end of a skipping window. */
  lemma EdgeKinds(code: Code, u: nat, s: int)
    requires WellFused(code) && u < |code| && s in Successors(code[u], u)
    ensures s == u + 1 || IsTarget(code, s)
            || (s == u + 4 && u + 3 < |code| && !Head(code[u + 1]) && !Head(code[u + 2]) && !Head(code[u + 3]))
            || (s == u + 6 && u + 5 < |code| && !Head(code[u + 1]) && !Head(code[u + 2]) && !Head(code[u + 3])
                && !Head(code[u + 4]) && !Head(code[u + 5]))
  {
    hide Safe, IsTarget, Successors;
    SkippedSlots(code, u);
    SuccessorKinds(code[u], u, s);
    hide WellFused, WindowKept, Head;
    var op := code[u];
    if op.LoadLocalEqIntConstJumpIfNot? && s == u + 4 + op.off {
      TargetIs(code, u + 3, s);
    } else if op.LoadLocalStoreEqIntConstJumpIfNot? && s == u + 6 + op.off {
      TargetIs(code, u + 5, s);
    } else if JumpsTo(op, u, s) {
      TargetIs(code, u, s);
    }
  }

  /** What a skipping superinstruction passes over. */
  lemma SkippedSlots(code: Code, u: nat)
    requires WellFused(code) && u < |code|
    ensures code[u].LoadLocalAddIntConstStoreLocal? || code[u].LoadLocalEqIntConstJumpIfNot? ==>
              u + 3 < |code| && !Head(code[u + 1]) && !Head(code[u + 2]) && !Head(code[u + 3])
    ensures code[u].LoadLocalEqIntConstJumpIfNot? ==> code[u + 3] == JumpIfNot(code[u].off)
    ensures code[u].LoadLocalStoreEqIntConstJumpIfNot? ==>
              u + 5 < |code| && !Head(code[u + 1]) && !Head(code[u + 2]) && !Head(code[u + 3])
              && !Head(code[u + 4]) && !Head(code[u + 5]) && code[u + 5] == JumpIfNot(code[u].off)
  {
    hide Safe, Absorbed;
    assert WindowKept(code, u);
  }

  lemma SuccessorKinds(op: Op, u: nat, s: int)
    requires s in Successors(op, u)
    ensures s == u + 1 || JumpsTo(op, u, s)
            || (op.LoadLocalAddIntConstStoreLocal? && s == u + 4)
            || (op.LoadLocalEqIntConstJumpIfNot? && (s == u + 4 || s == u + 4 + op.off))
            || (op.LoadLocalStoreEqIntConstJumpIfNot? && (s == u + 6 || s == u + 6 + op.off))
  {
  }

  lemma NoEdgeInto(code: Code, k: nat, w: nat, u: nat, s: int)
    requires WellFused(code) && k < k + w <= |code| && Head(code[k]) && Safe(code, k, w)
    requires u < |code| && !(k <= u < k + w) && s in Successors(code[u], u)
    ensures !Hidden(k, w, s)
  {
    EdgeKinds(code, u, s);
    hide Successors, IsTarget, WellFused;
    assert Hidden(k, w, s) && s == u + 4 ==> k == u + 1 || k == u + 2 || k == u + 3;
    assert Hidden(k, w, s) && s == u + 6 ==> k == u + 1 || k == u + 2 || k == u + 3 || k == u + 4 || k == u + 5;
  }

  /** Slots absorbed by a skipping superinstruction, and the one its window is left from. */
  function Span(slice: Slice): (nat, nat) {
    if slice.StoreEqBranch? then (6, 2) else (4, 3)
  }

  lemma SkippingStands(slice: Slice, code: Code, k: nat, ints: set<nat>)
    requires slice.AddConstStore? || slice.EqConstBranch? || slice.StoreEqBranch?
    requires WellFused(code) && k + Width(slice) <= |code| && Match(slice, code, k, ints).Some?
    requires Safe(code, k, Width(slice))
    ensures k + Span(slice).0 <= |code|
    ensures Stands(code, k, Span(slice).0, Span(slice).1, Match(slice, code, k, ints).value)
  {
    var w, inner := Span(slice).0, Span(slice).1;
    var fused := Match(slice, code, k, ints).value;
    SpanSafe(slice, code, k, ints);
    MatchHead(slice, code, k, ints);
    forall u: nat, s | u < |code| && !(k <= u < k + w) && s in Successors(code[u], u)
      ensures !Hidden(k, w, s)
    {
      NoEdgeInto(code, k, w, u, s);
    }
    SpanRuns(slice, code, k, ints);
    hide WellFused, Safe, Match, Successors, StackDelta, Gain;
  }

  lemma SpanSafe(slice: Slice, code: Code, k: nat, ints: set<nat>)
    requires slice.AddConstStore? || slice.EqConstBranch? || slice.StoreEqBranch?
    requires WellFused(code) && k + Width(slice) <= |code| && Match(slice, code, k, ints).Some?
    requires Safe(code, k, Width(slice))
    ensures k + Span(slice).0 <= |code| && Safe(code, k, Span(slice).0)
  {
    hide IsTarget;
    if slice.StoreEqBranch? {
      assert WindowKept(code, k + 2);
    }
  }

  /** Control runs through the window and leaves it where the superinstruction does. */
  ghost predicate Runs(code: Code, k: nat, w: nat, inner: nat, fused: Op)
    requires inner < w && k + w <= |code|
  {
    && (forall u: nat | k <= u < k + inner :: Successors(code[u], u) == [u + 1])
    && (forall s | s in Successors(code[k + inner], k + inner) :: !Hidden(k, w, s))
    && Successors(fused, k) == Successors(code[k + inner], k + inner)
    && Gain(code, k, inner + 1) == StackDelta(fused)
  }

  lemma GainSums(code: Code, k: nat)
    requires k + 4 <= |code|
    ensures Gain(code, k, 3) == StackDelta(code[k]) + StackDelta(code[k + 1]) + StackDelta(code[k + 2])
    ensures Gain(code, k, 4) == Gain(code, k, 3) + StackDelta(code[k + 3])
  {
    hide StackDelta;
    assert Gain(code, k, 1) == StackDelta(code[k]);
    assert Gain(code, k, 2) == Gain(code, k, 1) + StackDelta(code[k + 1]);
  }

  /** Opcodes that push one value and fall through, as a plain local load does. */
  predicate LoadLike(op: Op) {
    op.LoadLocal? || op.PushConst? || op.LoadLocalAddIntConst? || op.LoadLocalAddLocal?
    || op.LoadLocalSubLocal? || op.LoadLocalMulLocal? || op.LoadLocalGetField? || op.LoadLocalGetFieldAdd?
    || op.LoadLocalGetFieldSub? || op.LoadLocalGetFieldMul?
  }

  lemma LoadLikeDelta(op: Op)
    requires LoadLike(op)
    ensures StackDelta(op) == 1
  {
  }

  lemma LoadLikeEdges(op: Op, pc: nat)
    requires LoadLike(op)
    ensures Successors(op, pc) == [pc + 1]
  {
  }

  lemma OtherDelta(op: Op)
    ensures op.StoreLocal? || op.IntAdd? || op.IntEq? || op.JumpIfNot? ==> StackDelta(op) == -1
    ensures (op.LoadLocalAddIntConstStoreLocal? || op.LoadLocalEqIntConstJumpIfNot?
             || op.LoadLocalStoreEqIntConstJumpIfNot?) ==> StackDelta(op) == 0
  {
  }

  lemma OtherEdges(op: Op, pc: nat)
    ensures op.StoreLocal? || op.IntAdd? || op.IntEq? ==> Successors(op, pc) == [pc + 1]
    ensures op.JumpIfNot? ==> Successors(op, pc) == [pc + 1, pc + 1 + op.off]
    ensures op.LoadLocalAddIntConstStoreLocal? ==> Successors(op, pc) == [pc + 4]
    ensures op.LoadLocalEqIntConstJumpIfNot? ==> Successors(op, pc) == [pc + 4, pc + 4 + op.off]
    ensures op.LoadLocalStoreEqIntConstJumpIfNot? ==> Successors(op, pc) == [pc + 6, pc + 6 + op.off]
  {
  }

  /** The verifier's view of the opcodes the passes touch. */
  lemma OpFacts(op: Op, pc: nat)
    ensures LoadLike(op) ==> StackDelta(op) == 1 && Successors(op, pc) == [pc + 1]
    ensures op.StoreLocal? || op.IntAdd? || op.IntEq? ==> StackDelta(op) == -1 && Successors(op, pc) == [pc + 1]
    ensures op.JumpIfNot? ==> StackDelta(op) == -1 && Successors(op, pc) == [pc + 1, pc + 1 + op.off]
    ensures op.LoadLocalAddIntConstStoreLocal? ==> StackDelta(op) == 0 && Successors(op, pc) == [pc + 4]
    ensures op.LoadLocalEqIntConstJumpIfNot? ==>
              StackDelta(op) == 0 && Successors(op, pc) == [pc + 4, pc + 4 + op.off]
    ensures op.LoadLocalStoreEqIntConstJumpIfNot? ==>
              StackDelta(op) == 0 && Successors(op, pc) == [pc + 6, pc + 6 + op.off]
  {
    hide *;
    OtherDelta(op);
    OtherEdges(op, pc);
    if LoadLike(op) {
      LoadLikeDelta(op);
      LoadLikeEdges(op, pc);
    }
  }

  lemma AddConstStoreRuns(code: Code, k: nat, i: nat, c: nat, dst: nat)
    requires k + 4 <= |code|
    requires code[k] == LoadLocalAddIntConst(i, c) && code[k + 1] == PushConst(c)
    requires code[k + 2] == IntAdd && code[k + 3] == StoreLocal(dst)
    ensures Runs(code, k, 4, 3, LoadLocalAddIntConstStoreLocal(i, c, dst))
  {
    hide StackDelta, Successors, Gain;
    GainSums(code, k);
    OpFacts(code[k], k);
    OpFacts(code[k + 1], k + 1);
    OpFacts(code[k + 2], k + 2);
    OpFacts(code[k + 3], k + 3);
    OpFacts(LoadLocalAddIntConstStoreLocal(i, c, dst), k);
  }

  lemma EqConstBranchRuns(code: Code, k: nat, i: nat, c: nat, off: int)
    requires k + 4 <= |code| && !Hidden(k, 4, k + 4 + off)
    requires code[k] == LoadLocal(i) && code[k + 1] == PushConst(c)
    requires code[k + 2] == IntEq && code[k + 3] == JumpIfNot(off)
    ensures Runs(code, k, 4, 3, LoadLocalEqIntConstJumpIfNot(i, c, off))
  {
    hide StackDelta, Successors, Gain;
    GainSums(code, k);
    OpFacts(code[k], k);
    OpFacts(code[k + 1], k + 1);
    OpFacts(code[k + 2], k + 2);
    OpFacts(code[k + 3], k + 3);
    OpFacts(LoadLocalEqIntConstJumpIfNot(i, c, off), k);
  }

  lemma StoreEqBranchRuns(code: Code, k: nat, src: nat, dst: nat, c: nat, off: int)
    requires k + 6 <= |code| && !Hidden(k, 6, k + 6 + off)
    requires code[k] == LoadLocal(src) && code[k + 1] == StoreLocal(dst)
    requires code[k + 2] == LoadLocalEqIntConstJumpIfNot(dst, c, off)
    ensures Runs(code, k, 6, 2, LoadLocalStoreEqIntConstJumpIfNot(src, dst, c, off))
  {
    hide StackDelta, Successors, Gain;
    GainSums(code, k);
    OpFacts(code[k], k);
    OpFacts(code[k + 1], k + 1);
    OpFacts(code[k + 2], k + 2);
    OpFacts(LoadLocalStoreEqIntConstJumpIfNot(src, dst, c, off), k);
  }

  lemma SpanRuns(slice: Slice, code: Code, k: nat, ints: set<nat>)
    requires slice.AddConstStore? || slice.EqConstBranch? || slice.StoreEqBranch?
    requires WellFused(code) && k + Span(slice).0 <= |code| && k + Width(slice) <= |code| && Match(slice, code, k, ints).Some?
    requires Safe(code, k, Span(slice).0)
    ensures Runs(code, k, Span(slice).0, Span(slice).1, Match(slice, code, k, ints).value)
  {
    hide Runs, IsTarget;
    assert WindowKept(code, k);
    match slice
    case AddConstStore => AddConstStoreRuns(code, k, code[k].i, code[k].c, code[k + 3].i);
    case EqConstBranch =>
      assert JumpsTo(code[k + 3], k + 3, k + 4 + code[k + 3].off);
      TargetIs(code, k + 3, k + 4 + code[k + 3].off);
      EqConstBranchRuns(code, k, code[k].i, code[k + 1].c, code[k + 3].off);
    case StoreEqBranch =>
      assert WindowKept(code, k + 2);
      TargetIs(code, k + 5, k + 6 + code[k + 2].off);
      StoreEqBranchRuns(code, k, code[k].i, code[k + 1].i, code[k + 2].c, code[k + 2].off);
  }

  lemma TargetIs(code: Code, pc: nat, t: int)
    requires pc < |code| && JumpsTo(code[pc], pc, t)
    ensures IsTarget(code, t)
  {
  }

  lemma WalkingSameShape(slice: Slice, code: Code, k: nat, ints: set<nat>)
    requires !slice.AddConstStore? && !slice.EqConstBranch? && !slice.StoreEqBranch?
    requires k + Width(slice) <= |code| && Match(slice, code, k, ints).Some?
    ensures SameShape(code, code[k := Match(slice, code, k, ints).value])
  {
    hide StackDelta, Successors;
    OpFacts(code[k], k);
    OpFacts(Match(slice, code, k, ints).value, k);
  }

  lemma RewriteKeepsView(slice: Slice, code: Code, k: nat, ints: set<nat>)
    requires WellFused(code) && k + Width(slice) <= |code| && Match(slice, code, k, ints).Some?
    requires Safe(code, k, Width(slice))
    ensures SameView(code, code[k := Match(slice, code, k, ints).value])
  {
    hide Match, Safe, WellFused, Stands, SameShape, SameView;
    var fused := Match(slice, code, k, ints).value;
    if slice.AddConstStore? || slice.EqConstBranch? || slice.StoreEqBranch? {
      SkippingStands(slice, code, k, ints);
      SkipView(code, k, Span(slice).0, Span(slice).1, fused);
    } else {
      WalkingSameShape(slice, code, k, ints);
      SameShapeView(code, code[k := fused]);
    }
  }

  // ---- the hash stream ----

  lemma MatchErased(slice: Slice, code: Code, k: nat, ints: set<nat>, shapes: Shapes)
    requires k + Width(slice) <= |code| && Match(slice, code, k, ints).Some?
    ensures var fused := Match(slice, code, k, ints).value;
            ShapesKnown([fused], shapes) && ShapesKnown([code[k]], shapes)
            && Erase(fused, shapes) == Erase(code[k], shapes)
  {
    var fused := Match(slice, code, k, ints).value;
    MatchHead(slice, code, k, ints);
    assert Erase(code[k], shapes) == AsIs(LoadLocal(code[k].i));
    FusedErased(fused, shapes);
    assert FusedHead(fused) == code[k].i;
  }

  /** The local a superinstruction's first slot loaded. */
  function FusedHead(fused: Op): nat
    requires Fused(fused)
  {
    if fused.LoadLocalAddIntConstStoreLocal? || fused.LoadLocalStoreEqIntConstJumpIfNot? then fused.src else fused.i
  }

  lemma FusedErased(fused: Op, shapes: Shapes)
    requires Fused(fused)
    ensures ShapesKnown([fused], shapes) && Erase(fused, shapes) == AsIs(LoadLocal(FusedHead(fused)))
  {
  }

  lemma RewriteKeepsStream(slice: Slice, code: Code, k: nat, ints: set<nat>, shapes: Shapes)
    requires k + Width(slice) <= |code| && Match(slice, code, k, ints).Some? && ShapesKnown(code, shapes)
    ensures var after := code[k := Match(slice, code, k, ints).value];
            ShapesKnown(after, shapes) && Stream(after, shapes) == Stream(code, shapes)
  {
    var fused := Match(slice, code, k, ints).value;
    var after := code[k := fused];
    MatchErased(slice, code, k, ints, shapes);
    assert forall op | op in after :: op in code || op == fused;
    assert fused in [fused];
    hide Erase, Match;
    forall j: nat | j < |code| ensures Stream(after, shapes)[j] == Stream(code, shapes)[j] {
    }
  }

  // ---- nothing left to fuse ----

  /** Every window of the pattern has a jump into it. */
  ghost predicate Spent(slice: Slice, code: Code, ints: set<nat>) {
    SpentBelow(slice, code, ints, |code|)
  }

  ghost predicate SpentBelow(slice: Slice, code: Code, ints: set<nat>, n: nat) {
    forall j: nat | j < n && j + Width(slice) <= |code| && Match(slice, code, j, ints).Some? :: !Safe(code, j, Width(slice))
  }

  /** One pass makes what another looks for. */
  predicate Feeds(maker: Slice, taker: Slice) {
    (maker.AddConst? && taker.AddConstStore?) || (maker.EqConstBranch? && taker.StoreEqBranch?)
  }

  lemma NoNewMatch(maker: Slice, code: Code, k: nat, ints: set<nat>, taker: Slice, j: nat)
    requires k + Width(maker) <= |code| && Match(maker, code, k, ints).Some? && !Feeds(maker, taker)
    requires j + Width(taker) <= |code| && Match(taker, code[k := Match(maker, code, k, ints).value], j, ints).Some?
    ensures j != k && Match(taker, code, j, ints).Some?
  {
    var fused := Match(maker, code, k, ints).value;
    MadeBy(maker, code, k, ints);
    hide Match;
    NotTaken(fused, code, k, ints, taker, j);
  }

  lemma MadeBy(maker: Slice, code: Code, k: nat, ints: set<nat>)
    requires k + Width(maker) <= |code| && Match(maker, code, k, ints).Some?
    ensures var fused := Match(maker, code, k, ints).value;
            Fused(fused) && (fused.LoadLocalAddIntConst? ==> maker.AddConst?)
            && (fused.LoadLocalEqIntConstJumpIfNot? ==> maker.EqConstBranch?)
  {
  }

  lemma NotTaken(fused: Op, code: Code, k: nat, ints: set<nat>, taker: Slice, j: nat)
    requires k < |code| && Fused(fused)
    requires !(fused.LoadLocalAddIntConst? && taker.AddConstStore?)
    requires !(fused.LoadLocalEqIntConstJumpIfNot? && taker.StoreEqBranch?)
    requires j + Width(taker) <= |code| && Match(taker, code[k := fused], j, ints).Some?
    ensures j != k && Match(taker, code, j, ints).Some?
  {
  }

  lemma MatchBegins(slice: Slice, code: Code, k: nat, ints: set<nat>)
    requires k + Width(slice) <= |code| && Match(slice, code, k, ints).Some?
    ensures k < |code| && Begins(code, k)
  {
    MatchHead(slice, code, k, ints);
  }

  lemma FitsReach(slice: Slice, code: Code, k: nat, ints: set<nat>)
    requires k + Width(slice) <= |code| && Match(slice, code, k, ints).Some?
    ensures Width(slice) <= Reach(Match(slice, code, k, ints).value) && !Feeds(slice, slice)
  {
  }

  /** A rewrite leaves no new window behind it. */
  lemma SpentStep(slice: Slice, code: Code, k: nat, ints: set<nat>)
    requires WellFused(code) && k + Width(slice) <= |code| && Match(slice, code, k, ints).Some?
    requires Safe(code, k, Width(slice)) && SpentBelow(slice, code, ints, k)
    ensures SpentBelow(slice, code[k := Match(slice, code, k, ints).value], ints, k + Width(slice))
  {
    var w := Width(slice);
    var fused := Match(slice, code, k, ints).value;
    var after := code[k := fused];
    MatchHead(slice, code, k, ints);
    SafeUnchanged(code, k, fused);
    RewriteKeepsWindows(slice, code, k, ints);
    assert WindowKept(after, k);
    WindowAbsorbs(after, k);
    FitsReach(slice, code, k, ints);
    hide Match, Width, Begins, Safe, WindowKept, WellFused, JumpsTo;
    forall j: nat | j < k + w && j + w <= |after| && Match(slice, after, j, ints).Some?
      ensures !Safe(after, j, w)
    {
      NoNewMatch(slice, code, k, ints, slice, j);
      MatchBegins(slice, after, j, ints);
    }
  }

  lemma SpentKept(maker: Slice, code: Code, k: nat, ints: set<nat>, taker: Slice)
    requires k + Width(maker) <= |code| && Match(maker, code, k, ints).Some?
    requires !Feeds(maker, taker) && Spent(taker, code, ints)
    ensures Spent(taker, code[k := Match(maker, code, k, ints).value], ints)
  {
    var fused := Match(maker, code, k, ints).value;
    var after := code[k := fused];
    MatchHead(maker, code, k, ints);
    SafeUnchanged(code, k, fused);
    hide Match, Width, Safe, JumpsTo;
    forall j: nat | j < |after| && j + Width(taker) <= |after| && Match(taker, after, j, ints).Some?
      ensures !Safe(after, j, Width(taker))
    {
      NoNewMatch(maker, code, k, ints, taker, j);
    }
  }

  lemma SpentNext(slice: Slice, code: Code, k: nat, ints: set<nat>)
    requires k + Width(slice) <= |code| && SpentBelow(slice, code, ints, k)
    requires Match(slice, code, k, ints).None? || !Safe(code, k, Width(slice))
    ensures SpentBelow(slice, code, ints, k + 1)
  {
    hide Match, Width, Safe;
  }

  lemma SpentAtEnd(slice: Slice, code: Code, k: nat, ints: set<nat>)
    requires k + Width(slice) > |code| && SpentBelow(slice, code, ints, k)
    ensures Spent(slice, code, ints)
  {
    hide Match, Width, Safe;
  }

  /** Passes `slice` does not feed stay spent. */
  ghost predicate KeepsSpent(slice: Slice, code: Code, after: Code, ints: set<nat>) {
    forall other | !Feeds(slice, other) && Spent(other, code, ints) :: Spent(other, after, ints)
  }

  lemma KeepsSpentStep(slice: Slice, start: Code, code: Code, k: nat, ints: set<nat>)
    requires k + Width(slice) <= |code| && Match(slice, code, k, ints).Some? && KeepsSpent(slice, start, code, ints)
    ensures KeepsSpent(slice, start, code[k := Match(slice, code, k, ints).value], ints)
  {
    hide Match, Spent, Feeds;
    var after := code[k := Match(slice, code, k, ints).value];
    forall other | !Feeds(slice, other) && Spent(other, start, ints) ensures Spent(other, after, ints) {
      SpentKept(slice, code, k, ints, other);
    }
  }

  /** What the passes are after: loads that feed arithmetic, a test, a store or a field read directly. */
  predicate Fusable(code: Code, k: nat, ints: set<nat>)
    requires k < |code|
  {
    var at := (i: nat) requires k + i < |code| => code[k + i];
    && k + 1 < |code|
    && match code[k]
       case LoadLocal(_) =>
         || (at(1).GetField? && Safe(code, k, 2))
         || (k + 2 < |code| && Safe(code, k, 3)
             && ((at(1).LoadLocal? && (at(2).IntAdd? || at(2).IntSub? || at(2).IntMul?))
                 || (at(1).PushConst? && at(1).c in ints && at(2).IntAdd?)
                 || (at(1).StoreLocal? && at(2).LoadLocalEqIntConstJumpIfNot? && at(2).i == at(1).i)))
         || (k + 3 < |code| && Safe(code, k, 4)
             && at(1).PushConst? && at(1).c in ints && at(2).IntEq? && at(3).JumpIfNot?)
       case LoadLocalAddIntConst(_, _) => k + 3 < |code| && at(3).StoreLocal? && Safe(code, k, 4)
       case _ => false
  }

  /** When no pass has a window left nothing fusable is. */
  lemma NothingLeft(code: Code, ints: set<nat>, k: nat)
    requires k < |code| && forall slice :: Spent(slice, code, ints)
    ensures !Fusable(code, k, ints)
  {
    hide Safe, Match, Width, Fusable;
    forall slice ensures k + Width(slice) <= |code| && Match(slice, code, k, ints).Some? ==> !Safe(code, k, Width(slice)) {
      assert Spent(slice, code, ints);
    }
    if Fusable(code, k, ints) { FusableMatches(code, k, ints); }
  }

  lemma FusableMatches(code: Code, k: nat, ints: set<nat>)
    requires k < |code| && Fusable(code, k, ints)
    ensures exists slice :: k + Width(slice) <= |code| && Match(slice, code, k, ints).Some? && Safe(code, k, Width(slice))
  {
    hide Safe;
    var slice := if code[k].LoadLocalAddIntConst? then AddConstStore
                 else if Safe(code, k, 2) && code[k + 1].GetField? then FieldRead
                 else if code[k + 1].StoreLocal? then StoreEqBranch
                 else if code[k + 1].LoadLocal? then if code[k + 2].IntAdd? then AddLocals else SubMulLocals
                 else if code[k + 2].IntAdd? then AddConst
                 else EqConstBranch;
    assert k + Width(slice) <= |code| && Match(slice, code, k, ints).Some? && Safe(code, k, Width(slice));
  }

  // ---- the passes ----

  /** What a pass, or a sequence of passes, guarantees. */
  ghost predicate Transparent<X(!new), W(!new)>(I: Interp<X, W>, code: Code, after: Code, shapes: Shapes) {
    && WellFused(after) && SameView(code, after) && SameRuns(I, code, after)
    && (ShapesKnown(code, shapes) ==> ShapesKnown(after, shapes) && Stream(after, shapes) == Stream(code, shapes))
  }

  lemma TransparentStep<X(!new), W(!new)>(I: Interp<X, W>, slice: Slice, start: Code, code: Code, k: nat, ints: set<nat>, shapes: Shapes)
    requires Transparent(I, start, code, shapes) && Integers(I, ints)
    requires k + Width(slice) <= |code| && Match(slice, code, k, ints).Some? && Safe(code, k, Width(slice))
    ensures var after := code[k := Match(slice, code, k, ints).value];
            Transparent(I, start, after, shapes) && forall t :: IsTarget(after, t) <==> IsTarget(code, t)
  {
    hide Match, Safe, WellFused, SameView, SameRuns, Stream, ShapesKnown, IsTarget, JumpsTo, Integers;
    MatchHead(slice, code, k, ints);
    TargetsUnchanged(code, k, Match(slice, code, k, ints).value);
    RewriteKeepsWindows(slice, code, k, ints);
    RewriteKeepsView(slice, code, k, ints);
    RewriteKeepsRuns(I, slice, code, k, ints);
    SameRunsTransitive(I, start, code, code[k := Match(slice, code, k, ints).value]);
    SameViewTransitive(start, code, code[k := Match(slice, code, k, ints).value]);
    if ShapesKnown(start, shapes) {
      RewriteKeepsStream(slice, code, k, ints, shapes);
    }
  }

  lemma TransparentReflexive<X(!new), W(!new)>(I: Interp<X, W>, code: Code, shapes: Shapes)
    requires WellFused(code)
    ensures Transparent(I, code, code, shapes)
  {
    hide Arrives, Consistent, Reachable, Finishes;
  }

  lemma TransparentTransitive<X(!new), W(!new)>(I: Interp<X, W>, a: Code, b: Code, c: Code, shapes: Shapes)
    requires Transparent(I, a, b, shapes) && Transparent(I, b, c, shapes)
    ensures Transparent(I, a, c, shapes)
  {
    hide WellFused, SameView, SameRuns, Stream, ShapesKnown;
    SameViewTransitive(a, b, c);
    SameRunsTransitive(I, a, b, c);
  }

  /** Targets of the plain jumps; superinstructions that branch keep theirs in an absorbed slot. */
  method CollectJumpTargets(code: Code) returns (targets: set<int>)
    ensures forall t :: t in targets <==> IsTarget(code, t)
  {
    targets := {};
    for pc := 0 to |code|
      invariant forall t :: t in targets <==> exists q: nat | q < pc :: JumpsTo(code[q], q, t)
    {
      var op := code[pc];
      if op.Jump? || op.JumpIf? || op.JumpIfNot? {
        assert JumpsTo(code[pc], pc, pc + 1 + op.off);
        targets := targets + {pc + 1 + op.off};
      }
    }
  }

  /** One pass over the code, in place, with the jump targets of the code on entry. Afterwards no window of
      its pattern is left but those a jump enters. */
  method ApplySlice<X(!new), W(!new)>(
    a: array<Op>, slice: Slice, ints: set<nat>, ghost shapes: Shapes, ghost I: Interp<X, W>)
    requires WellFused(a[..]) && Integers(I, ints)
    modifies a
    ensures Transparent(I, old(a[..]), a[..], shapes)
    ensures Spent(slice, a[..], ints) && KeepsSpent(slice, old(a[..]), a[..], ints)
  {
    hide *;
    ghost var start := a[..];
    TransparentReflexive(I, start, shapes);
    PassStarts(slice, start, ints);
    var targets := CollectJumpTargets(a[..]);
    var w := Width(slice);
    var k := 0;
    while k + w <= a.Length
      invariant 0 <= k && w == Width(slice)
      invariant Transparent(I, start, a[..], shapes)
      invariant SpentBelow(slice, a[..], ints, k) && KeepsSpent(slice, start, a[..], ints)
      invariant forall t :: t in targets <==> IsTarget(a[..], t)
      decreases a.Length - k
    {
      ghost var code := a[..];
      var fused := Match(slice, a[..], k, ints);
      SafeIs(code, k, w, targets);
      TransparentWellFused(I, start, code, shapes);
      if fused.Some? && (forall t | k < t < k + w :: t !in targets) {
        TransparentStep(I, slice, start, code, k, ints, shapes);
        SpentStep(slice, code, k, ints);
        KeepsSpentStep(slice, start, code, k, ints);
        a[k] := fused.value;
        assert a[..] == code[k := fused.value];
        k := k + w;
      } else {
        SpentNext(slice, code, k, ints);
        k := k + 1;
      }
    }
    SpentAtEnd(slice, a[..], k, ints);
  }

  lemma PassStarts(slice: Slice, code: Code, ints: set<nat>)
    ensures Width(slice) > 0 && SpentBelow(slice, code, ints, 0) && KeepsSpent(slice, code, code, ints)
  {
    hide Match, Spent;
  }

  lemma SafeIs(code: Code, k: nat, w: nat, targets: set<int>)
    requires forall t :: t in targets <==> IsTarget(code, t)
    ensures Safe(code, k, w) <==> forall t | k < t < k + w :: t !in targets
  {
    hide IsTarget;
  }

  /** All passes in compilation order (compiler/mod.rs:267-303): unfused code comes out with the same runs,
      the same verdict, the same depth at every pc it still reaches and the same hash stream, and nothing
      fusable is left. */
  method ApplyPeepholes<X(!new), W(!new)>(a: array<Op>, ints: set<nat>, ghost shapes: Shapes, ghost I: Interp<X, W>)
    requires Unfused(a[..]) && Integers(I, ints)
    modifies a
    ensures Transparent(I, old(a[..]), a[..], shapes)
    ensures forall k: nat | k < a.Length :: !Fusable(a[..], k, ints)
  {
    hide *;
    ghost var start := a[..];
    UnfusedIsWellFused(start);
    TransparentReflexive(I, start, shapes);
    var slices := [AddConst, AddConstStore, AddLocals, SubMulLocals, EqConstBranch, StoreEqBranch, FieldArith, FieldRead];
    for i := 0 to |slices|
      invariant Transparent(I, start, a[..], shapes)
      invariant forall j | 0 <= j < i :: Spent(slices[j], a[..], ints)
    {
      ghost var before := a[..];
      TransparentWellFused(I, start, before, shapes);
      ApplySlice(a, slices[i], ints, shapes, I);
      TransparentTransitive(I, start, before, a[..], shapes);
      StillSpent(slices, i, before, a[..], ints);
    }
    forall slice ensures Spent(slice, a[..], ints) {
      var j := Place(slice);
      assert slices[j] == slice;
    }
    forall k: nat | k < a.Length ensures !Fusable(a[..], k, ints) {
      NothingLeft(a[..], ints, k);
    }
  }

  function Place(slice: Slice): (j: nat)
    ensures j < 8 && [AddConst, AddConstStore, AddLocals, SubMulLocals, EqConstBranch, StoreEqBranch, FieldArith, FieldRead][j] == slice
  {
    match slice
    case AddConst => 0
    case AddConstStore => 1
    case AddLocals => 2
    case SubMulLocals => 3
    case EqConstBranch => 4
    case StoreEqBranch => 5
    case FieldArith => 6
    case FieldRead => 7
  }

  lemma StillSpent(slices: seq<Slice>, i: nat, before: Code, after: Code, ints: set<nat>)
    requires slices == [AddConst, AddConstStore, AddLocals, SubMulLocals, EqConstBranch, StoreEqBranch, FieldArith, FieldRead]
    requires i < |slices| && KeepsSpent(slices[i], before, after, ints)
    requires forall j | 0 <= j < i :: Spent(slices[j], before, ints)
    ensures forall j | 0 <= j < i :: Spent(slices[j], after, ints)
  {
    hide Spent;
    forall j | 0 <= j < i ensures Spent(slices[j], after, ints) {
      assert !Feeds(slices[i], slices[j]);
    }
  }

  lemma TransparentWellFused<X(!new), W(!new)>(I: Interp<X, W>, code: Code, after: Code, shapes: Shapes)
    requires Transparent(I, code, after, shapes)
    ensures WellFused(after)
  {
  }
}
