/** Fused and lowered code as the verifier and the body hash see it
    (crates/lex-bytecode/src/compiler/peephole.rs, crates/lex-bytecode/src/program.rs:120-245). */
module Fusion {
  import opened Bytecode
  import opened Cfg
  import opened Verifier

  // ---- what one rewrite may do to the verifier's view ----

  /** The slots after the head of a window of `w` slots at `k`. */
  predicate Hidden(k: nat, w: nat, pc: int) {
    k < pc < k + w
  }

  /** Control falls from `k` through `k + inner`, leaves the window there, and no edge from outside
      enters a hidden slot. */
  ghost predicate Window(code: Code, k: nat, w: nat, inner: nat) {
    && 0 < inner < w && k + w <= |code|
    && (forall u: nat | k <= u < k + inner :: Successors(code[u], u) == [u + 1])
    && (forall s | s in Successors(code[k + inner], k + inner) :: !Hidden(k, w, s))
    && (forall u: nat, s | u < |code| && !(k <= u < k + w) && s in Successors(code[u], u) :: !Hidden(k, w, s))
  }

  /** Depth gained from `k` to `k + j` inside the window. */
  ghost function Gain(code: Code, k: nat, j: nat): int
    requires k + j <= |code|
  {
    if j == 0 then 0 else Gain(code, k, j - 1) + StackDelta(code[k + j - 1])
  }

  /** `fused` stands for the whole window: same exits, same total effect. */
  ghost predicate Stands(code: Code, k: nat, w: nat, inner: nat, fused: Op) {
    && Window(code, k, w, inner)
    && Successors(fused, k) == Successors(code[k + inner], k + inner)
    && Gain(code, k, inner + 1) == StackDelta(fused)
  }

  /** The verifier cannot tell the two codes apart: same verdict, and the same depths at every pc
      the rewritten code reaches. */
  ghost predicate SameView(code: Code, after: Code) {
    && |code| == |after|
    && (Consistent(code) <==> Consistent(after))
    && (forall pc, d :: Arrives(after, pc, d) ==> Arrives(code, pc, d))
    && (forall pc, d :: Arrives(code, pc, d) && Reachable(after, pc) ==> Arrives(after, pc, d))
  }

  lemma SameViewTransitive(a: Code, b: Code, c: Code)
    requires SameView(a, b) && SameView(b, c)
    ensures SameView(a, c)
  {
    hide Arrives, Consistent, Reachable;
    forall pc, d | Arrives(a, pc, d) && Reachable(c, pc)
      ensures Arrives(c, pc, d)
    {
      ReachableArrives(c, pc);
      var e :| Arrives(c, pc, e);
      assert Arrives(b, pc, e);
      ArrivesReachable(b, pc, e);
    }
  }

  lemma ReachableArrives(code: Code, pc: nat)
    requires Reachable(code, pc)
    ensures exists d :: Arrives(code, pc, d)
  {
    var p :| PathTo(code, p, pc);
    assert Arrives(code, pc, PathDepth(code, p));
  }

  lemma ArrivesReachable(code: Code, pc: nat, d: int)
    requires Arrives(code, pc, d)
    ensures Reachable(code, pc) && pc < |code|
  {
  }

  lemma ConsistentArrives(code: Code)
    ensures Consistent(code) <==> forall pc, d, e | Arrives(code, pc, d) && Arrives(code, pc, e) :: d == e
  {
    if Consistent(code) {
      forall pc, d, e | Arrives(code, pc, d) && Arrives(code, pc, e) ensures d == e {
        var p :| PathTo(code, p, pc) && PathDepth(code, p) == d;
        var q :| PathTo(code, q, pc) && PathDepth(code, q) == e;
      }
    }
    if forall pc, d, e | Arrives(code, pc, d) && Arrives(code, pc, e) :: d == e {
      forall p, q | IsPath(code, p) && IsPath(code, q) && Last(p) == Last(q)
        ensures PathDepth(code, p) == PathDepth(code, q)
      {
        assert PathTo(code, p, Last(p)) && PathTo(code, q, Last(p));
        assert Arrives(code, Last(p), PathDepth(code, p)) && Arrives(code, Last(p), PathDepth(code, q));
      }
    }
  }

  // ---- rewrites that keep edges and effects slot by slot ----

  ghost predicate SameShape(code: Code, after: Code) {
    |code| == |after|
    && forall pc: nat | pc < |code| ::
         Successors(code[pc], pc) == Successors(after[pc], pc) && StackDelta(code[pc]) == StackDelta(after[pc])
  }

  lemma {:induction false} SameShapePath(code: Code, after: Code, p: Path)
    requires SameShape(code, after) && IsPath(code, p)
    ensures IsPath(after, p) && PathDepth(after, p) == PathDepth(code, p)
    decreases |p|
  {
    hide Successors, StackDelta;
    if |p| > 1 {
      var q := p[..|p| - 1];
      PathPrefix(code, p);
      SameShapePath(code, after, q);
      ExtendPath(after, q, Last(p));
      assert q + [Last(p)] == p;
    }
  }

  lemma SameShapeView(code: Code, after: Code)
    requires SameShape(code, after)
    ensures SameView(code, after)
  {
    forall p | IsPath(code, p) { SameShapePath(code, after, p); }
    forall p | IsPath(after, p) { SameShapePath(after, code, p); }
    hide Successors, StackDelta, PathDepth, IsPath, SameShape;
    forall pc, d
      ensures Arrives(after, pc, d) <==> Arrives(code, pc, d)
    {
      if Arrives(after, pc, d) {
        var p :| PathTo(after, p, pc) && PathDepth(after, p) == d;
        assert PathTo(code, p, pc) && PathDepth(code, p) == d;
      }
      if Arrives(code, pc, d) {
        var p :| PathTo(code, p, pc) && PathDepth(code, p) == d;
        assert PathTo(after, p, pc) && PathDepth(after, p) == d;
      }
    }
    ConsistentArrives(code);
    ConsistentArrives(after);
  }

  // ---- rewrites that skip a whole window ----

  lemma {:induction false} WindowArrives(code: Code, k: nat, w: nat, inner: nat, d: int, j: nat)
    requires Window(code, k, w, inner) && Arrives(code, k, d) && j <= inner
    ensures Arrives(code, k + j, d + Gain(code, k, j))
    decreases j
  {
    hide Arrives, StackDelta;
    if j > 0 {
      WindowArrives(code, k, w, inner, d, j - 1);
      assert Edge(code, k + j - 1, k + j);
      ArrivesNext(code, k + j - 1, d + Gain(code, k, j - 1), k + j);
    }
  }

  lemma SkipDownStep(code: Code, k: nat, w: nat, inner: nat, fused: Op, u: nat, pc: nat, d: int)
    requires Stands(code, k, w, inner, fused)
    requires InCode(code, u) && Edge(code[k := fused], u, pc) && !Hidden(k, w, u) && Arrives(code, u, d)
    ensures !Hidden(k, w, pc) && Arrives(code, pc, d + StackDelta(code[k := fused][u]))
  {
    hide Arrives, StackDelta, Successors;
    if u == k {
      WindowArrives(code, k, w, inner, d, inner);
      assert Edge(code, k + inner, pc);
      ArrivesNext(code, k + inner, d + Gain(code, k, inner), pc);
    } else {
      assert Edge(code, u, pc);
      ArrivesNext(code, u, d, pc);
    }
  }

  /** Paths of the rewritten code are shortcuts of paths of the original. */
  lemma {:induction false} SkipDown(code: Code, k: nat, w: nat, inner: nat, fused: Op, p: Path)
    requires k < |code| && Stands(code, k, w, inner, fused) && IsPath(code[k := fused], p)
    ensures !Hidden(k, w, Last(p)) && Arrives(code, Last(p), PathDepth(code[k := fused], p))
    decreases |p|
  {
    hide Arrives, StackDelta, Successors, Stands;
    var after := code[k := fused];
    if |p| == 1 {
      ArrivesEntry(code);
    } else {
      PathPrefix(after, p);
      var q := p[..|p| - 1];
      SkipDown(code, k, w, inner, fused, q);
      SkipDownStep(code, k, w, inner, fused, Last(q), Last(p), PathDepth(after, q));
    }
  }

  /** At `pc`, or, inside the window, back at its head with the gain taken off. */
  ghost predicate ArrivesOutside(code: Code, after: Code, k: nat, w: nat, inner: nat, pc: nat, d: int)
    requires k + w <= |code| && inner < w
  {
    if Hidden(k, w, pc) then pc <= k + inner && Arrives(after, k, d - Gain(code, k, pc - k))
    else Arrives(after, pc, d)
  }

  lemma SkipUpStep(code: Code, k: nat, w: nat, inner: nat, fused: Op, u: nat, pc: nat, d: int)
    requires Stands(code, k, w, inner, fused)
    requires InCode(code, u) && Edge(code, u, pc) && ArrivesOutside(code, code[k := fused], k, w, inner, u, d)
    ensures ArrivesOutside(code, code[k := fused], k, w, inner, pc, d + StackDelta(code[u]))
  {
    hide Arrives, StackDelta, Successors;
    var after := code[k := fused];
    if k <= u < k + inner {
      assert pc == u + 1;
      assert Gain(code, k, pc - k) == Gain(code, k, u - k) + StackDelta(code[u]);
    } else if u == k + inner {
      assert Edge(after, k, pc);
      ArrivesNext(after, k, d - Gain(code, k, inner), pc);
    } else {
      assert Edge(after, u, pc);
      ArrivesNext(after, u, d, pc);
    }
  }

  lemma {:induction false} SkipUp(code: Code, k: nat, w: nat, inner: nat, fused: Op, p: Path)
    requires k < |code| && Stands(code, k, w, inner, fused) && IsPath(code, p)
    ensures ArrivesOutside(code, code[k := fused], k, w, inner, Last(p), PathDepth(code, p))
    decreases |p|
  {
    var after := code[k := fused];
    if |p| == 1 {
      ArrivesEntry(after);
    } else {
      PathPrefix(code, p);
      var q := p[..|p| - 1];
      hide Arrives, StackDelta, Successors, Stands, ArrivesOutside;
      SkipUp(code, k, w, inner, fused, q);
      SkipUpStep(code, k, w, inner, fused, Last(q), Last(p), PathDepth(code, q));
    }
  }

  lemma SkipView(code: Code, k: nat, w: nat, inner: nat, fused: Op)
    requires k < |code| && Stands(code, k, w, inner, fused)
    ensures SameView(code, code[k := fused])
  {
    var after := code[k := fused];
    forall pc: nat, d | Arrives(after, pc, d) ensures Arrives(code, pc, d) && !Hidden(k, w, pc) {
      var p :| PathTo(after, p, pc) && PathDepth(after, p) == d;
      SkipDown(code, k, w, inner, fused, p);
    }
    forall pc: nat, d | Arrives(code, pc, d) ensures ArrivesOutside(code, after, k, w, inner, pc, d) {
      var p :| PathTo(code, p, pc) && PathDepth(code, p) == d;
      SkipUp(code, k, w, inner, fused, p);
    }
    ConsistentArrives(code);
    ConsistentArrives(after);
    hide Arrives, Consistent, Successors, StackDelta, Stands, Gain;
    forall pc, d | Arrives(code, pc, d) && Reachable(after, pc)
      ensures Arrives(after, pc, d)
    {
      ReachableArrives(after, pc);
    }
    if Consistent(after) {
      forall pc, d, e | Arrives(code, pc, d) && Arrives(code, pc, e) ensures d == e {
        assert ArrivesOutside(code, after, k, w, inner, pc, d) && ArrivesOutside(code, after, k, w, inner, pc, e);
      }
    }
  }

  // ---- the byte stream fed to the body hash ----

  /** Serialised form of one slot. The legacy spelling of a record names its fields inline, that of a
      field read drops the cache index; everything else serialises as the op itself. */
  datatype Form = LegacyRecord(fields: seq<nat>) | LegacyGetField(name: nat) | AsIs(op: Op)

  /** Indexing an unknown shape panics in the original. */
  predicate ShapesKnown(code: Code, shapes: Shapes) {
    forall op | op in code ::
      (op.MakeRecord? || op.AllocStackRecord? || op.AllocArenaRecord?) ==> op.shape < |shapes|
  }

  function Erase(op: Op, shapes: Shapes): Form
    requires ShapesKnown([op], shapes)
  {
    assert op in [op];
    match op
    case MakeRecord(i, _) => LegacyRecord(shapes[i])
    case AllocStackRecord(i, _) => LegacyRecord(shapes[i])
    case AllocArenaRecord(i, _) => LegacyRecord(shapes[i])
    case LoadLocalAddIntConst(i, _) => AsIs(LoadLocal(i))
    case LoadLocalAddIntConstStoreLocal(i, _, _) => AsIs(LoadLocal(i))
    case LoadLocalAddLocal(i, _) => AsIs(LoadLocal(i))
    case LoadLocalSubLocal(i, _) => AsIs(LoadLocal(i))
    case LoadLocalMulLocal(i, _) => AsIs(LoadLocal(i))
    case LoadLocalEqIntConstJumpIfNot(i, _, _) => AsIs(LoadLocal(i))
    case LoadLocalStoreEqIntConstJumpIfNot(i, _, _, _) => AsIs(LoadLocal(i))
    case LoadLocalGetFieldAdd(i, _, _) => AsIs(LoadLocal(i))
    case LoadLocalGetFieldSub(i, _, _) => AsIs(LoadLocal(i))
    case LoadLocalGetFieldMul(i, _, _) => AsIs(LoadLocal(i))
    case LoadLocalGetField(i, _, _) => AsIs(LoadLocal(i))
    case GetField(name, _) => LegacyGetField(name)
    case AllocStackTuple(n) => AsIs(MakeTuple(n))
    case AllocArenaTuple(n) => AsIs(MakeTuple(n))
    case TakeLocal(i) => AsIs(LoadLocal(i))
    case IntAdd | FloatAdd => AsIs(NumAdd)
    case IntSub | FloatSub => AsIs(NumSub)
    case IntMul | FloatMul => AsIs(NumMul)
    case IntDiv | FloatDiv => AsIs(NumDiv)
    case IntMod => AsIs(NumMod)
    case IntNeg | FloatNeg => AsIs(NumNeg)
    case IntEq | FloatEq => AsIs(NumEq)
    case IntLt | FloatLt => AsIs(NumLt)
    case IntLe | FloatLe => AsIs(NumLe)
    case _ => AsIs(op)
  }

  lemma KnownAt(code: Code, shapes: Shapes, k: nat)
    requires ShapesKnown(code, shapes) && k < |code|
    ensures ShapesKnown([code[k]], shapes)
  {
    assert code[k] in code;
  }

  /** What the hasher is fed after the header of arity, locals count and length. */
  function Stream(code: Code, shapes: Shapes): seq<Form>
    requires ShapesKnown(code, shapes)
  {
    seq(|code|, k requires 0 <= k < |code| => KnownAt(code, shapes, k); Erase(code[k], shapes))
  }

  /** A hasher that remembers what it was fed. */
  class Hasher {
    var fed: seq<Form>

    constructor ()
      ensures fed == []
    {
      fed := [];
    }

    /** `compute_body_hash`: slot by slot, each in the form it hashes as. */
    method FeedBody(code: Code, shapes: Shapes)
      requires ShapesKnown(code, shapes)
      modifies this
      ensures fed == old(fed) + Stream(code, shapes)
    {
      for k := 0 to |code|
        invariant fed == old(fed) + Stream(code, shapes)[..k]
      {
        KnownAt(code, shapes, k);
        fed := fed + [Erase(code[k], shapes)];
      }
    }
  }

  /** The arithmetic an op does, its type aside. */
  function Generic(op: Op): Op {
    match op
    case IntAdd | FloatAdd => NumAdd
    case IntSub | FloatSub => NumSub
    case IntMul | FloatMul => NumMul
    case IntDiv | FloatDiv => NumDiv
    case IntMod => NumMod
    case IntNeg | FloatNeg => NumNeg
    case IntEq | FloatEq => NumEq
    case IntLt | FloatLt => NumLt
    case IntLe | FloatLe => NumLe
    case _ => op
  }

  predicate Arithmetic(op: Op) {
    || op.NumAdd? || op.NumSub? || op.NumMul? || op.NumDiv? || op.NumMod? || op.NumNeg? || op.NumEq? || op.NumLt? || op.NumLe?
    || op.IntAdd? || op.IntSub? || op.IntMul? || op.IntDiv? || op.IntMod? || op.IntNeg? || op.IntEq? || op.IntLt? || op.IntLe?
    || op.FloatAdd? || op.FloatSub? || op.FloatMul? || op.FloatDiv? || op.FloatNeg? || op.FloatEq? || op.FloatLt? || op.FloatLe?
  }

  /** The lowerings that run before the hash is taken: where a record or tuple is allocated, moving
      loads, and arithmetic at a known type. */
  predicate Lowers(from: Op, to: Op) {
    Relocates(from, to) || (Arithmetic(from) && Arithmetic(to) && Generic(to) == Generic(from))
  }

  predicate Relocates(from: Op, to: Op) {
    || (from.MakeRecord? && (to == AllocStackRecord(from.shape, from.fieldCount) || to == AllocArenaRecord(from.shape, from.fieldCount)))
    || (from.MakeTuple? && (to == AllocStackTuple(from.arity) || to == AllocArenaTuple(from.arity)))
    || (from.LoadLocal? && to == TakeLocal(from.i))
  }

  /** Lowering any slots of a body leaves the stream fed to its hash as it was. */
  lemma LoweringKeepsStream(code: Code, after: Code, shapes: Shapes)
    requires ShapesKnown(code, shapes) && |after| == |code|
    requires forall k | 0 <= k < |code| :: after[k] == code[k] || Lowers(code[k], after[k])
    ensures ShapesKnown(after, shapes) && Stream(after, shapes) == Stream(code, shapes)
  {
    forall k | 0 <= k < |code|
      ensures ShapesKnown([code[k]], shapes) && ShapesKnown([after[k]], shapes)
      ensures Erase(after[k], shapes) == Erase(code[k], shapes)
    {
      KnownAt(code, shapes, k);
      LoweredSlot(code[k], after[k], shapes);
    }
    hide Erase;
  }

  lemma LoweredSlot(from: Op, to: Op, shapes: Shapes)
    requires ShapesKnown([from], shapes) && (to == from || Lowers(from, to))
    ensures ShapesKnown([to], shapes) && Erase(to, shapes) == Erase(from, shapes)
  {
    hide Erase, Generic, Arithmetic, ShapesKnown, Relocates;
    if Relocates(from, to) {
      Relocated(from, to, shapes);
    } else if to != from {
      NoShape(to, shapes);
      GenericErased(from, shapes);
      GenericErased(to, shapes);
    }
  }

  lemma Relocated(from: Op, to: Op, shapes: Shapes)
    requires ShapesKnown([from], shapes) && Relocates(from, to)
    ensures ShapesKnown([to], shapes) && Erase(to, shapes) == Erase(from, shapes)
  {
    assert from in [from];
  }

  lemma NoShape(op: Op, shapes: Shapes)
    requires Arithmetic(op)
    ensures ShapesKnown([op], shapes)
  {
  }

  lemma GenericErased(op: Op, shapes: Shapes)
    requires Arithmetic(op) && ShapesKnown([op], shapes)
    ensures Erase(op, shapes) == AsIs(Generic(op))
  {
  }

  /** Records carry as many operands as their shape has fields. */
  predicate Coherent(code: Code, shapes: Shapes) {
    ShapesKnown(code, shapes)
    && forall op | op in code ::
         (op.MakeRecord? || op.AllocStackRecord? || op.AllocArenaRecord?) ==> op.fieldCount == |shapes[op.shape]|
  }

  /** The verifier's view of a slot, read off its serialised form. */
  function FormDelta(form: Form): int {
    match form
    case LegacyRecord(fields) => 1 - |fields|
    case LegacyGetField(_) => 0
    case AsIs(op) => StackDelta(op)
  }

  function FormSuccessors(form: Form, pc: nat): seq<int> {
    match form
    case LegacyRecord(_) | LegacyGetField(_) => [pc + 1]
    case AsIs(op) => Successors(op, pc)
  }

  lemma RewrittenKeepsDelta(a: Op, shapes: Shapes)
    requires ShapesKnown([a], shapes) && !Fused(a)
    ensures Erase(a, shapes).AsIs? ==> StackDelta(a) == StackDelta(Erase(a, shapes).op)
  {
  }

  lemma LegacyKeepsDelta(a: Op, shapes: Shapes)
    requires Coherent([a], shapes) && !Fused(a)
    ensures !Erase(a, shapes).AsIs? ==> StackDelta(a) == FormDelta(Erase(a, shapes))
  {
    assert a in [a];
  }

  lemma ErasureKeepsDelta(a: Op, shapes: Shapes)
    requires Coherent([a], shapes) && !Fused(a)
    ensures StackDelta(a) == FormDelta(Erase(a, shapes))
  {
    hide Erase, StackDelta, ShapesKnown;
    assert ShapesKnown([a], shapes);
    RewrittenKeepsDelta(a, shapes);
    LegacyKeepsDelta(a, shapes);
  }

  lemma ErasureKeepsSuccessors(a: Op, shapes: Shapes, pc: nat)
    requires ShapesKnown([a], shapes) && !Fused(a)
    ensures Successors(a, pc) == FormSuccessors(Erase(a, shapes), pc)
  {
  }

  lemma ErasedAlike(a: Op, b: Op, shapes: Shapes, pc: nat)
    requires Coherent([a], shapes) && Coherent([b], shapes) && !Fused(a) && !Fused(b)
    requires Erase(a, shapes) == Erase(b, shapes)
    ensures Successors(a, pc) == Successors(b, pc) && StackDelta(a) == StackDelta(b)
  {
    hide Erase, Successors, StackDelta;
    ErasureKeepsDelta(a, shapes);
    ErasureKeepsDelta(b, shapes);
    ErasureKeepsSuccessors(a, shapes, pc);
    ErasureKeepsSuccessors(b, shapes, pc);
  }

  /** The body hash ignores how a body was lowered (stack and arena allocation, typed arithmetic,
      moving loads), and nothing it ignores is visible to the verifier: unfused bodies that feed the
      hasher the same stream get the same verdict and the same depths. */
  lemma StreamDecidesVerdict(code: Code, after: Code, shapes: Shapes)
    requires Unfused(code) && Unfused(after) && Coherent(code, shapes) && Coherent(after, shapes)
    requires Stream(code, shapes) == Stream(after, shapes)
    ensures SameView(code, after)
  {
    assert |code| == |Stream(code, shapes)| == |after|;
    forall pc: nat | pc < |code|
      ensures Successors(code[pc], pc) == Successors(after[pc], pc) && StackDelta(code[pc]) == StackDelta(after[pc])
    {
      assert code[pc] in code && after[pc] in after;
      KnownAt(code, shapes, pc);
      KnownAt(after, shapes, pc);
      assert Stream(code, shapes)[pc] == Erase(code[pc], shapes);
      assert Stream(after, shapes)[pc] == Erase(after[pc], shapes);
      hide Erase, Successors, StackDelta;
      ErasedAlike(code[pc], after[pc], shapes, pc);
    }
    hide Erase, Successors, StackDelta;
    SameShapeView(code, after);
  }
}
