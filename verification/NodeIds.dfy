/** The walk that mints node ids (crates/lex-ast/src/ids.rs). */
module NodeIds {
  import opened Options
  import opened Ast
  import opened NodePaths
  import Text

  datatype Node =
    | StageNode(stage: Stage)
    | TypeNode(t: TypeExpr)
    | ExprNode(e: CExpr)
    | PatternNode(p: Pattern)

  // ---- child slots, in the order the walk numbers them ----

  function ExprSlots(es: seq<CExpr>): seq<Option<Node>> {
    seq(|es|, i requires 0 <= i < |es| => Some(ExprNode(es[i])))
  }

  function TypeSlots(ts: seq<TypeExpr>): seq<Option<Node>> {
    seq(|ts|, i requires 0 <= i < |ts| => Some(TypeNode(ts[i])))
  }

  function FieldSlots(fs: seq<TypeField>): seq<Option<Node>> {
    seq(|fs|, i requires 0 <= i < |fs| => Some(TypeNode(fs[i].ty)))
  }

  function SlotsOfStage(s: Stage): seq<Option<Node>> {
    match s
    case FnStage(fd) =>
      seq(|fd.params|, i requires 0 <= i < |fd.params| => Some(TypeNode(fd.params[i].ty)))
      + [Some(TypeNode(fd.returnType)), Some(ExprNode(fd.body))]
    case TypeStage(_, _, definition) => [Some(TypeNode(definition))]
    case ImportStage(_, _) => []
  }

  /** A match numbers each arm's pattern and then its body. */
  function SlotsOfExpr(e: CExpr): seq<Option<Node>> {
    match e
    case Literal(_) | Var(_) => []
    case Call(callee, args) => [Some(ExprNode(callee))] + ExprSlots(args)
    case Let(_, _, bound, body) => ExprSlots([bound, body])
    case Match(scrutinee, arms) =>
      [Some(ExprNode(scrutinee))]
      + seq(2 * |arms|, i requires 0 <= i < 2 * |arms| =>
          if i % 2 == 0 then Some(PatternNode(arms[i / 2].pattern)) else Some(ExprNode(arms[i / 2].body)))
    case Block(statements, result) => ExprSlots(statements) + [Some(ExprNode(result))]
    case Constructor(_, args) => ExprSlots(args)
    case RecordLit(fields) =>
      seq(|fields|, i requires 0 <= i < |fields| => Some(ExprNode(fields[i].value)))
    case TupleLit(items) => ExprSlots(items)
    case ListLit(items) => ExprSlots(items)
    case FieldAccess(record, _) => ExprSlots([record])
    case Lambda(_, _, _, _, body) => ExprSlots([body])
    case BinOp(_, lhs, rhs) => ExprSlots([lhs, rhs])
    case UnaryOp(_, operand) => ExprSlots([operand])
    case Return(result) => ExprSlots([result])
  }

  function SlotsOfPattern(p: Pattern): seq<Option<Node>> {
    match p
    case PLiteral(_) | PVar(_) | PWild => []
    case PConstructor(_, args) => seq(|args|, i requires 0 <= i < |args| => Some(PatternNode(args[i])))
    case PRecord(fields) => seq(|fields|, i requires 0 <= i < |fields| => Some(PatternNode(fields[i].pattern)))
    case PTuple(items) => seq(|items|, i requires 0 <= i < |items| => Some(PatternNode(items[i])))
  }

  /** A union variant takes a number whether or not it has a payload to walk; the condition of a
      refined type is an expression. */
  function SlotsOfType(t: TypeExpr): seq<Option<Node>> {
    match t
    case Named(_, args) => TypeSlots(args)
    case RecordType(fields) => FieldSlots(fields)
    case SpreadRecordType(_, fields) => FieldSlots(fields)
    case TupleType(items) => TypeSlots(items)
    case FunctionType(params, _, _, ret) => TypeSlots(params) + [Some(TypeNode(ret))]
    case UnionType(variants) =>
      seq(|variants|, i requires 0 <= i < |variants| =>
        if variants[i].payload.Some? then Some(TypeNode(variants[i].payload.value)) else None)
    case Refined(base, _, condition) => [Some(TypeNode(base)), Some(ExprNode(condition))]
  }

  function Kind(n: Node): nat {
    match n case StageNode(_) => 3 case TypeNode(_) => 2 case ExprNode(_) => 1 case PatternNode(_) => 0
  }

  ghost predicate Smaller(a: Node, b: Node) {
    Kind(a) < Kind(b)
    || (a.TypeNode? && b.TypeNode? && a.t < b.t)
    || (a.ExprNode? && b.ExprNode? && a.e < b.e)
    || (a.PatternNode? && b.PatternNode? && a.p < b.p)
  }

  function Slots(n: Node): (slots: seq<Option<Node>>)
    ensures forall i | 0 <= i < |slots| && slots[i].Some? :: Smaller(slots[i].value, n)
  {
    match n
    case StageNode(s) => SlotsOfStage(s)
    case TypeNode(t) => SlotsOfType(t)
    case ExprNode(e) => SlotsOfExpr(e)
    case PatternNode(p) => SlotsOfPattern(p)
  }

  function ExprIn(n: Node): CExpr { if n.ExprNode? then n.e else Literal(Unit) }
  function TypeIn(n: Node): TypeExpr { if n.TypeNode? then n.t else TupleType([]) }
  function PatternIn(n: Node): Pattern { if n.PatternNode? then n.p else PWild }

  // ---- the walk ----

  type Ids = seq<(Path, Node)>

  function Walk(n: Node, at: Path): Ids
    decreases Kind(n), TypeIn(n), ExprIn(n), PatternIn(n), 1, 0
  {
    WalkFrom(n, at, 0)
  }

  function WalkSlot(n: Node, at: Path, i: nat): Ids
    requires i < |Slots(n)|
    decreases Kind(n), TypeIn(n), ExprIn(n), PatternIn(n), 0, 0
  {
    match Slots(n)[i]
    case None => []
    case Some(child) => [(at + [i], child)] + Walk(child, at + [i])
  }

  function WalkFrom(n: Node, at: Path, i: nat): Ids
    requires i <= |Slots(n)|
    decreases Kind(n), TypeIn(n), ExprIn(n), PatternIn(n), 0, |Slots(n)| - i + 1
  {
    if i == |Slots(n)| then [] else WalkSlot(n, at, i) + WalkFrom(n, at, i + 1)
  }

  /** The walk as the original runs it: a counter over the slots, pushing onto one list. */
  method WalkInto(n: Node, at: Path, before: Ids) returns (out: Ids)
    ensures out == before + Walk(n, at)
    decreases Kind(n), TypeIn(n), ExprIn(n), PatternIn(n)
  {
    hide Slots;
    out := before;
    var idx := 0;
    while idx < |Slots(n)|
      invariant idx <= |Slots(n)|
      invariant out + WalkFrom(n, at, idx) == before + Walk(n, at)
    {
      ghost var soFar := out;
      match Slots(n)[idx] {
        case None =>
        case Some(child) =>
          out := out + [(at + [idx], child)];
          out := WalkInto(child, at + [idx], out);
      }
      assert out == soFar + WalkSlot(n, at, idx);
      assert out + WalkFrom(n, at, idx + 1) == soFar + WalkFrom(n, at, idx);
      idx := idx + 1;
    }
  }

  function Ids0(stage: Stage): Ids {
    [([], StageNode(stage))] + Walk(StageNode(stage), [])
  }

  method CollectIds(stage: Stage) returns (out: Ids)
    ensures out == Ids0(stage)
  {
    out := [([], StageNode(stage))];
    out := WalkInto(StageNode(stage), [], out);
  }

  // ---- what it mints ----

  /** The node a path leads to. */
  function Reach(n: Node, path: Path): Option<Node>
    decreases |path|
  {
    if path == [] then Some(n)
    else if path[0] < |Slots(n)| && Slots(n)[path[0]].Some? then Reach(Slots(n)[path[0]].value, path[1..])
    else None
  }

  ghost predicate Minted(n: Node, at: Path, from: nat, p: Path, c: Node) {
    at < p && p[|at|] >= from && Reach(n, p[|at|..]) == Some(c)
  }

  lemma {:induction false} WalkMints(n: Node, at: Path, from: nat, p: Path, c: Node)
    requires from <= |Slots(n)|
    ensures (p, c) in WalkFrom(n, at, from) <==> Minted(n, at, from, p, c)
    decreases Kind(n), TypeIn(n), ExprIn(n), PatternIn(n), |Slots(n)| - from
  {
    hide Slots;
    if from < |Slots(n)| {
      WalkMints(n, at, from + 1, p, c);
      ReachThrough(n, at, from, p, c);
      if Slots(n)[from].Some? {
        var child, here := Slots(n)[from].value, at + [from];
        WalkMints(child, here, 0, p, c);
        assert (p, c) in WalkSlot(n, at, from) <==> here <= p && Reach(child, p[|at| + 1..]) == Some(c) by {
          assert WalkSlot(n, at, from) == [(here, child)] + WalkFrom(child, here, 0);
          assert here <= p && |p| == |here| ==> p == here && p[|here|..] == [];
        }
      }
      assert Minted(n, at, from, p, c) <==>
             (at < p && p[|at|] == from && Reach(n, p[|at|..]) == Some(c)) || Minted(n, at, from + 1, p, c);
    }
  }

  lemma ReachThrough(n: Node, at: Path, i: nat, p: Path, c: Node)
    requires i < |Slots(n)|
    ensures (at < p && p[|at|] == i && Reach(n, p[|at|..]) == Some(c)) <==>
            (at + [i] <= p && Slots(n)[i].Some? && Reach(Slots(n)[i].value, p[|at| + 1..]) == Some(c))
  {
    hide Slots;
    if at < p {
      assert p[|at|..][1..] == p[|at| + 1..];
      assert p == at + [p[|at|]] + p[|at| + 1..];
    }
  }

  /** The walk emits exactly the paths that lead to a node, each with its node. */
  lemma IdsExact(stage: Stage, p: Path, c: Node)
    ensures (p, c) in Ids0(stage) <==> Reach(StageNode(stage), p) == Some(c)
  {
    WalkMints(StageNode(stage), [], 0, p, c);
    assert p[0..] == p;
  }

  /** Depth first, children in index order. */
  predicate Before(p: Path, q: Path) {
    q != [] && (p == [] || p[0] < q[0] || (p[0] == q[0] && Before(p[1..], q[1..])))
  }

  predicate Ordered(ids: Ids) {
    forall i, j | 0 <= i < j < |ids| :: Before(ids[i].0, ids[j].0)
  }

  lemma {:induction false} BeforeAfter(at: Path, p: Path, q: Path)
    ensures Before(at + p, at + q) <==> Before(p, q)
    decreases |at|
  {
    if at == [] {
      assert at + p == p && at + q == q;
    } else {
      assert (at + p)[1..] == at[1..] + p && (at + q)[1..] == at[1..] + q;
      BeforeAfter(at[1..], p, q);
    }
  }

  lemma {:induction false} BeforeIrreflexive(p: Path)
    ensures !Before(p, p)
  {
    if p != [] { BeforeIrreflexive(p[1..]); }
  }

  /** Entries of later slots come after those of earlier ones. */
  lemma SlotOrder(at: Path, i: nat, p: Path, q: Path)
    requires at + [i] <= p && at < q && i < q[|at|]
    ensures Before(p, q)
  {
    assert p == at + p[|at|..] && q == at + q[|at|..];
    BeforeAfter(at, p[|at|..], q[|at|..]);
  }

  lemma {:induction false} WalkOrdered(n: Node, at: Path, from: nat)
    requires from <= |Slots(n)|
    ensures Ordered(WalkFrom(n, at, from))
    decreases Kind(n), TypeIn(n), ExprIn(n), PatternIn(n), |Slots(n)| - from
  {
    hide Slots, Before;
    if from < |Slots(n)| {
      var head, tail := WalkSlot(n, at, from), WalkFrom(n, at, from + 1);
      WalkOrdered(n, at, from + 1);
      if Slots(n)[from].Some? {
        var child, here := Slots(n)[from].value, at + [from];
        WalkOrdered(child, here, 0);
        var inner := WalkFrom(child, here, 0);
        assert WalkSlot(n, at, from) == [(here, child)] + WalkFrom(child, here, 0);
        forall k | 0 <= k < |inner| ensures here < inner[k].0 && Before(here, inner[k].0) {
          WalkMints(child, here, 0, inner[k].0, inner[k].1);
          PrefixBefore(here, inner[k].0);
        }
        forall i, j | 0 <= i < |head| && 0 <= j < |tail| ensures Before(head[i].0, tail[j].0) {
          WalkMints(n, at, from + 1, tail[j].0, tail[j].1);
          SlotOrder(at, from, head[i].0, tail[j].0);
        }
      }
    }
  }

  lemma PrefixBefore(p: Path, q: Path)
    requires p < q
    ensures Before(p, q)
  {
    assert q == p + q[|p|..] && p == p + [];
    BeforeAfter(p, [], q[|p|..]);
  }

  /** The ids come out in strictly increasing order, so no two are the same, as paths or as text. */
  lemma IdsDistinct(stage: Stage)
    ensures Ordered(Ids0(stage))
    ensures forall i, j | 0 <= i < j < |Ids0(stage)| :: IdText(Ids0(stage)[i].0) != IdText(Ids0(stage)[j].0)
  {
    var ids := Ids0(stage);
    var rest := Walk(StageNode(stage), []);
    WalkOrdered(StageNode(stage), [], 0);
    assert forall k | 0 < k < |ids| :: ids[k] == rest[k - 1];
    forall k | 0 <= k < |rest| ensures [] < rest[k].0 {
      WalkMints(StageNode(stage), [], 0, rest[k].0, rest[k].1);
    }
    hide Walk, Before, IdText;
    assert forall k | 0 < k < |ids| :: Before([], ids[k].0) by {
      forall k | 0 < k < |ids| ensures Before([], ids[k].0) { PrefixBefore([], ids[k].0); }
    }
    forall i, j | 0 <= i < j < |ids| ensures IdText(ids[i].0) != IdText(ids[j].0) {
      assert Before(ids[i].0, ids[j].0);
      BeforeIrreflexive(ids[i].0);
      if IdText(ids[i].0) == IdText(ids[j].0) { IdInjective(ids[i].0, ids[j].0); }
    }
  }

  /** An id's text tells its path. */
  lemma IdInjective(p: Path, q: Path)
    requires IdText(p) == IdText(q)
    ensures p == q
  {
    var ps, qs := ["0"] + Steps(p), ["0"] + Steps(q);
    assert IdText(p)[2..] == Text.Join(ps, '.') && IdText(q)[2..] == Text.Join(qs, '.');
    forall i | 0 <= i < |ps| ensures '.' !in ps[i] { if i > 0 { Text.NoSeparatorInDigits(ps[i], '.'); } }
    forall i | 0 <= i < |qs| ensures '.' !in qs[i] { if i > 0 { Text.NoSeparatorInDigits(qs[i], '.'); } }
    Text.SplitJoin(ps, '.');
    Text.SplitJoin(qs, '.');
    assert Steps(p) == ps[1..] && Steps(q) == qs[1..];
    assert |p| == |Steps(p)| && |q| == |Steps(q)|;
    forall i | 0 <= i < |p| ensures p[i] == q[i] {
      assert Steps(p)[i] == Text.Show(p[i]) && Steps(q)[i] == Text.Show(q[i]);
      Text.ShowValue(p[i]);
      Text.ShowValue(q[i]);
    }
  }
}
