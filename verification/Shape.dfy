/** The tensor-shape unifier (crates/core-compiler/src/shape.rs). */
module Shape {
  import opened Options

  datatype ShapeExpr =
    | Lit(value: int)
    | Var(name: string)
    | Add(lhs: ShapeExpr, rhs: ShapeExpr)
    | Mul(lhs: ShapeExpr, rhs: ShapeExpr)

  datatype ShapeError = RankMismatch(rankA: nat, rankB: nat) | DimMismatch(a: ShapeExpr, b: ShapeExpr)

  datatype Result = Ok | Err(error: ShapeError)

  datatype Binding = Binding(name: string, bound: ShapeExpr)

  /** The insertion-ordered map of known bindings. */
  type Bindings = seq<Binding>

  function Vars(e: ShapeExpr): set<string> {
    match e
    case Lit(_) => {}
    case Var(name) => {name}
    case Add(lhs, rhs) => Vars(lhs) + Vars(rhs)
    case Mul(lhs, rhs) => Vars(lhs) + Vars(rhs)
  }

  function Find(bs: Bindings, name: string): (i: nat)
    ensures i <= |bs|
    ensures i < |bs| ==> bs[i].name == name
    ensures forall j | 0 <= j < i :: bs[j].name != name
  {
    if bs == [] then 0
    else if bs[0].name == name then 0
    else
      assert forall j | 1 <= j < |bs| :: bs[j] == bs[1..][j - 1];
      1 + Find(bs[1..], name)
  }

  predicate IsBound(bs: Bindings, name: string) {
    Find(bs, name) < |bs|
  }

  /** Names bound once, and each binding mentions neither its own name nor one bound before it. */
  ghost predicate Acyclic(bs: Bindings) {
    && (forall i, j | 0 <= i < j < |bs| :: bs[i].name != bs[j].name)
    && forall i, j | 0 <= j <= i < |bs| :: bs[j].name !in Vars(bs[i].bound)
  }

  /** The first binding whose name occurs in `e`. */
  ghost function Lowest(bs: Bindings, e: ShapeExpr): (k: nat)
    ensures k <= |bs|
  {
    match e
    case Lit(_) => |bs|
    case Var(name) => Find(bs, name)
    case Add(lhs, rhs) => Smaller(Lowest(bs, lhs), Lowest(bs, rhs))
    case Mul(lhs, rhs) => Smaller(Lowest(bs, lhs), Lowest(bs, rhs))
  }

  function Smaller(a: nat, b: nat): nat {
    if a < b then a else b
  }

  lemma {:induction false} LowestIs(bs: Bindings, e: ShapeExpr)
    ensures forall i | 0 <= i < Lowest(bs, e) :: bs[i].name !in Vars(e)
    ensures Lowest(bs, e) < |bs| ==> bs[Lowest(bs, e)].name in Vars(e)
  {
    match e
    case Add(lhs, rhs) => LowestIs(bs, lhs); LowestIs(bs, rhs);
    case Mul(lhs, rhs) => LowestIs(bs, lhs); LowestIs(bs, rhs);
    case _ =>
  }

  lemma BindingsClimb(bs: Bindings, i: nat)
    requires Acyclic(bs) && i < |bs|
    ensures Lowest(bs, bs[i].bound) > i
  {
    LowestIs(bs, bs[i].bound);
  }

  // ---- resolve ----

  function FoldAdd(a: ShapeExpr, b: ShapeExpr): ShapeExpr {
    if a.Lit? && b.Lit? then Lit(a.value + b.value) else Add(a, b)
  }

  function FoldMul(a: ShapeExpr, b: ShapeExpr): ShapeExpr {
    if a.Lit? && b.Lit? then Lit(a.value * b.value) else Mul(a, b)
  }

  /** Substitution of the bindings, folding constants; it ends because bindings climb. */
  function Resolve(bs: Bindings, e: ShapeExpr): ShapeExpr
    requires Acyclic(bs)
    decreases |bs| - Lowest(bs, e), e
  {
    match e
    case Lit(_) => e
    case Var(name) =>
      var i := Find(bs, name);
      if i == |bs| then e
      else
        BindingsClimb(bs, i);
        Resolve(bs, bs[i].bound)
    case Add(lhs, rhs) => FoldAdd(Resolve(bs, lhs), Resolve(bs, rhs))
    case Mul(lhs, rhs) => FoldMul(Resolve(bs, lhs), Resolve(bs, rhs))
  }

  /** Nothing left to substitute or to fold. */
  predicate Resolved(bs: Bindings, e: ShapeExpr) {
    match e
    case Lit(_) => true
    case Var(name) => !IsBound(bs, name)
    case Add(lhs, rhs) => Resolved(bs, lhs) && Resolved(bs, rhs) && !(lhs.Lit? && rhs.Lit?)
    case Mul(lhs, rhs) => Resolved(bs, lhs) && Resolved(bs, rhs) && !(lhs.Lit? && rhs.Lit?)
  }

  lemma {:induction false} ResolveResolves(bs: Bindings, e: ShapeExpr)
    requires Acyclic(bs)
    ensures Resolved(bs, Resolve(bs, e))
    decreases |bs| - Lowest(bs, e), e
  {
    match e
    case Lit(_) =>
    case Var(name) =>
      var i := Find(bs, name);
      if i < |bs| {
        BindingsClimb(bs, i);
        ResolveResolves(bs, bs[i].bound);
      }
    case Add(lhs, rhs) => ResolveResolves(bs, lhs); ResolveResolves(bs, rhs);
    case Mul(lhs, rhs) => ResolveResolves(bs, lhs); ResolveResolves(bs, rhs);
  }

  lemma {:induction false} ResolvedStays(bs: Bindings, e: ShapeExpr)
    requires Acyclic(bs) && Resolved(bs, e)
    ensures Resolve(bs, e) == e
    ensures forall i | 0 <= i < |bs| :: bs[i].name !in Vars(e)
  {
    match e
    case Add(lhs, rhs) => ResolvedStays(bs, lhs); ResolvedStays(bs, rhs);
    case Mul(lhs, rhs) => ResolvedStays(bs, lhs); ResolvedStays(bs, rhs);
    case _ =>
  }

  /** Resolving twice is resolving once. */
  lemma ResolveIdempotent(bs: Bindings, e: ShapeExpr)
    requires Acyclic(bs)
    ensures Resolve(bs, Resolve(bs, e)) == Resolve(bs, e)
  {
    ResolveResolves(bs, e);
    ResolvedStays(bs, Resolve(bs, e));
  }

  // ---- unify ----

  /** What unification does to the bindings, given both sides resolved. */
  function UnifyResolved(bs: Bindings, x: ShapeExpr, y: ShapeExpr): (Result, Bindings) {
    if x.Lit? && y.Lit? then (if x.value == y.value then Ok else Err(DimMismatch(x, y)), bs)
    else if x.Var? then (Ok, bs + [Binding(x.name, y)])
    else if y.Var? then (Ok, bs + [Binding(y.name, x)])
    else if x == y then (Ok, bs)
    else (Err(DimMismatch(x, y)), bs)
  }

  function Unify(bs: Bindings, a: ShapeExpr, b: ShapeExpr): (Result, Bindings)
    requires Acyclic(bs)
  {
    UnifyResolved(bs, Resolve(bs, a), Resolve(bs, b))
  }

  /** The variable about to be bound occurs in what it is bound to. */
  predicate Occurs(bs: Bindings, a: ShapeExpr, b: ShapeExpr)
    requires Acyclic(bs)
  {
    var x, y := Resolve(bs, a), Resolve(bs, b);
    if x.Var? then x.name in Vars(y) else y.Var? && y.name in Vars(x)
  }

  /** Bindings stay acyclic exactly when the variable does not occur in its new binding. */
  lemma UnifyAcyclic(bs: Bindings, a: ShapeExpr, b: ShapeExpr)
    requires Acyclic(bs)
    ensures Acyclic(Unify(bs, a, b).1) <==> !Occurs(bs, a, b)
  {
    var x, y := Resolve(bs, a), Resolve(bs, b);
    ResolveResolves(bs, a);
    ResolveResolves(bs, b);
    ResolvedStays(bs, x);
    ResolvedStays(bs, y);
    hide Resolve, Resolved;
    var later := Unify(bs, a, b).1;
    if later != bs {
      var added := later[|bs|];
      assert later == bs + [added];
      assert added.name in Vars(added.bound) <==> Occurs(bs, a, b);
      AppendAcyclic(bs, added);
    }
  }

  lemma AppendAcyclic(bs: Bindings, added: Binding)
    requires Acyclic(bs)
    requires forall j | 0 <= j < |bs| :: bs[j].name != added.name && bs[j].name !in Vars(added.bound)
    ensures Acyclic(bs + [added]) <==> added.name !in Vars(added.bound)
  {
    var later := bs + [added];
    assert later[|bs|] == added && forall j | 0 <= j < |bs| :: later[j] == bs[j];
    hide Vars;
  }

  // ---- solutions ----

  type Valuation = string -> int

  function Value(e: ShapeExpr, v: Valuation): int {
    match e
    case Lit(n) => n
    case Var(name) => v(name)
    case Add(lhs, rhs) => Value(lhs, v) + Value(rhs, v)
    case Mul(lhs, rhs) => Value(lhs, v) * Value(rhs, v)
  }

  predicate Solves(v: Valuation, bs: Bindings) {
    forall i | 0 <= i < |bs| :: v(bs[i].name) == Value(bs[i].bound, v)
  }

  /** Wherever resolving ends it keeps the value under every solution. */
  lemma {:induction false} ResolveKeepsValue(bs: Bindings, e: ShapeExpr, depth: nat, v: Valuation)
    requires ResolveTo(bs, e, depth).Some? && Solves(v, bs)
    ensures Value(ResolveTo(bs, e, depth).value, v) == Value(e, v)
    decreases depth, e
  {
    match e
    case Lit(_) =>
    case Var(name) =>
      var i := Find(bs, name);
      if i < |bs| { ResolveKeepsValue(bs, bs[i].bound, depth - 1, v); }
    case Add(lhs, rhs) => ResolveKeepsValue(bs, lhs, depth, v); ResolveKeepsValue(bs, rhs, depth, v);
    case Mul(lhs, rhs) => ResolveKeepsValue(bs, lhs, depth, v); ResolveKeepsValue(bs, rhs, depth, v);
  }

  /** A successful unification keeps exactly the solutions that also equate both sides, whatever the
      bindings. It is refused, and then binds nothing, exactly when the resolved sides differ and neither
      is a variable; two literals so refused have no solution. */
  lemma UnifySolutions(bs: Bindings, a: ShapeExpr, b: ShapeExpr, v: Valuation)
    requires Ends(bs, a) && Ends(bs, b)
    ensures var x, y := Resolution(bs, a), Resolution(bs, b);
            var (r, later) := UnifyResolved(bs, x, y);
            && (r.Ok? ==> (Solves(v, later) <==> Solves(v, bs) && Value(a, v) == Value(b, v)))
            && (r.Err? <==> x != y && !x.Var? && !y.Var?)
            && (r.Err? ==> later == bs && r.error == DimMismatch(x, y))
            && (r.Err? && x.Lit? && y.Lit? ==> !(Solves(v, bs) && Value(a, v) == Value(b, v)))
  {
    var x, y := Resolution(bs, a), Resolution(bs, b);
    var later := UnifyResolved(bs, x, y).1;
    if Solves(v, bs) {
      ResolutionKeepsValue(bs, a, v);
      ResolutionKeepsValue(bs, b, v);
    }
    if |later| > |bs| {
      assert later[..|bs|] == bs;
      assert forall i | 0 <= i < |bs| :: later[i] == bs[i];
      var added := later[|bs|];
      assert Solves(v, later) <==> Solves(v, bs) && v(added.name) == Value(added.bound, v);
    }
  }

  lemma ResolutionKeepsValue(bs: Bindings, e: ShapeExpr, v: Valuation)
    requires Ends(bs, e) && Solves(v, bs)
    ensures Value(Resolution(bs, e), v) == Value(e, v)
  {
    var depth: nat :| ResolveTo(bs, e, depth).Some?;
    ResolutionAt(bs, e, depth);
    ResolveKeepsValue(bs, e, depth, v);
  }

  /** Arithmetic is matched as written: `M + 1` and `1 + M` are refused though every value of M equates them. */
  lemma CommutedRefused(v: Valuation)
    ensures var a, b := Add(Var("M"), Lit(1)), Add(Lit(1), Var("M"));
            Unify([], a, b) == (Err(DimMismatch(a, b)), []) && Value(a, v) == Value(b, v)
  {
    var a, b := Add(Var("M"), Lit(1)), Add(Lit(1), Var("M"));
    assert Resolve([], Var("M")) == Var("M");
    assert Resolve([], a) == a && Resolve([], b) == b;
  }

  // ---- without the occurs check ----

  /** `resolve` as far as `depth` substitutions go: nothing when it is still going. */
  function ResolveTo(bs: Bindings, e: ShapeExpr, depth: nat): Option<ShapeExpr>
    decreases depth, e
  {
    match e
    case Lit(_) => Some(e)
    case Var(name) =>
      var i := Find(bs, name);
      if i == |bs| then Some(e)
      else if depth == 0 then None
      else ResolveTo(bs, bs[i].bound, depth - 1)
    case Add(lhs, rhs) =>
      var a, b := ResolveTo(bs, lhs, depth), ResolveTo(bs, rhs, depth);
      if a.Some? && b.Some? then Some(FoldAdd(a.value, b.value)) else None
    case Mul(lhs, rhs) =>
      var a, b := ResolveTo(bs, lhs, depth), ResolveTo(bs, rhs, depth);
      if a.Some? && b.Some? then Some(FoldMul(a.value, b.value)) else None
  }

  /** On acyclic bindings as many substitutions as there are bindings are enough. */
  lemma {:induction false} ResolveEnds(bs: Bindings, e: ShapeExpr, depth: nat)
    requires Acyclic(bs) && depth >= |bs| - Lowest(bs, e)
    ensures ResolveTo(bs, e, depth) == Some(Resolve(bs, e))
    decreases depth, e
  {
    match e
    case Lit(_) =>
    case Var(name) =>
      var i := Find(bs, name);
      if i < |bs| {
        BindingsClimb(bs, i);
        ResolveEnds(bs, bs[i].bound, depth - 1);
      }
    case Add(lhs, rhs) => ResolveEnds(bs, lhs, depth); ResolveEnds(bs, rhs, depth);
    case Mul(lhs, rhs) => ResolveEnds(bs, lhs, depth); ResolveEnds(bs, rhs, depth);
  }

  /** Resolving ends; on acyclic bindings it always does. */
  ghost predicate Ends(bs: Bindings, e: ShapeExpr) {
    exists depth: nat :: ResolveTo(bs, e, depth).Some?
  }

  ghost function Resolution(bs: Bindings, e: ShapeExpr): ShapeExpr
    requires Ends(bs, e)
  {
    var depth: nat :| ResolveTo(bs, e, depth).Some?;
    ResolveTo(bs, e, depth).value
  }

  lemma {:induction false} DeeperSame(bs: Bindings, e: ShapeExpr, depth: nat, more: nat)
    requires ResolveTo(bs, e, depth).Some? && depth <= more
    ensures ResolveTo(bs, e, more) == ResolveTo(bs, e, depth)
    decreases depth, e
  {
    match e
    case Lit(_) =>
    case Var(name) =>
      var i := Find(bs, name);
      if i < |bs| { DeeperSame(bs, bs[i].bound, depth - 1, more - 1); }
    case Add(lhs, rhs) => DeeperSame(bs, lhs, depth, more); DeeperSame(bs, rhs, depth, more);
    case Mul(lhs, rhs) => DeeperSame(bs, lhs, depth, more); DeeperSame(bs, rhs, depth, more);
  }

  lemma ResolutionAt(bs: Bindings, e: ShapeExpr, depth: nat)
    requires ResolveTo(bs, e, depth).Some?
    ensures Ends(bs, e) && Resolution(bs, e) == ResolveTo(bs, e, depth).value
  {
    var other: nat :| ResolveTo(bs, e, other).Some? && Resolution(bs, e) == ResolveTo(bs, e, other).value;
    if other < depth { DeeperSame(bs, e, other, depth); } else { DeeperSame(bs, e, depth, other); }
  }

  /** On acyclic bindings every resolution ends, at the resolved form. */
  lemma AcyclicEnds(bs: Bindings, e: ShapeExpr)
    requires Acyclic(bs)
    ensures Ends(bs, e) && Resolution(bs, e) == Resolve(bs, e)
  {
    ResolveEnds(bs, e, |bs|);
    ResolutionAt(bs, e, |bs|);
  }

  /** The recursion of the original, on what it ends on. */
  function ResolveEnding(bs: Bindings, e: ShapeExpr, ghost depth: nat): (r: ShapeExpr)
    requires ResolveTo(bs, e, depth).Some?
    ensures r == ResolveTo(bs, e, depth).value
    decreases depth, e
  {
    match e
    case Lit(_) => e
    case Var(name) =>
      var i := Find(bs, name);
      if i == |bs| then e else ResolveEnding(bs, bs[i].bound, depth - 1)
    case Add(lhs, rhs) => FoldAdd(ResolveEnding(bs, lhs, depth), ResolveEnding(bs, rhs, depth))
    case Mul(lhs, rhs) => FoldMul(ResolveEnding(bs, lhs, depth), ResolveEnding(bs, rhs, depth))
  }

  lemma {:induction false} MentionDiverges(bs: Bindings, e: ShapeExpr, x: string, depth: nat)
    requires x in Vars(e) && ResolveTo(bs, Var(x), depth).None?
    ensures ResolveTo(bs, e, depth).None?
    decreases e
  {
    match e
    case Add(lhs, rhs) => if x in Vars(lhs) { MentionDiverges(bs, lhs, x, depth); } else { MentionDiverges(bs, rhs, x, depth); }
    case Mul(lhs, rhs) => if x in Vars(lhs) { MentionDiverges(bs, lhs, x, depth); } else { MentionDiverges(bs, rhs, x, depth); }
    case _ =>
  }

  lemma {:induction false} SelfMentionDiverges(bs: Bindings, x: string, depth: nat)
    requires Find(bs, x) < |bs| && x in Vars(bs[Find(bs, x)].bound)
    ensures ResolveTo(bs, Var(x), depth).None?
    decreases depth
  {
    if depth > 0 {
      SelfMentionDiverges(bs, x, depth - 1);
      MentionDiverges(bs, bs[Find(bs, x)].bound, x, depth - 1);
    }
  }

  /** Where the occurs check would have fired, resolving the bound variable never ends. */
  lemma OccursDiverges(bs: Bindings, a: ShapeExpr, b: ShapeExpr, depth: nat)
    requires Acyclic(bs) && Occurs(bs, a, b)
    ensures var later := Unify(bs, a, b).1;
            |later| == |bs| + 1 && ResolveTo(later, Var(later[|bs|].name), depth).None?
  {
    var later := Unify(bs, a, b).1;
    var added := later[|bs|];
    ResolveResolves(bs, a);
    ResolveResolves(bs, b);
    ResolvedStays(bs, Resolve(bs, a));
    ResolvedStays(bs, Resolve(bs, b));
    assert Find(later, added.name) == |bs| by {
      assert forall j | 0 <= j < |bs| :: later[j] == bs[j] && bs[j].name != added.name;
    }
    SelfMentionDiverges(later, added.name, depth);
  }

  // ---- whole shapes ----

  /** No step of the element-wise unification meets a variable inside its own binding. */
  predicate OccursFree(bs: Bindings, as0: seq<ShapeExpr>, bs0: seq<ShapeExpr>)
    requires Acyclic(bs) && |as0| == |bs0|
    decreases |as0|
  {
    as0 == [] ||
    (!Occurs(bs, as0[0], bs0[0])
     && (var (r, later) := Unify(bs, as0[0], bs0[0]);
         UnifyAcyclic(bs, as0[0], bs0[0]);
         r.Err? || OccursFree(later, as0[1..], bs0[1..])))
  }

  /** Every resolution of the element-wise unification ends. */
  ghost predicate StepsEnd(bs: Bindings, as0: seq<ShapeExpr>, bs0: seq<ShapeExpr>)
    requires |as0| == |bs0|
    decreases |as0|
  {
    as0 == [] ||
    (Ends(bs, as0[0]) && Ends(bs, bs0[0])
     && (var (r, later) := UnifyResolved(bs, Resolution(bs, as0[0]), Resolution(bs, bs0[0]));
         r.Err? || StepsEnd(later, as0[1..], bs0[1..])))
  }

  /** It does on acyclic bindings, when no variable is bound to what holds it. */
  lemma {:induction false} OccursFreeEnds(bs: Bindings, as0: seq<ShapeExpr>, bs0: seq<ShapeExpr>)
    requires Acyclic(bs) && |as0| == |bs0| && OccursFree(bs, as0, bs0)
    ensures StepsEnd(bs, as0, bs0)
    decreases |as0|
  {
    if as0 != [] {
      AcyclicEnds(bs, as0[0]);
      AcyclicEnds(bs, bs0[0]);
      UnifyAcyclic(bs, as0[0], bs0[0]);
      var (r, later) := Unify(bs, as0[0], bs0[0]);
      if r.Ok? { OccursFreeEnds(later, as0[1..], bs0[1..]); }
    }
  }

  /** The solutions of `later` are those of `bs` that equate the first `i` dimensions. */
  ghost predicate Equated(bs: Bindings, later: Bindings, as0: seq<ShapeExpr>, bs0: seq<ShapeExpr>, i: nat)
    requires i <= |as0| == |bs0|
  {
    forall v: Valuation :: Solves(v, later) <==> Solves(v, bs) && Equates(v, as0[..i], bs0[..i])
  }

  predicate Equates(v: Valuation, as0: seq<ShapeExpr>, bs0: seq<ShapeExpr>)
    requires |as0| == |bs0|
  {
    forall i | 0 <= i < |as0| :: Value(as0[i], v) == Value(bs0[i], v)
  }

  class ShapeSolver {
    var bindings: Bindings

    constructor ()
      ensures bindings == [] && Acyclic(bindings)
    {
      bindings := [];
    }

    method UnifyOne(a: ShapeExpr, b: ShapeExpr) returns (r: Result)
      requires Ends(bindings, a) && Ends(bindings, b)
      modifies this
      ensures (r, bindings) == UnifyResolved(old(bindings), Resolution(old(bindings), a), Resolution(old(bindings), b))
    {
      ghost var da: nat :| ResolveTo(bindings, a, da).Some?;
      ghost var db: nat :| ResolveTo(bindings, b, db).Some?;
      ResolutionAt(bindings, a, da);
      ResolutionAt(bindings, b, db);
      var x, y := ResolveEnding(bindings, a, da), ResolveEnding(bindings, b, db);
      if x.Lit? && y.Lit? {
        return if x.value == y.value then Ok else Err(DimMismatch(x, y));
      }
      if x.Var? {
        bindings := bindings + [Binding(x.name, y)];
        return Ok;
      }
      if y.Var? {
        bindings := bindings + [Binding(y.name, x)];
        return Ok;
      }
      r := if x == y then Ok else Err(DimMismatch(x, y));
    }

    /** Element by element, stopping at the first that is refused; what was bound before stays bound. It
        returns on every input whose resolutions end. */
    method UnifyShapes(as0: seq<ShapeExpr>, bs0: seq<ShapeExpr>) returns (r: Result)
      requires |as0| == |bs0| ==> StepsEnd(bindings, as0, bs0)
      modifies this
      ensures old(bindings) <= bindings
      ensures |as0| != |bs0| ==> r == Err(RankMismatch(|as0|, |bs0|)) && bindings == old(bindings)
      ensures |as0| == |bs0| && r.Ok? ==>
                forall v: Valuation :: Solves(v, bindings) <==> Solves(v, old(bindings)) && Equates(v, as0, bs0)
      ensures |as0| == |bs0| && r.Err? ==>
                exists i: nat | i < |as0| ::
                  && Equated(old(bindings), bindings, as0, bs0, i) && Ends(bindings, as0[i]) && Ends(bindings, bs0[i])
                  && r == UnifyResolved(bindings, Resolution(bindings, as0[i]), Resolution(bindings, bs0[i])).0
      ensures Acyclic(old(bindings)) && |as0| == |bs0| && OccursFree(old(bindings), as0, bs0) ==> Acyclic(bindings)
    {
      if |as0| != |bs0| {
        return Err(RankMismatch(|as0|, |bs0|));
      }
      ghost var start := bindings;
      for i := 0 to |as0|
        invariant start <= bindings && StepsEnd(bindings, as0[i..], bs0[i..])
        invariant Equated(start, bindings, as0, bs0, i)
        invariant Acyclic(start) && OccursFree(start, as0, bs0) ==> Acyclic(bindings) && OccursFree(bindings, as0[i..], bs0[i..])
      {
        ghost var before := bindings;
        var x, y := as0[i], bs0[i];
        assert as0[i..][0] == x && bs0[i..][0] == y && as0[i..][1..] == as0[i + 1..] && bs0[i..][1..] == bs0[i + 1..];
        r := UnifyOne(x, y);
        StepAcyclic(before, x, y);
        if r.Err? {
          return;
        }
        StepEquates(start, before, as0, bs0, i);
      }
      assert as0[..|as0|] == as0 && bs0[..|bs0|] == bs0;
      r := Ok;
    }
  }

  lemma StepAcyclic(bs: Bindings, a: ShapeExpr, b: ShapeExpr)
    requires Ends(bs, a) && Ends(bs, b)
    ensures Acyclic(bs) ==>
              && UnifyResolved(bs, Resolution(bs, a), Resolution(bs, b)) == Unify(bs, a, b)
              && (Acyclic(Unify(bs, a, b).1) <==> !Occurs(bs, a, b))
  {
    if Acyclic(bs) {
      AcyclicEnds(bs, a);
      AcyclicEnds(bs, b);
      UnifyAcyclic(bs, a, b);
    }
  }

  lemma StepEquates(start: Bindings, before: Bindings, as0: seq<ShapeExpr>, bs0: seq<ShapeExpr>, i: nat)
    requires |as0| == |bs0| && i < |as0| && Equated(start, before, as0, bs0, i)
    requires Ends(before, as0[i]) && Ends(before, bs0[i])
    requires UnifyResolved(before, Resolution(before, as0[i]), Resolution(before, bs0[i])).0.Ok?
    ensures Equated(start, UnifyResolved(before, Resolution(before, as0[i]), Resolution(before, bs0[i])).1, as0, bs0, i + 1)
  {
    var later := UnifyResolved(before, Resolution(before, as0[i]), Resolution(before, bs0[i])).1;
    forall v: Valuation
      ensures Solves(v, later) <==> Solves(v, start) && Equates(v, as0[..i + 1], bs0[..i + 1])
    {
      UnifySolutions(before, as0[i], bs0[i], v);
      OneMore(v, as0, bs0, i);
    }
  }

  lemma OneMore(v: Valuation, as0: seq<ShapeExpr>, bs0: seq<ShapeExpr>, i: nat)
    requires |as0| == |bs0| && i < |as0|
    ensures Equates(v, as0[..i + 1], bs0[..i + 1]) <==> Equates(v, as0[..i], bs0[..i]) && Value(as0[i], v) == Value(bs0[i], v)
  {
    assert forall k | 0 <= k < i :: as0[..i + 1][k] == as0[..i][k] && bs0[..i + 1][k] == bs0[..i][k];
    assert as0[..i + 1][i] == as0[i] && bs0[..i + 1][i] == bs0[i];
  }
}
