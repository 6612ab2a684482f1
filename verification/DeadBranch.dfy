/** Dead-branch elimination (crates/lex-ast/src/dead_branch.rs): a match on a literal becomes the first
    arm whose pattern is that literal or a wildcard. */
module DeadBranch {
  import opened Options
  import opened Ast
  import opened Meaning
  import opened EvalLaws
  import opened AstKids

  predicate PatternMatchesLiteral(p: Pattern, lit: CLit) {
    match p
    case PLiteral(value) => value == lit
    case PWild => true
    case _ => false
  }

  /** The first arm in order that is sure to match. */
  function Select(arms: seq<Arm>, lit: CLit): (r: Option<nat>)
    ensures r.Some? ==> r.value < |arms| && PatternMatchesLiteral(arms[r.value].pattern, lit)
                        && forall j | 0 <= j < r.value :: !PatternMatchesLiteral(arms[j].pattern, lit)
    ensures r.None? ==> forall j | 0 <= j < |arms| :: !PatternMatchesLiteral(arms[j].pattern, lit)
  {
    if arms == [] then None
    else if PatternMatchesLiteral(arms[0].pattern, lit) then Some(0)
    else
      var later := Select(arms[1..], lit);
      assert forall j | 1 <= j < |arms| :: arms[j] == arms[1..][j - 1];
      if later.Some? then Some(later.value + 1) else None
  }

  /** The rewrite at one node, once its children are folded. */
  function FoldHere(e: CExpr): CExpr {
    if e.Match? && e.scrutinee.Literal? then
      var i := Select(e.arms, e.scrutinee.value);
      if i.Some? then e.arms[i.value].body else e
    else e
  }

  function FoldedKids(e: CExpr): (ks: seq<CExpr>)
    ensures |ks| == |Kids(e)|
    decreases e, 0
  {
    seq(|Kids(e)|, i requires 0 <= i < |Kids(e)| => Fold(Kids(e)[i]))
  }

  /** Children first, then the node. */
  function Fold(e: CExpr): CExpr
    decreases e, 1
  {
    FoldHere(WithKids(e, FoldedKids(e)))
  }

  // ---- one pass is enough ----

  predicate Fires(e: CExpr) {
    e.Match? && e.scrutinee.Literal? && Select(e.arms, e.scrutinee.value).Some?
  }

  /** No match anywhere is left to fold. */
  predicate Folded(e: CExpr) {
    !Fires(e) && forall i | 0 <= i < |Kids(e)| :: Folded(Kids(e)[i])
  }

  lemma {:induction false} FoldLeavesNothing(e: CExpr)
    ensures Folded(Fold(e))
  {
    var ks := FoldedKids(e);
    forall i | 0 <= i < |ks| ensures Folded(ks[i]) {
      FoldLeavesNothing(Kids(e)[i]);
    }
    var e1 := WithKids(e, ks);
    KidsOfWith(e, ks);
    if Fires(e1) {
      var i := Select(e1.arms, e1.scrutinee.value).value;
      assert Kids(e1)[i + 1] == e1.arms[i].body;
    }
  }

  lemma {:induction false} NothingToFold(e: CExpr)
    requires Folded(e)
    ensures Fold(e) == e
  {
    forall i | 0 <= i < |Kids(e)| ensures FoldedKids(e)[i] == Kids(e)[i] {
      NothingToFold(Kids(e)[i]);
    }
    assert FoldedKids(e) == Kids(e);
    WithSameKids(e);
  }

  /** Folding is idempotent: one traversal reaches every fold. */
  lemma FoldIdempotent(e: CExpr)
    ensures Fold(Fold(e)) == Fold(e)
  {
    FoldLeavesNothing(e);
    NothingToFold(Fold(e));
  }

  // ---- nothing new ----

  /** Number of call nodes. */
  function CallCount(e: CExpr): nat
    decreases e, 1
  {
    (if e.Call? then 1 else 0) + CallsBelow(e, |Kids(e)|)
  }

  function CallsBelow(e: CExpr, n: nat): nat
    requires n <= |Kids(e)|
    decreases e, 0, n
  {
    if n == 0 then 0 else CallsBelow(e, n - 1) + CallCount(Kids(e)[n - 1])
  }

  lemma {:induction false} CallsBelowGrow(e: CExpr, i: nat, n: nat)
    requires i < n <= |Kids(e)|
    ensures CallCount(Kids(e)[i]) <= CallsBelow(e, n)
    decreases n
  {
    if i < n - 1 { CallsBelowGrow(e, i, n - 1); }
  }

  lemma {:induction false} CallsBelowMonotone(e: CExpr, d: CExpr, n: nat)
    requires n <= |Kids(e)| == |Kids(d)|
    requires forall i | 0 <= i < n :: CallCount(Kids(d)[i]) <= CallCount(Kids(e)[i])
    ensures CallsBelow(d, n) <= CallsBelow(e, n)
    decreases n
  {
    hide Kids, CallCount;
    if n > 0 { CallsBelowMonotone(e, d, n - 1); }
  }

  /** Folding adds no call. */
  lemma {:induction false} FoldAddsNoCall(e: CExpr)
    ensures CallCount(Fold(e)) <= CallCount(e)
  {
    var ks := FoldedKids(e);
    var e1 := WithKids(e, ks);
    KidsOfWith(e, ks);
    assert e1.Call? == e.Call?;
    FiringBody(e1);
    hide WithKids, Kids, FoldHere, Fires;
    forall i | 0 <= i < |ks| ensures CallCount(Kids(e1)[i]) <= CallCount(Kids(e)[i]) {
      FoldAddsNoCall(Kids(e)[i]);
    }
    CallsBelowMonotone(e, e1, |ks|);
    if Fires(e1) {
      var i :| 0 <= i < |ks| && FoldHere(e1) == Kids(e1)[i] && KidBinds(e1, i) == {};
      CallsBelowGrow(e1, i, |ks|);
    }
  }

  /** Folding a node leaves it, or leaves one of its children, under no binder. */
  lemma FiringBody(e: CExpr)
    ensures if Fires(e) then exists i | 0 <= i < |Kids(e)| :: FoldHere(e) == Kids(e)[i] && KidBinds(e, i) == {}
            else FoldHere(e) == e
  {
    if Fires(e) {
      var i := Select(e.arms, e.scrutinee.value).value;
      assert Kids(e)[i + 1] == e.arms[i].body && KidBinds(e, i + 1) == {};
    }
  }

  /** Folding frees no variable: an arm that is folded to binds nothing. */
  lemma {:induction false} FoldFreesNothing(e: CExpr)
    ensures FreeVars(Fold(e)) <= FreeVars(e)
  {
    hide *;
    if e.Var? {
      VarFolds(e);
    } else {
      var ks := FoldedKids(e);
      forall i | 0 <= i < |ks| ensures FreeVars(ks[i]) <= FreeVars(Kids(e)[i]) {
        FoldedKid(e, i);
        FoldFreesNothing(Kids(e)[i]);
      }
      forall x | x in FreeVars(Fold(e)) ensures x in FreeVars(e) {
        FreesNothingHere(e, x);
      }
    }
  }

  lemma FoldedKid(e: CExpr, i: nat)
    requires i < |Kids(e)|
    ensures FoldedKids(e)[i] == Fold(Kids(e)[i])
  {
    hide Fold, Kids;
  }

  lemma VarFolds(e: CExpr)
    requires e.Var?
    ensures Fold(e) == e
  {
  }

  lemma FreesNothingHere(e: CExpr, x: string)
    requires !e.Var? && x in FreeVars(Fold(e))
    requires forall i | 0 <= i < |Kids(e)| :: FreeVars(FoldedKids(e)[i]) <= FreeVars(Kids(e)[i])
    ensures x in FreeVars(e)
  {
    hide *;
    var ks := FoldedKids(e);
    var e1 := WithKids(e, ks);
    FoldIs(e);
    KidsOfWith(e, ks);
    FiringBody(e1);
    var k: nat;
    if Fires(e1) {
      k :| 0 <= k < |ks| && FoldHere(e1) == ks[k] && KidBinds(e1, k) == {};
    } else {
      k := FreeInPart(e1, x);
    }
    MakeFree(e, k, x);
  }

  lemma FoldIs(e: CExpr)
    ensures Fold(e) == FoldHere(WithKids(e, FoldedKids(e)))
    ensures WithKids(e, FoldedKids(e)).Var? == e.Var?
  {
    hide FoldedKids, FoldHere;
  }

  lemma FreeInPart(e: CExpr, x: string) returns (k: nat)
    requires !e.Var? && x in FreeVars(e)
    ensures k < |Kids(e)| && x in FreeVars(Kids(e)[k]) && x !in KidBinds(e, k)
  {
    hide FreeVars, Kids, KidBinds;
    FreeVarsBelow(e, x);
    k :| 0 <= k < |Kids(e)| && x in FreeVars(Kids(e)[k]) && x !in KidBinds(e, k);
  }

  lemma MakeFree(e: CExpr, k: nat, x: string)
    requires !e.Var? && k < |Kids(e)| && x in FreeVars(Kids(e)[k]) && x !in KidBinds(e, k)
    ensures x in FreeVars(e)
  {
    hide FreeVars, Kids, KidBinds;
    assert FreeBelow(e, x);
    FreeVarsBelow(e, x);
  }

  // ---- meaning ----

  /** Literal patterns compare structurally, floats aside. */
  ghost predicate Structural<W>(I: Interp<W>) {
    forall a: CLit, b: CLit | !b.Float? :: I.litEq(a, b) <==> a == b
  }

  predicate NoVarBefore(arms: seq<Arm>, n: nat)
    requires n <= |arms|
  {
    forall j | 0 <= j < n :: !arms[j].pattern.PVar?
  }

  /** The folded arm is the one evaluation picks exactly when no variable pattern comes before it. */
  lemma {:induction false} SelectIsPick<W>(I: Interp<W>, arms: seq<Arm>, lit: CLit)
    requires Structural(I) && !lit.Float? && Select(arms, lit).Some?
    ensures var i := Select(arms, lit).value;
            NoVarBefore(arms, i) <==> Pick(I, arms, VLit(lit)) == Some((i, map[]))
    decreases |arms|
  {
    var i := Select(arms, lit).value;
    if i > 0 {
      assert Select(arms[1..], lit) == Some(i - 1);
      SelectIsPick(I, arms[1..], lit);
      if NoVarBefore(arms, i) {
        assert NoVarBefore(arms[1..], i - 1);
      } else if !arms[0].pattern.PVar? {
        var j :| 0 <= j < i && arms[j].pattern.PVar?;
        assert arms[1..][j - 1] == arms[j];
      }
    }
  }

  /** The folded arm is the one evaluation picks however floats compare: no variable comes before it, and for a float
      no literal either, and it is a wildcard. */
  predicate Sure(arms: seq<Arm>, lit: CLit)
    requires Select(arms, lit).Some?
  {
    var i := Select(arms, lit).value;
    && NoVarBefore(arms, i)
    && (lit.Float? ==> arms[i].pattern.PWild? && forall j | 0 <= j < i :: !arms[j].pattern.PLiteral?)
  }

  lemma {:induction false} SureIsPick<W>(I: Interp<W>, arms: seq<Arm>, lit: CLit)
    requires Structural(I) && Select(arms, lit).Some? && Sure(arms, lit)
    ensures Pick(I, arms, VLit(lit)) == Some((Select(arms, lit).value, map[]))
    decreases |arms|
  {
    var i := Select(arms, lit).value;
    if i > 0 {
      assert !arms[0].pattern.PVar?;
      assert Select(arms[1..], lit) == Some(i - 1);
      forall j | 0 <= j < i - 1 ensures arms[1..][j] == arms[j + 1] {}
      assert arms[1..][i - 1] == arms[i];
      SureIsPick(I, arms[1..], lit);
    }
  }

  /** Wherever a match is folded the arm is sure, among the arms that are left. */
  predicate FoldSafe(e: CExpr) {
    if Fires(e) then
      Sure(e.arms, e.scrutinee.value) && FoldSafe(e.arms[Select(e.arms, e.scrutinee.value).value].body)
    else
      && (forall i | 0 <= i < |Kids(e)| :: FoldSafe(Kids(e)[i]))
      && var e1 := WithKids(e, FoldedKids(e)); Fires(e1) ==> Sure(e1.arms, e1.scrutinee.value)
  }

  /** Folding looks at patterns, which it does not change. */
  lemma {:induction false} SelectByPatterns(arms: seq<Arm>, brms: seq<Arm>, lit: CLit)
    requires |arms| == |brms| && forall i | 0 <= i < |arms| :: arms[i].pattern == brms[i].pattern
    ensures Select(arms, lit) == Select(brms, lit)
    decreases |arms|
  {
    if arms != [] { SelectByPatterns(arms[1..], brms[1..], lit); }
  }

  /** What becomes of a match that is folded is what becomes of its arm. */
  lemma FoldOfFired(e: CExpr)
    requires Fires(e)
    ensures Fold(e) == Fold(e.arms[Select(e.arms, e.scrutinee.value).value].body)
  {
    var ks := FoldedKids(e);
    var e1 := WithKids(e, ks);
    assert Kids(e)[0] == e.scrutinee && Kids(e.scrutinee) == [];
    NothingToFold(e.scrutinee);
    assert ks[0] == e.scrutinee;
    SelectByPatterns(e.arms, e1.arms, e.scrutinee.value);
    var i := Select(e.arms, e.scrutinee.value).value;
    assert Kids(e)[i + 1] == e.arms[i].body;
  }

  lemma FoldHereSame<W(!new)>(I: Interp<W>, e: CExpr, env: Env)
    requires Structural(I)
    requires Fires(e) ==> Sure(e.arms, e.scrutinee.value)
    ensures Same(true, I, e, env, FoldHere(e), env)
  {
    if Fires(e) {
      var lit := e.scrutinee.value;
      SureIsPick(I, e.arms, lit);
      var i := Select(e.arms, lit).value;
      assert env + map[] == env;
      forall w: W ensures Eval(I, e, env, w) == Eval(I, e.arms[i].body, env, w) {
        assert Eval(I, e.scrutinee, env, w) == (Val(VLit(lit)), w);
      }
    }
  }

  /** Folding preserves meaning wherever it is safe. */
  lemma {:induction false} FoldMeaning<W(!new)>(I: Interp<W>, e: CExpr, env: Env)
    requires Extensional(I) && Structural(I) && FoldSafe(e)
    ensures Same(true, I, e, env, Fold(e), env)
    decreases e
  {
    hide Same, Extensional, Structural, WithKids, Kids, KidBinds, NoVarBefore, Sure;
    if Fires(e) {
      var body := e.arms[Select(e.arms, e.scrutinee.value).value].body;
      FoldHereSame(I, e, env);
      FoldMeaning(I, body, env);
      FoldOfFired(e);
      hide Fold;
      SameChain(I, e, env, body, env, Fold(e), env);
      return;
    }
    hide FoldHere;
    var ks := FoldedKids(e);
    forall i | 0 <= i < |ks| ensures UnderSame(true, I, KidBinds(e, i), Kids(e)[i], env, ks[i], env) {
      forall b: Env | b.Keys == KidBinds(e, i) ensures Same(true, I, Kids(e)[i], env + b, ks[i], env + b) {
        FoldMeaning(I, Kids(e)[i], env + b);
      }
    }
    KidsCongruence(I, e, ks, env);
    var e1 := WithKids(e, ks);
    FoldHereSame(I, e1, env);
    SameChain(I, e, env, e1, env, Fold(e), env);
  }

  /** The condition is needed: `match 1 { x => 2, _ => 3 }` is 2 and folds to 3. */
  lemma VariableArmLost<W>(I: Interp<W>, env: Env, w: W)
    ensures var e := Match(Literal(Int(1)), [Arm(PVar("x"), Literal(Int(2))), Arm(PWild, Literal(Int(3)))]);
            Eval(I, e, env, w) == (Val(VLit(Int(2))), w) && Fold(e) == Literal(Int(3))
  {
    var arms := [Arm(PVar("x"), Literal(Int(2))), Arm(PWild, Literal(Int(3)))];
    var e := Match(Literal(Int(1)), arms);
    assert Pick(I, arms, VLit(Int(1))) == Some((0, map["x" := VLit(Int(1))]));
    assert Kids(e) == [Literal(Int(1)), Literal(Int(2)), Literal(Int(3))];
    forall i | 0 <= i < 3 ensures FoldedKids(e)[i] == Kids(e)[i] {
      NothingToFold(Kids(e)[i]);
    }
    assert FoldedKids(e) == Kids(e);
    WithSameKids(e);
    assert Select(arms, Int(1)) == Some(1) by {
      assert arms[1..] == [Arm(PWild, Literal(Int(3)))];
    }
  }
}
