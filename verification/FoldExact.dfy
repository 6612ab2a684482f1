/** For expressions that call and build, whose matches are on literals and have arms told apart by what they build, folding
    keeps the meaning exactly when every arm left is sure (crates/lex-ast/src/dead_branch.rs:49-135). */
module FoldExact {
  import opened Options
  import opened Ast
  import opened Meaning
  import opened EvalLaws
  import opened AstKids
  import opened DeadBranch
  import opened NodePaths
  import opened TransformExact

  /** Calls answer with what they are given; no float is equal to itself, and every two others are equal. */
  function Telling(): Interp<nat> {
    Interp(map[], (op, a, b) => None, (op, a) => None, (a: CLit, b: CLit) => if b.Float? then a != b else a == b,
           (f, args, w) => (Some(VList([f] + args)), w), f => 0)
  }

  /** Literals and constructors, told apart by the literal or the name. */
  predicate HeadsApart(a: CExpr, b: CExpr) {
    match (a, b)
    case (Literal(x), Literal(y)) => x != y
    case (Constructor(n, _), Constructor(m, _)) => n != m
    case (Literal(_), Constructor(_, _)) => true
    case (Constructor(_, _), Literal(_)) => true
    case _ => false
  }

  predicate Listed(e: CExpr) {
    e.Call? || e.Constructor? || e.TupleLit? || e.ListLit?
  }

  predicate Tagged(e: CExpr) {
    match e
    case Literal(_) | Var(_) => true
    case Call(callee, args) => Tagged(callee) && forall i | 0 <= i < |args| :: Tagged(args[i])
    case Constructor(_, args) => forall i | 0 <= i < |args| :: Tagged(args[i])
    case TupleLit(items) => forall i | 0 <= i < |items| :: Tagged(items[i])
    case ListLit(items) => forall i | 0 <= i < |items| :: Tagged(items[i])
    case Match(_, arms) =>
      && Fires(e) && (forall i | 0 <= i < |arms| :: Tagged(arms[i].body) && (arms[i].body.Literal? || arms[i].body.Constructor?))
      && forall i, j | 0 <= i < j < |arms| :: HeadsApart(arms[i].body, arms[j].body)
    case _ => false
  }

  lemma TaggedKids(e: CExpr)
    requires Tagged(e)
    ensures e.Literal? || e.Var? || e.Match? || Listed(e)
    ensures Listed(e) ==> !Fires(e) && forall i | 0 <= i < |Kids(e)| :: Tagged(Kids(e)[i])
    ensures e.Match? ==> Fires(e)
  {
    hide HeadsApart;
  }

  function Chosen(e: CExpr): CExpr
    requires Fires(e)
  {
    e.arms[Select(e.arms, e.scrutinee.value).value].body
  }

  predicate ChosenSure(e: CExpr)
    requires Fires(e)
  {
    Sure(e.arms, e.scrutinee.value)
  }

  lemma ChosenTagged(e: CExpr)
    requires Tagged(e) && e.Match?
    ensures Fires(e) && Tagged(Chosen(e)) && Chosen(e) < e
    ensures FreeVars(Chosen(e)) <= FreeVars(e)
    ensures FoldSafe(e) <==> ChosenSure(e) && FoldSafe(Chosen(e))
    ensures Chosen(e).Literal? || Chosen(e).Constructor?
  {
    hide HeadsApart, Sure;
    var i := Select(e.arms, e.scrutinee.value).value;
    assert PatternNames(e.arms[i].pattern) == {};
  }

  // ---- folded lists ----

  lemma FoldListed(e: CExpr)
    requires Listed(e)
    ensures Listed(Fold(e)) && Kids(Fold(e)) == FoldedKids(e) && SameNode(e, Fold(e))
    ensures FoldSafe(e) <==> forall i | 0 <= i < |Kids(e)| :: FoldSafe(Kids(e)[i])
  {
    KidsOfWith(e, FoldedKids(e));
    hide Fold;
    NodeOf(e, FoldedKids(e));
    FoldIs(e);
  }

  lemma FoldIs(e: CExpr)
    requires Listed(e) && Listed(WithKids(e, FoldedKids(e)))
    ensures Fold(e) == WithKids(e, FoldedKids(e)) && !Fires(e)
  {
    hide FoldedKids, WithKids;
  }

  predicate SameNode(e: CExpr, c: CExpr) {
    match (e, c)
    case (Call(_, _), Call(_, _)) => true
    case (Constructor(n, _), Constructor(m, _)) => n == m
    case (TupleLit(_), TupleLit(_)) => true
    case (ListLit(_), ListLit(_)) => true
    case _ => false
  }

  lemma NodeOf(e: CExpr, ks: seq<CExpr>)
    requires Listed(e) && |ks| == |Kids(e)|
    ensures Listed(WithKids(e, ks)) && SameNode(e, WithKids(e, ks))
  {
  }

  function Whole(e: CExpr, vs: seq<Value>): Value {
    match e
    case Constructor(name, _) => VCon(name, vs)
    case TupleLit(_) => VTup(vs)
    case _ => VList(vs)
  }

  lemma ByKids(e: CExpr, env: Env, w: nat)
    requires Listed(e)
    ensures var r := EvalAll(Telling(), Kids(e), env, w).0;
            Eval(Telling(), e, env, w).0 == if r.Stop? then r.o else Val(Whole(e, r.vs))
  {
    if e.Call? {
      var (f, w1) := Eval(Telling(), e.callee, env, w);
      assert ([e.callee] + e.args)[1..] == e.args;
    }
  }

  // ---- folded expressions have values ----

  ghost predicate Closed(e: CExpr, env: Env) {
    FreeVars(e) <= env.Keys
  }

  ghost predicate HasValue(e: CExpr, env: Env) {
    forall w: nat :: Eval(Telling(), e, env, w).0.Val?
  }

  lemma {:induction false} AllHaveValues(es: seq<CExpr>, env: Env, w: nat)
    requires forall i | 0 <= i < |es| :: HasValue(es[i], env)
    ensures EvalAll(Telling(), es, env, w).0.Vals?
    decreases |es|
  {
    hide Eval;
    if es != [] {
      assert HasValue(es[0], env);
      AllHaveValues(es[1..], env, Eval(Telling(), es[0], env, w).1);
    }
  }

  lemma ClosedKids(e: CExpr, env: Env)
    requires Listed(e) && Closed(e, env)
    ensures forall i | 0 <= i < |Kids(e)| :: Closed(Kids(e)[i], env)
  {
    assert forall i | 0 <= i < |Kids(e)| :: KidBinds(e, i) == {};
    hide FreeVars, KidBinds, Kids;
    forall i, z | 0 <= i < |Kids(e)| && z in FreeVars(Kids(e)[i]) ensures z in env {
      FreeVarsBelow(e, z);
    }
  }

  lemma {:induction false} FoldedHasValue(e: CExpr, env: Env)
    requires Tagged(e) && Closed(e, env)
    ensures HasValue(Fold(e), env)
    decreases e
  {
    hide *;
    TaggedKids(e);
    if Listed(e) {
      FoldListed(e);
      ClosedKids(e, env);
      forall i | 0 <= i < |Kids(e)| ensures HasValue(FoldedKids(e)[i], env) {
        FoldedHasValue(Kids(e)[i], env);
        FoldedKidIs(e, i);
      }
      ListHasValue(Fold(e), env);
    } else if e.Match? {
      ChosenTagged(e);
      ClosedChosen(e, env);
      FoldedHasValue(Chosen(e), env);
      FoldsToChosen(e);
    } else {
      LeafHasValue(e, env);
    }
  }

  lemma FoldedKidIs(e: CExpr, i: nat)
    requires i < |Kids(e)|
    ensures FoldedKids(e)[i] == Fold(Kids(e)[i])
  {
  }

  lemma ClosedChosen(e: CExpr, env: Env)
    requires Fires(e) && FreeVars(Chosen(e)) <= FreeVars(e) && Closed(e, env)
    ensures Closed(Chosen(e), env)
  {
  }

  lemma FoldsToChosen(e: CExpr)
    requires Fires(e)
    ensures Fold(e) == Fold(Chosen(e))
  {
    FoldOfFired(e);
    hide Fold;
  }

  lemma ListHasValue(e: CExpr, env: Env)
    requires Listed(e) && forall i | 0 <= i < |Kids(e)| :: HasValue(Kids(e)[i], env)
    ensures HasValue(e, env)
  {
    hide Eval, EvalAll, Telling, Kids;
    forall w: nat ensures Eval(Telling(), e, env, w).0.Val? {
      AllHaveValues(Kids(e), env, w);
      ByKids(e, env, w);
    }
  }

  lemma LeafHasValue(e: CExpr, env: Env)
    requires (e.Literal? || e.Var?) && Closed(e, env)
    ensures HasValue(Fold(e), env) && Fold(e) == e && FoldSafe(e)
  {
    assert FoldedKids(e) == [] && WithKids(e, []) == e;
  }

  // ---- what is not safe is told apart ----

  /** Whatever the worlds. */
  ghost predicate Differ(e: CExpr, c: CExpr, env: Env) {
    forall w: nat, w': nat :: Eval(Telling(), e, env, w).0 != Eval(Telling(), c, env, w').0
  }

  lemma {:induction false} AllDiffer(es: seq<CExpr>, cs: seq<CExpr>, env: Env, i: nat, w: nat, w': nat)
    requires |es| == |cs| && i < |es| && Differ(es[i], cs[i], env)
    requires forall k | 0 <= k < |cs| :: HasValue(cs[k], env)
    ensures EvalAll(Telling(), cs, env, w').0.Vals?
    ensures EvalAll(Telling(), es, env, w).0 != EvalAll(Telling(), cs, env, w').0
    decreases |es|
  {
    hide Eval, Telling;
    AllHaveValues(cs, env, w');
    var (r, w1) := Eval(Telling(), es[0], env, w);
    var (s, w2) := Eval(Telling(), cs[0], env, w');
    assert HasValue(cs[0], env);
    AllHaveValues(cs[1..], env, w2);
    if i == 0 {
      var a, b := EvalAll(Telling(), es[1..], env, w1).0, EvalAll(Telling(), cs[1..], env, w2).0;
      if r.Val? && a.Vals? { assert ([r.v] + a.vs)[0] != ([s.v] + b.vs)[0]; }
    } else if r.Val? {
      AllDiffer(es[1..], cs[1..], env, i - 1, w1, w2);
      var a, b := EvalAll(Telling(), es[1..], env, w1).0, EvalAll(Telling(), cs[1..], env, w2).0;
      if a.Vals? { assert ([r.v] + a.vs)[1..] == a.vs && ([s.v] + b.vs)[1..] == b.vs; }
    }
  }

  lemma ListDiffers(e: CExpr, c: CExpr, env: Env, i: nat)
    requires Listed(e) && SameNode(e, c) && |Kids(e)| == |Kids(c)| && i < |Kids(e)| && Differ(Kids(e)[i], Kids(c)[i], env)
    requires forall k | 0 <= k < |Kids(c)| :: HasValue(Kids(c)[k], env)
    ensures Differ(e, c, env)
  {
    hide Eval, EvalAll, Telling, Kids;
    forall w: nat, w': nat ensures Eval(Telling(), e, env, w).0 != Eval(Telling(), c, env, w').0 {
      AllDiffer(Kids(e), Kids(c), env, i, w, w');
      ByKids(e, env, w);
      ByKids(c, env, w');
      NeverStopsWithValue(Kids(e), env, w);
    }
  }

  lemma NeverStopsWithValue(es: seq<CExpr>, env: Env, w: nat)
    ensures var r := EvalAll(Telling(), es, env, w).0; r.Stop? ==> !r.o.Val?
  {
  }

  // ---- arms ----

  /** The arm picked is one that matches, and the first. */
  lemma {:induction false} PickMatches<W>(I: Interp<W>, arms: seq<Arm>, v: Value, j: nat)
    requires Pick(I, arms, v).Some? && j <= Pick(I, arms, v).value.0
    ensures MatchPattern(I, arms[j].pattern, v).Some? <==> j == Pick(I, arms, v).value.0
    decreases |arms|
  {
    hide MatchPattern;
    if MatchPattern(I, arms[0].pattern, v).None? && j > 0 { PickMatches(I, arms[1..], v, j - 1); }
  }

  /** An arm that is not sure is not the one picked. */
  lemma {:induction false} NotPicked(arms: seq<Arm>, lit: CLit)
    requires Select(arms, lit).Some? && !Sure(arms, lit)
    ensures var pick := Pick(Telling(), arms, VLit(lit)); pick.Some? ==> pick.value.0 != Select(arms, lit).value
  {
    var i, pick := Select(arms, lit).value, Pick(Telling(), arms, VLit(lit));
    if pick.Some? && pick.value.0 == i {
      if j :| 0 <= j < i && (arms[j].pattern.PVar? || (lit.Float? && arms[j].pattern.PLiteral?)) {
        PickMatches(Telling(), arms, VLit(lit), j);
      } else {
        PickMatches(Telling(), arms, VLit(lit), i);
      }
    }
  }

  lemma ArmsApart(e: CExpr, i: nat, j: nat)
    requires Tagged(e) && e.Match? && i < |e.arms| && j < |e.arms| && i != j
    ensures HeadsApart(e.arms[i].body, e.arms[j].body)
  {
    hide Fires, Tagged;
    assert i < j ==> HeadsApart(e.arms[i].body, e.arms[j].body) by { ArmsInOrder(e, i, j); }
    assert j < i ==> HeadsApart(e.arms[j].body, e.arms[i].body) by { ArmsInOrder(e, j, i); }
  }

  lemma ArmsInOrder(e: CExpr, i: nat, j: nat)
    requires Tagged(e) && e.Match?
    ensures i < j < |e.arms| ==> HeadsApart(e.arms[i].body, e.arms[j].body)
  {
    hide HeadsApart;
  }

  /** Folding keeps the head, and the head shows in the value. */
  lemma ApartDiffers(a: CExpr, b: CExpr, envA: Env, envB: Env, w: nat, w': nat)
    requires HeadsApart(a, b)
    ensures Eval(Telling(), Fold(b), envB, w').0.Val? ==> Eval(Telling(), a, envA, w).0 != Eval(Telling(), Fold(b), envB, w').0
  {
    HeadStays(b);
    hide Fold, EvalAll;
  }

  lemma HeadStays(b: CExpr)
    requires b.Literal? || b.Constructor?
    ensures b.Literal? ==> Fold(b) == b
    ensures b.Constructor? ==> Fold(b).Constructor? && Fold(b).name == b.name
  {
    if b.Constructor? { FoldListed(b); } else { NothingToFold(b); }
  }

  lemma UnsureDiffers(e: CExpr, env: Env)
    requires Tagged(e) && e.Match? && Fires(e) && !ChosenSure(e) && HasValue(Fold(Chosen(e)), env)
    ensures Differ(e, Fold(Chosen(e)), env)
  {
    var lit := e.scrutinee.value;
    var i, pick := Select(e.arms, lit).value, Pick(Telling(), e.arms, VLit(lit));
    NotPicked(e.arms, lit);
    hide Tagged, Fold, HeadsApart, Select, Sure, Pick, Telling;
    forall w: nat, w': nat ensures Eval(Telling(), e, env, w).0 != Eval(Telling(), Fold(Chosen(e)), env, w').0 {
      LiteralMatch(e, env, w);
      if pick.Some? {
        ArmsApart(e, pick.value.0, i);
        ApartDiffers(e.arms[pick.value.0].body, Chosen(e), env + pick.value.1, env, w, w');
      }
    }
  }

  lemma LiteralMatch(e: CExpr, env: Env, w: nat)
    requires e.Match? && e.scrutinee.Literal?
    ensures var pick := Pick(Telling(), e.arms, VLit(e.scrutinee.value));
            Eval(Telling(), e, env, w) ==
            if pick.None? then (Fail, w) else Eval(Telling(), e.arms[pick.value.0].body, env + pick.value.1, w)
  {
    hide Telling, Pick;
  }

  lemma SureDiffers(e: CExpr, c: CExpr, env: Env)
    requires e.Match? && Fires(e) && ChosenSure(e) && Differ(Chosen(e), c, env)
    ensures Differ(e, c, env)
  {
    TellingStructural();
    SureIsPick(Telling(), e.arms, e.scrutinee.value);
    hide Telling, Select, Sure, Pick, Structural;
    assert env + map[] == env;
    forall w: nat, w': nat ensures Eval(Telling(), e, env, w).0 != Eval(Telling(), c, env, w').0 {
      LiteralMatch(e, env, w);
    }
  }

  lemma TellingStructural()
    ensures Structural(Telling()) && Extensional(Telling())
  {
  }

  lemma {:induction false} Apart(e: CExpr, env: Env)
    requires Tagged(e) && Closed(e, env) && !FoldSafe(e)
    ensures Differ(e, Fold(e), env)
    decreases e
  {
    hide *;
    TaggedKids(e);
    if Listed(e) {
      FoldListed(e);
      ClosedKids(e, env);
      forall i | 0 <= i < |Kids(e)| ensures HasValue(FoldedKids(e)[i], env) {
        FoldedHasValue(Kids(e)[i], env);
        FoldedKidIs(e, i);
      }
      var i :| 0 <= i < |Kids(e)| && !FoldSafe(Kids(e)[i]);
      Apart(Kids(e)[i], env);
      FoldedKidIs(e, i);
      ListDiffers(e, Fold(e), env, i);
    } else if e.Match? {
      ChosenTagged(e);
      ClosedChosen(e, env);
      FoldsToChosen(e);
      if ChosenSure(e) {
        Apart(Chosen(e), env);
        SureDiffers(e, Fold(e), env);
      } else {
        FoldedHasValue(Chosen(e), env);
        UnsureDiffers(e, env);
      }
    } else {
      LeafHasValue(e, map z | z in FreeVars(e) :: VLit(Unit)) by { UnitsClose(e); }
    }
  }

  lemma UnitsClose(e: CExpr)
    ensures Closed(e, map z | z in FreeVars(e) :: VLit(Unit))
  {
  }

  // ---- exactly when ----

  /** The expressions mean the same wherever they are evaluated, whatever calls do and however floats compare. */
  ghost predicate AlwaysSame(e: CExpr, c: CExpr) {
    forall I: Interp<nat>, env: Env :: Extensional(I) && Structural(I) ==> Same(true, I, e, env, c, env)
  }

  lemma FoldExactly(e: CExpr)
    requires Tagged(e)
    ensures AlwaysSame(e, Fold(e)) <==> FoldSafe(e)
  {
    hide *;
    if FoldSafe(e) {
      SafeAlways(e);
    } else {
      UnitsClose(e);
      var env: Env := map z | z in FreeVars(e) :: VLit(Unit);
      Apart(e, env);
      DifferNotSame(e, Fold(e), env);
    }
  }

  lemma SafeAlways(e: CExpr)
    requires FoldSafe(e)
    ensures AlwaysSame(e, Fold(e))
  {
    hide Extensional, Structural, Same, FoldSafe, Fold;
    forall I: Interp<nat>, env: Env | Extensional(I) && Structural(I) ensures Same(true, I, e, env, Fold(e), env) {
      FoldMeaning(I, e, env);
    }
  }

  lemma DifferNotSame(e: CExpr, c: CExpr, env: Env)
    requires Differ(e, c, env)
    ensures !AlwaysSame(e, c)
  {
    TellingStructural();
    hide Eval, Telling, Extensional, Structural;
    assert Eval(Telling(), e, env, 0).0 != Eval(Telling(), c, env, 0).0;
    assert !Agree(true, Eval(Telling(), e, env, 0), Eval(Telling(), c, env, 0));
    assert !Same(true, Telling(), e, env, c, env);
  }

  // ---- nothing left to fold ----

  lemma {:induction false} FoldedAlong(e: CExpr, path: Path)
    requires Folded(e) && Navigate(e, path).Some?
    ensures !Fires(Navigate(e, path).value)
    decreases |path|
  {
    if path != [] {
      var k := KidOf(e, path[0]);
      KidAt(e, k);
      assert path == [path[0]] + path[1..];
      NavigateStep(e, path[0], path[1..]);
      FoldedAlong(Kids(e)[k], path[1..]);
    }
  }

  /** At no path of the result does a match on a literal have an arm with that literal or a wildcard. */
  lemma NoArmLeft(e: CExpr, path: Path, lit: CLit, arms: seq<Arm>, i: nat)
    requires Navigate(Fold(e), path) == Some(Match(Literal(lit), arms)) && i < |arms|
    ensures arms[i].pattern != PLiteral(lit) && arms[i].pattern != PWild
  {
    FoldLeavesNothing(e);
    FoldedAlong(Fold(e), path);
    hide Fold, Folded, Navigate;
  }
}
