/** When the transforms succeed, in terms of what stands at the paths of the expression
    (crates/lex-ast/src/transforms.rs:152-362, 410-441, 584-640). */
module TransformExact {
  import opened Options
  import opened Ast
  import opened AstKids
  import opened NodePaths
  import opened Transforms
  import opened TransformLaws
  import opened TreeWalks
  import Patches

  // ---- steps and parts ----

  lemma KidAt(e: CExpr, k: nat)
    requires k < |Kids(e)|
    ensures StepExpr(e, Patches.StepTo(e, k)) == Some(Kids(e)[k])
    ensures BoundFor(e, Patches.StepTo(e, k)) == KidBinds(e, k)
  {
    hide PatternNames, ParamNames;
    Patches.StepToKid(e, k, e);
  }

  lemma KidOf(e: CExpr, step: nat) returns (k: nat)
    requires StepExpr(e, step).Some?
    ensures k < |Kids(e)| && step == Patches.StepTo(e, k)
  {
    k := if e.Match? then step / 2 else step;
  }

  lemma NavigateStep(e: CExpr, step: nat, rest: Path)
    requires StepExpr(e, step).Some?
    ensures Navigate(e, [step] + rest) == Navigate(StepExpr(e, step).value, rest)
    ensures Navigate(StepExpr(e, step).value, rest).Some? ==>
              BoundAlong(e, [step] + rest) == BoundFor(e, step) + BoundAlong(StepExpr(e, step).value, rest)
  {
    hide StepExpr, BoundFor;
    assert ([step] + rest)[1..] == rest;
  }

  // ---- what may be inlined ----

  /** No call, no binder, no early return and nothing allocated here. */
  predicate Repeatable(e: CExpr) {
    !(e.Call? || e.Let? || e.Match? || e.Block? || e.Constructor? || e.RecordLit? || e.Lambda? || e.Return?)
  }

  ghost predicate AllRepeatable(e: CExpr) {
    forall path | Navigate(e, path).Some? :: Repeatable(Navigate(e, path).value)
  }

  lemma {:induction false} InlinableDown(e: CExpr, path: Path)
    requires Inlinable(e) && Navigate(e, path).Some?
    ensures Repeatable(Navigate(e, path).value)
    decreases |path|
  {
    if path != [] {
      InlinableStep(e, path[0]);
      InlinableDown(StepExpr(e, path[0]).value, path[1..]);
    }
  }

  lemma InlinableStep(e: CExpr, step: nat)
    requires Inlinable(e) && StepExpr(e, step).Some?
    ensures Inlinable(StepExpr(e, step).value)
  {
  }

  lemma RepeatableBelow(e: CExpr, k: nat)
    requires AllRepeatable(e) && k < |Kids(e)|
    ensures AllRepeatable(Kids(e)[k])
  {
    hide Kids, Patches.StepTo, Repeatable;
    KidAt(e, k);
    forall path | Navigate(Kids(e)[k], path).Some? ensures Repeatable(Navigate(Kids(e)[k], path).value) {
      NavigateStep(e, Patches.StepTo(e, k), path);
      assert Navigate(e, [Patches.StepTo(e, k)] + path).Some?;
    }
  }

  lemma {:induction false} RepeatableUp(e: CExpr)
    requires AllRepeatable(e)
    ensures Inlinable(e)
    decreases e
  {
    assert Navigate(e, []) == Some(e);
    forall k | 0 <= k < |Kids(e)| ensures Inlinable(Kids(e)[k]) {
      RepeatableBelow(e, k);
      RepeatableUp(Kids(e)[k]);
    }
    hide AllRepeatable;
    InlinableKids(e);
  }

  lemma InlinableKids(e: CExpr)
    requires Repeatable(e) && forall k | 0 <= k < |Kids(e)| :: Inlinable(Kids(e)[k])
    ensures Inlinable(e)
  {
    var kids := Kids(e);
    match e
    case FieldAccess(record, _) => assert kids[0] == record;
    case BinOp(_, lhs, rhs) => assert kids[0] == lhs && kids[1] == rhs;
    case UnaryOp(_, operand) => assert kids[0] == operand;
    case _ =>
  }

  /** `is_inlinable` accepts just the expressions with nothing at any path that may not be evaluated again. */
  lemma InlinableExactly(e: CExpr)
    ensures Inlinable(e) <==> AllRepeatable(e)
  {
    hide Repeatable, Inlinable, Navigate;
    if Inlinable(e) {
      forall path | Navigate(e, path).Some? ensures Repeatable(Navigate(e, path).value) { InlinableDown(e, path); }
    }
    if AllRepeatable(e) { RepeatableUp(e); }
  }

  // ---- binders ----

  ghost predicate BinderAt(e: CExpr, path: Path, x: string) {
    Navigate(e, path).Some? && x in OwnBinders(Navigate(e, path).value)
  }

  /** Something at some path of the expression binds the name. */
  ghost predicate Takes(e: CExpr, x: string) {
    exists path :: BinderAt(e, path, x)
  }

  lemma {:induction false} BindersUp(e: CExpr, path: Path, x: string)
    requires BinderAt(e, path, x)
    ensures x in Binders(e)
    decreases |path|
  {
    hide Binders, OwnBinders, StepExpr;
    BindersBelow(e, x);
    if path != [] {
      var k := KidOf(e, path[0]);
      KidAt(e, k);
      assert path == [path[0]] + path[1..];
      NavigateStep(e, path[0], path[1..]);
      BindersUp(Kids(e)[k], path[1..], x);
    }
  }

  lemma {:induction false} BindersDown(e: CExpr, x: string) returns (path: Path)
    requires x in Binders(e)
    ensures BinderAt(e, path, x)
    decreases e
  {
    hide Binders, OwnBinders, StepExpr;
    BindersBelow(e, x);
    if x in OwnBinders(e) {
      path := [];
    } else {
      var k :| 0 <= k < |Kids(e)| && x in Binders(Kids(e)[k]);
      KidAt(e, k);
      var rest := BindersDown(Kids(e)[k], x);
      NavigateStep(e, Patches.StepTo(e, k), rest);
      path := [Patches.StepTo(e, k)] + rest;
    }
  }

  lemma BindersExactly(e: CExpr, x: string)
    ensures x in Binders(e) <==> Takes(e, x)
  {
    hide Binders, BinderAt;
    if x in Binders(e) { var path := BindersDown(e, x); }
    if Takes(e, x) {
      var path :| BinderAt(e, path, x);
      BindersUp(e, path, x);
    }
  }

  // ---- free variables ----

  ghost predicate FreeAt(e: CExpr, path: Path, x: string) {
    Navigate(e, path) == Some(Var(x)) && x !in BoundAlong(e, path)
  }

  /** The variable stands at some path along which nothing binds it. */
  ghost predicate OccursFree(e: CExpr, x: string) {
    exists path :: FreeAt(e, path, x)
  }

  lemma NoStepFromVar(e: CExpr, path: Path)
    requires e.Var? && Navigate(e, path).Some?
    ensures path == []
  {
  }

  lemma {:induction false} FreeUp(e: CExpr, path: Path, x: string)
    requires FreeAt(e, path, x)
    ensures x in FreeVars(e)
    decreases |path|
  {
    if e.Var? {
      NoStepFromVar(e, path);
    } else {
      assert path != [];
      hide FreeVars, StepExpr, BoundFor;
      var k := KidOf(e, path[0]);
      KidAt(e, k);
      assert path == [path[0]] + path[1..];
      NavigateStep(e, path[0], path[1..]);
      FreeUp(Kids(e)[k], path[1..], x);
      FreeVarsBelow(e, x);
    }
  }

  lemma {:induction false} FreeDown(e: CExpr, x: string) returns (path: Path)
    requires x in FreeVars(e)
    ensures FreeAt(e, path, x)
    decreases e
  {
    if e.Var? {
      path := [];
    } else {
      hide FreeVars, StepExpr, BoundFor;
      FreeVarsBelow(e, x);
      var k :| 0 <= k < |Kids(e)| && x in FreeVars(Kids(e)[k]) && x !in KidBinds(e, k);
      KidAt(e, k);
      var rest := FreeDown(Kids(e)[k], x);
      NavigateStep(e, Patches.StepTo(e, k), rest);
      path := [Patches.StepTo(e, k)] + rest;
    }
  }

  lemma FreeExactly(e: CExpr, x: string)
    ensures x in FreeVars(e) <==> OccursFree(e, x)
  {
    hide FreeVars, FreeAt;
    if x in FreeVars(e) { var path := FreeDown(e, x); }
    if OccursFree(e, x) {
      var path :| FreeAt(e, path, x);
      FreeUp(e, path, x);
    }
  }

  // ---- the transforms ----

  /** Nothing in the value may not be evaluated again, and no name free in it is bound anywhere in the body. */
  ghost predicate Inlines(e: CExpr)
    requires e.Let?
  {
    AllRepeatable(e.bound) && forall x | OccursFree(e.bound, x) :: !Takes(e.body, x)
  }

  lemma InlineAllowedExactly(e: CExpr)
    requires e.Let?
    ensures InlineAllowed(e) <==> Inlines(e)
  {
    hide Inlinable, AllRepeatable, OccursFree, Takes, FreeVars, Binders;
    InlinableExactly(e.bound);
    forall x
      ensures x in FreeVars(e.bound) <==> OccursFree(e.bound, x)
      ensures x in Binders(e.body) <==> Takes(e.body, x)
    {
      FreeExactly(e.bound, x);
      BindersExactly(e.body, x);
    }
  }

  /** `inline_let` succeeds on just the lets at a path of the body whose value may be inlined there, and says
      what else is wrong. */
  lemma InlineExactly(stage: Stage, id: string)
    ensures var path := BodyPath(stage, id, NotALet);
            var r := InlineLet(stage, id);
            if path.Err? then r == Err(path.error)
            else var e := Navigate(stage.fd.body, path.value).value;
              if !e.Let? then r == Err(NotALet)
              else if Inlines(e) then
                r.Ok? && r.value == WithBody(stage, r.value.fd.body)
                && Navigate(r.value.fd.body, path.value) == Some(InlinedLet(e))
              else r == Err(InlineRefused)
  {
    hide Navigate, ReplaceAt, Inlines, InlineAllowed, InlinedLet, ParseNodeId;
    var path := BodyPath(stage, id, NotALet);
    if path.Ok? && Navigate(stage.fd.body, path.value).value.Let? {
      var e := Navigate(stage.fd.body, path.value).value;
      InlineAllowedExactly(e);
      ReplaceThenNavigate(stage.fd.body, path.value, InlinedLet(e));
    }
  }

  /** `rename_local` refuses only what is no let, and a new name that is the old one. */
  lemma RenameExactly(stage: Stage, id: string, name: string)
    ensures var path := BodyPath(stage, id, NotALet);
            var r := RenameLocal(stage, id, name);
            if path.Err? then r == Err(path.error)
            else var e := Navigate(stage.fd.body, path.value).value;
              if !e.Let? then r == Err(NotALet)
              else if e.name != name then
                r.Ok? && r.value == WithBody(stage, r.value.fd.body)
                && Navigate(r.value.fd.body, path.value) == Some(RenamedLet(e, name))
              else r == Err(RenameNoOp)
  {
    hide Navigate, ReplaceAt, RenamedLet, ParseNodeId;
    var path := BodyPath(stage, id, NotALet);
    if path.Ok? && Navigate(stage.fd.body, path.value).value.Let? {
      ReplaceThenNavigate(stage.fd.body, path.value, RenamedLet(Navigate(stage.fd.body, path.value).value, name));
    }
  }

  /** `extract_function` succeeds on just the expressions in which exactly the parameters occur free. */
  lemma ExtractExactly(stage: Stage, id: string, spec: ExtractSpec)
    ensures var path := BodyPath(stage, id, UnknownNode);
            var r := ExtractFunction(stage, id, spec);
            if path.Err? then r == Err(path.error)
            else var e := Navigate(stage.fd.body, path.value).value;
              if forall x :: OccursFree(e, x) <==> x in ParamNames(spec.params) then
                r.Ok? && Navigate(r.value.0.fd.body, path.value) == Some(CallOf(spec))
              else r == Err(ExtractRefused)
  {
    hide Navigate, ReplaceAt, CallOf, ParseNodeId, OccursFree, FreeVars, ParamNames;
    var path := BodyPath(stage, id, UnknownNode);
    if path.Ok? {
      var e := Navigate(stage.fd.body, path.value).value;
      forall x ensures x in FreeVars(e) <==> OccursFree(e, x) { FreeExactly(e, x); }
      ReplaceThenNavigate(stage.fd.body, path.value, CallOf(spec));
    }
  }
}
