/** The transforms preserve meaning. */
module TransformLaws {
  import opened Options
  import Text
  import opened Ast
  import opened NodePaths
  import opened Meaning
  import opened EvalLaws
  import opened Transforms

  /** `v` evaluates to `u` here, without touching the world. */
  ghost predicate Evaluates<W(!new)>(I: Interp<W>, v: CExpr, env: Env, u: Value) {
    forall w: W :: Eval(I, v, env, w) == (Val(u), w)
  }

  ghost predicate Settles<W(!new)>(I: Interp<W>, v: CExpr, env: Env, o: Outcome) {
    !o.Ret? && forall w: W :: Eval(I, v, env, w) == (o, w)
  }

  // ---- inlinable values ----

  ghost predicate CanSettle<W(!new)>(I: Interp<W>, e: CExpr, env: Env) {
    exists o :: Settles(I, e, env, o)
  }

  ghost predicate AllSettle<W(!new)>(I: Interp<W>, es: seq<CExpr>, env: Env) {
    forall i | 0 <= i < |es| :: CanSettle(I, es[i], env)
  }

  lemma {:induction false} ListSettles<W(!new)>(I: Interp<W>, es: seq<CExpr>, env: Env) returns (r: Outcomes)
    requires AllSettle(I, es, env)
    ensures forall w: W :: EvalAll(I, es, env, w) == (r, w)
    ensures r.Stop? ==> r.o.Fail?
    decreases |es|
  {
    hide Eval;
    if es == [] {
      r := Vals([]);
    } else {
      assert CanSettle(I, es[0], env);
      var o :| Settles(I, es[0], env, o);
      forall i | 0 <= i < |es[1..]| ensures CanSettle(I, es[1..][i], env) {
        assert CanSettle(I, es[i + 1], env);
      }
      var rest := ListSettles(I, es[1..], env);
      r := if !o.Val? then Stop(o) else if rest.Stop? then rest else Vals([o.v] + rest.vs);
      forall w: W ensures EvalAll(I, es, env, w) == (r, w) {
        assert Eval(I, es[0], env, w) == (o, w);
      }
    }
  }

  /** An inlinable value neither touches the world nor returns early, and its outcome does not
      depend on the world. */
  lemma {:induction false} InlinableSettles<W(!new)>(I: Interp<W>, v: CExpr, env: Env) returns (o: Outcome)
    requires Inlinable(v)
    ensures Settles(I, v, env, o)
    decreases v
  {
    match v
    case Literal(lit) => o := Val(VLit(lit));
    case Var(x) => o := Lookup(I, env, x);
    case FieldAccess(record, field) =>
      var r := InlinableSettles(I, record, env);
      o := if !r.Val? then r else if r.v.VRec? then FromOption(FieldOf(r.v.fields, field)) else Fail;
    case BinOp(op, lhs, rhs) =>
      var a := InlinableSettles(I, lhs, env);
      var b := InlinableSettles(I, rhs, env);
      o := if !a.Val? then a else if !b.Val? then b else FromOption(I.binop(op, a.v, b.v));
      forall w: W ensures Eval(I, v, env, w) == (o, w) {
        assert Eval(I, lhs, env, w) == (a, w) && Eval(I, rhs, env, w) == (b, w);
      }
    case UnaryOp(op, operand) =>
      var a := InlinableSettles(I, operand, env);
      o := if !a.Val? then a else FromOption(I.unop(op, a.v));
    case TupleLit(items) =>
      forall i | 0 <= i < |items| ensures CanSettle(I, items[i], env) {
        var p := InlinableSettles(I, items[i], env);
      }
      var r := ListSettles(I, items, env);
      o := if r.Stop? then r.o else Val(VTup(r.vs));
    case ListLit(items) =>
      forall i | 0 <= i < |items| ensures CanSettle(I, items[i], env) {
        var p := InlinableSettles(I, items[i], env);
      }
      var r := ListSettles(I, items, env);
      o := if r.Stop? then r.o else Val(VList(r.vs));
  }

  // ---- substitution ----

  lemma Reflexive<W(!new)>(strict: bool, I: Interp<W>, e: CExpr, env: Env, env': Env)
    requires env == env'
    ensures Same(strict, I, e, env, e, env')
  {
  }

  /** Below a binder: where `x` is bound again nothing changes; elsewhere the two environments keep
      their relation and the substituted value keeps its meaning. */
  lemma UnderBinder<W(!new)>(I: Interp<W>, env: Env, x: string, u: Value, v: CExpr, b: Env)
    requires Extensional(I) && Evaluates(I, v, env, u) && FreeVars(v) !! b.Keys
    ensures x in b ==> env[x := u] + b == env + b
    ensures x !in b ==> env[x := u] + b == (env + b)[x := u]
    ensures Evaluates(I, v, env + b, u)
  {
    assert AgreeOn(I, FreeVars(v), env, env + b);
    Coincidence(I, v, env, env + b);
    forall w: W ensures Eval(I, v, env + b, w) == (Val(u), w) {
      assert Agree(true, Eval(I, v, env, w), Eval(I, v, env + b, w));
    }
  }

  /** Substituting a value for a variable it equals preserves meaning, when no binder of the
      expression captures a variable of the value. */
  lemma {:induction false} SubstituteSame<W(!new)>(I: Interp<W>, e: CExpr, x: string, v: CExpr, u: Value, env: Env)
    requires Extensional(I) && Evaluates(I, v, env, u) && FreeVars(v) !! Binders(e)
    ensures Same(true, I, e, env[x := u], Substitute(e, x, v), env)
    decreases e, 1
  {
    hide *;
    if e.Let? || e.Match? || e.Lambda? {
      SubstituteBinder(I, e, x, v, u, env);
    } else if e.Call? || e.Block? || e.Constructor? || e.RecordLit? || e.TupleLit? || e.ListLit? {
      SubstituteList(I, e, x, v, u, env);
    } else if e.Var? {
      SubstituteVar(I, e, x, v, u, env);
    } else {
      SubstitutePlain(I, e, x, v, u, env);
    }
  }

  lemma {:induction false} SubstitutePlain<W(!new)>(I: Interp<W>, e: CExpr, x: string, v: CExpr, u: Value, env: Env)
    requires Extensional(I) && Evaluates(I, v, env, u) && FreeVars(v) !! Binders(e)
    requires e.Literal? || e.FieldAccess? || e.BinOp? || e.UnaryOp? || e.Return?
    ensures Same(true, I, e, env[x := u], Substitute(e, x, v), env)
    decreases e, 0
  {
    hide Same, Extensional, Evaluates, Lookup, FreeVars, Eval, PatternNames, ParamNames;
    match e {
      case Literal(_) =>
      case FieldAccess(record, _) => SubstituteSame(I, record, x, v, u, env);
      case BinOp(_, lhs, rhs) =>
        SubstituteSame(I, lhs, x, v, u, env);
        SubstituteSame(I, rhs, x, v, u, env);
      case UnaryOp(_, operand) => SubstituteSame(I, operand, x, v, u, env);
      case Return(result) => SubstituteSame(I, result, x, v, u, env);
    }
    Congruence(true, I, e, env[x := u], Substitute(e, x, v), env);
  }

  lemma SubstituteVar<W(!new)>(I: Interp<W>, e: CExpr, x: string, v: CExpr, u: Value, env: Env)
    requires e.Var? && Evaluates(I, v, env, u)
    ensures Same(true, I, e, env[x := u], Substitute(e, x, v), env)
  {
  }

  lemma {:induction false} SubstituteBinder<W(!new)>(I: Interp<W>, e: CExpr, x: string, v: CExpr, u: Value, env: Env)
    requires Extensional(I) && Evaluates(I, v, env, u) && FreeVars(v) !! Binders(e)
    requires e.Let? || e.Match? || e.Lambda?
    ensures Same(true, I, e, env[x := u], Substitute(e, x, v), env)
    decreases e, 0
  {
    hide Same, Extensional, Evaluates, Lookup, FreeVars, Eval, PatternNames, ParamNames;
    var e' := Substitute(e, x, v);
    match e {
      case Let(name, _, bound, body) =>
        SubstituteSame(I, bound, x, v, u, env);
        forall b: Env | b.Keys == {name}
          ensures Same(true, I, body, env[x := u] + b, e'.body, env + b)
        {
          SubstituteUnder(I, body, x, v, u, env, b);
        }
      case Match(scrutinee, arms) =>
        SubstituteSame(I, scrutinee, x, v, u, env);
        forall i, b: Env | 0 <= i < |arms| && b.Keys == PatternNames(arms[i].pattern)
          ensures Same(true, I, arms[i].body, env[x := u] + b, e'.arms[i].body, env + b)
        {
          SubstituteUnder(I, arms[i].body, x, v, u, env, b);
        }
      case Lambda(params, _, _, _, body) =>
        forall b: Env | b.Keys == ParamNames(params)
          ensures Same(true, I, body, env[x := u] + b, e'.body, env + b)
        {
          SubstituteUnder(I, body, x, v, u, env, b);
        }
    }
    Congruence(true, I, e, env[x := u], e', env);
  }

  lemma {:induction false} SubstituteUnder<W(!new)>(I: Interp<W>, body: CExpr, x: string, v: CExpr, u: Value, env: Env, b: Env)
    requires Extensional(I) && Evaluates(I, v, env, u) && FreeVars(v) !! Binders(body) && FreeVars(v) !! b.Keys
    ensures Same(true, I, body, env[x := u] + b, if x in b then body else Substitute(body, x, v), env + b)
    decreases body, 2
  {
    UnderBinder(I, env, x, u, v, b);
    if x in b {
      Reflexive(true, I, body, env[x := u] + b, env + b);
    } else {
      SubstituteSame(I, body, x, v, u, env + b);
    }
  }

  lemma {:induction false} SubstituteList<W(!new)>(I: Interp<W>, e: CExpr, x: string, v: CExpr, u: Value, env: Env)
    requires Extensional(I) && Evaluates(I, v, env, u) && FreeVars(v) !! Binders(e)
    requires e.Call? || e.Block? || e.Constructor? || e.RecordLit? || e.TupleLit? || e.ListLit?
    ensures Same(true, I, e, env[x := u], Substitute(e, x, v), env)
    decreases e, 0
  {
    hide Same, Extensional, Evaluates, Lookup, FreeVars, Eval, PatternNames, ParamNames;
    match e {
      case Call(callee, args) =>
        SubstituteSame(I, callee, x, v, u, env);
        forall i | 0 <= i < |args| ensures Same(true, I, args[i], env[x := u], Substitute(args[i], x, v), env) {
          SubstituteSame(I, args[i], x, v, u, env);
        }
      case Block(statements, result) =>
        forall i | 0 <= i < |statements|
          ensures Same(true, I, statements[i], env[x := u], Substitute(statements[i], x, v), env) {
          SubstituteSame(I, statements[i], x, v, u, env);
        }
        SubstituteSame(I, result, x, v, u, env);
      case Constructor(_, args) =>
        forall i | 0 <= i < |args| ensures Same(true, I, args[i], env[x := u], Substitute(args[i], x, v), env) {
          SubstituteSame(I, args[i], x, v, u, env);
        }
      case RecordLit(fields) =>
        forall i | 0 <= i < |fields|
          ensures Same(true, I, fields[i].value, env[x := u], Substitute(fields[i].value, x, v), env) {
          SubstituteSame(I, fields[i].value, x, v, u, env);
        }
      case TupleLit(items) =>
        forall i | 0 <= i < |items| ensures Same(true, I, items[i], env[x := u], Substitute(items[i], x, v), env) {
          SubstituteSame(I, items[i], x, v, u, env);
        }
      case ListLit(items) =>
        forall i | 0 <= i < |items| ensures Same(true, I, items[i], env[x := u], Substitute(items[i], x, v), env) {
          SubstituteSame(I, items[i], x, v, u, env);
        }
    }
    Congruence(true, I, e, env[x := u], Substitute(e, x, v), env);
  }

  // ---- replacing an expression inside another ----

  /** Names bound for the `idx`-th child. */
  function BoundFor(e: CExpr, idx: nat): set<string>
    requires StepExpr(e, idx).Some?
  {
    match e
    case Let(name, _, _, _) => if idx == 1 then {name} else {}
    case Match(_, arms) => if idx == 0 then {} else PatternNames(arms[(idx - 1) / 2].pattern)
    case Lambda(params, _, _, _, _) => ParamNames(params)
    case _ => {}
  }

  /** Names bound between the root and the expression at `path`. */
  function BoundAlong(e: CExpr, path: Path): set<string>
    requires Navigate(e, path).Some?
  {
    if path == [] then {} else BoundFor(e, path[0]) + BoundAlong(StepExpr(e, path[0]).value, path[1..])
  }

  /** No lambda encloses the expression at `path`. */
  predicate OutsideLambdas(e: CExpr, path: Path)
    requires Navigate(e, path).Some?
  {
    path == [] || (!e.Lambda? && OutsideLambdas(StepExpr(e, path[0]).value, path[1..]))
  }

  lemma UnderNone<W(!new)>(strict: bool, I: Interp<W>, e: CExpr, c: CExpr, env: Env)
    requires UnderSame(strict, I, {}, e, env, c, env)
    ensures Same(strict, I, e, env, c, env)
  {
    var none: Env := map[];
    assert none.Keys == {} && env + none == env;
  }

  lemma EverySelf<W(!new)>(strict: bool, I: Interp<W>, env: Env)
    ensures forall d: CExpr :: Same(strict, I, d, env, d, env)
    ensures forall d: CExpr, names :: UnderSame(strict, I, names, d, env, d, env)
  {
    hide Eval;
    forall d: CExpr, env1: Env ensures Same(strict, I, d, env1, d, env1) {
      Reflexive(strict, I, d, env1, env1);
    }
  }

  lemma SetChildPlain<W(!new)>(strict: bool, I: Interp<W>, e: CExpr, idx: nat, c: CExpr, env: Env)
    requires StepExpr(e, idx).Some? && !e.Let? && !e.Match? && !e.Lambda?
    requires e.FieldAccess? || e.BinOp? || e.UnaryOp? || e.Return?
    requires Same(strict, I, StepExpr(e, idx).value, env, c, env)
    ensures PartsSame(strict, I, e, env, SetChild(e, idx, c), env)
  {
    EverySelf(strict, I, env);
    hide Same;
  }

  lemma SetChildList<W(!new)>(strict: bool, I: Interp<W>, e: CExpr, idx: nat, c: CExpr, env: Env)
    requires StepExpr(e, idx).Some?
    requires e.Call? || e.Block? || e.Constructor? || e.RecordLit? || e.TupleLit? || e.ListLit?
    requires Same(strict, I, StepExpr(e, idx).value, env, c, env)
    ensures PartsSame(strict, I, e, env, SetChild(e, idx, c), env)
  {
    EverySelf(strict, I, env);
    hide Same;
  }

  lemma SetChildBinder<W(!new)>(strict: bool, I: Interp<W>, e: CExpr, idx: nat, c: CExpr, env: Env)
    requires StepExpr(e, idx).Some? && (e.Let? || e.Match? || e.Lambda?) && (strict || !e.Lambda?)
    requires UnderSame(strict, I, BoundFor(e, idx), StepExpr(e, idx).value, env, c, env)
    requires BoundFor(e, idx) == {} ==> Same(strict, I, StepExpr(e, idx).value, env, c, env)
    ensures PartsSame(strict, I, e, env, SetChild(e, idx, c), env)
  {
    EverySelf(strict, I, env);
    hide Same, UnderSame, PatternNames, ParamNames;
  }

  lemma SetChildParts<W(!new)>(strict: bool, I: Interp<W>, e: CExpr, idx: nat, c: CExpr, env: Env)
    requires StepExpr(e, idx).Some? && (strict || !e.Lambda?)
    requires UnderSame(strict, I, BoundFor(e, idx), StepExpr(e, idx).value, env, c, env)
    ensures PartsSame(strict, I, e, env, SetChild(e, idx, c), env)
  {
    hide UnderSame, PartsSame, SetChild, StepExpr;
    if BoundFor(e, idx) == {} { UnderNone(strict, I, StepExpr(e, idx).value, c, env); }
    if e.Let? || e.Match? || e.Lambda? {
      SetChildBinder(strict, I, e, idx, c, env);
    } else if e.FieldAccess? || e.BinOp? || e.UnaryOp? || e.Return? {
      SetChildPlain(strict, I, e, idx, c, env);
    } else {
      assert !e.Literal? && !e.Var? by { HasChild(e, idx); }
      SetChildList(strict, I, e, idx, c, env);
    }
  }

  lemma HasChild(e: CExpr, idx: nat)
    requires StepExpr(e, idx).Some?
    ensures !e.Literal? && !e.Var?
  {
  }

  /** Replacing a part by one that means the same below the binders around it. */
  lemma {:induction false} InContext<W(!new)>(strict: bool, I: Interp<W>, root: CExpr, path: Path, c: CExpr, env: Env)
    requires Extensional(I) && Navigate(root, path).Some? && (strict || OutsideLambdas(root, path))
    requires UnderSame(strict, I, BoundAlong(root, path), Navigate(root, path).value, env, c, env)
    ensures Same(strict, I, root, env, ReplaceAt(root, path, c), env)
    decreases |path|
  {
    hide Same, Extensional, StepExpr, SetChild, BoundFor;
    if path == [] {
      var none: Env := map[];
      assert none.Keys == {} && env + none == env;
    } else {
      var child, inner := StepExpr(root, path[0]).value, path[1..];
      var target := Navigate(root, path).value;
      forall b: Env | b.Keys == BoundFor(root, path[0])
        ensures Same(strict, I, child, env + b, ReplaceAt(child, inner, c), env + b)
      {
        forall d: Env | d.Keys == BoundAlong(child, inner)
          ensures Same(strict, I, target, env + b + d, c, env + b + d)
        {
          assert env + b + d == env + (b + d);
          assert (b + d).Keys == BoundAlong(root, path);
        }
        InContext(strict, I, child, inner, c, env + b);
      }
      SetChildParts(strict, I, root, path[0], ReplaceAt(child, inner, c), env);
      Congruence(strict, I, root, env, ReplaceAt(root, path, c), env);
    }
  }

  // ---- inline_let ----

  ghost predicate CanEvaluate<W(!new)>(I: Interp<W>, v: CExpr, env: Env) {
    exists u :: Evaluates(I, v, env, u)
  }

  /** Inlining a let whose value evaluates keeps its meaning; when the value fails, so did the let. */
  lemma InlineMeaning<W(!new)>(I: Interp<W>, e: CExpr, env: Env)
    requires Extensional(I) && e.Let? && InlineAllowed(e)
    ensures CanEvaluate(I, e.bound, env) ==> Same(true, I, e, env, InlinedLet(e), env)
    ensures !CanEvaluate(I, e.bound, env) ==> forall w: W :: Eval(I, e, env, w) == (Fail, w)
    ensures Same(false, I, e, env, InlinedLet(e), env)
  {
    hide Extensional, Substitute;
    var o := InlinableSettles(I, e.bound, env);
    assert o.Val? ==> Evaluates(I, e.bound, env, o.v);
    if CanEvaluate(I, e.bound, env) {
      var u :| Evaluates(I, e.bound, env, u);
      SubstituteSame(I, e.body, e.name, e.bound, u, env);
      forall w: W ensures Eval(I, e, env, w) == Eval(I, InlinedLet(e), env, w) {
        assert Eval(I, e.bound, env, w) == (Val(u), w);
        assert Agree(true, Eval(I, e.body, env[e.name := u], w), Eval(I, InlinedLet(e), env, w));
      }
    } else {
      forall w: W ensures Eval(I, e, env, w) == (Fail, w) {
        assert Eval(I, e.bound, env, w) == (o, w);
      }
    }
  }

  /** `inline_let` on a whole function: nothing but the body changes, and the body means the same
      wherever the inlined value evaluates; outside lambdas, where it does not, the old body failed. */
  lemma InlineLetMeaning<W(!new)>(I: Interp<W>, stage: Stage, id: string, env: Env)
    requires Extensional(I) && InlineLet(stage, id).Ok?
    ensures var r := InlineLet(stage, id).value;
            var path := BodyPath(stage, id, NotALet).value;
            var target := Navigate(stage.fd.body, path).value;
            && r == WithBody(stage, r.fd.body)
            && (OutsideLambdas(stage.fd.body, path) ==> Same(false, I, stage.fd.body, env, r.fd.body, env))
            && ((forall b: Env | b.Keys == BoundAlong(stage.fd.body, path) :: CanEvaluate(I, target.bound, env + b)) ==>
                 Same(true, I, stage.fd.body, env, r.fd.body, env))
  {
    hide Extensional, Eval, Same, InlineAllowed, CanEvaluate, ReplaceAt, Navigate, BoundAlong, InlinedLet;
    var path := BodyPath(stage, id, NotALet).value;
    var target := Navigate(stage.fd.body, path).value;
    forall b: Env ensures Same(false, I, target, env + b, InlinedLet(target), env + b)
      && (CanEvaluate(I, target.bound, env + b) ==> Same(true, I, target, env + b, InlinedLet(target), env + b)) {
      InlineMeaning(I, target, env + b);
    }
    if OutsideLambdas(stage.fd.body, path) { InContext(false, I, stage.fd.body, path, InlinedLet(target), env); }
    if forall b: Env | b.Keys == BoundAlong(stage.fd.body, path) :: CanEvaluate(I, target.bound, env + b) {
      InContext(true, I, stage.fd.body, path, InlinedLet(target), env);
    }
  }

  // ---- rename_local ----

  lemma {:induction false} RewriteIsSubstitute(e: CExpr, x: string, y: string)
    ensures RewriteVar(e, x, y) == Substitute(e, x, Var(y))
    decreases e, 1
  {
    hide PatternNames, ParamNames;
    if e.Call? || e.Block? || e.Constructor? || e.RecordLit? || e.TupleLit? || e.ListLit? {
      RewriteIsSubstituteList(e, x, y);
    } else {
      match e
      case Let(_, _, bound, body) =>
        RewriteIsSubstitute(bound, x, y);
        RewriteIsSubstitute(body, x, y);
      case Match(scrutinee, arms) =>
        RewriteIsSubstitute(scrutinee, x, y);
        forall i | 0 <= i < |arms| { RewriteIsSubstitute(arms[i].body, x, y); }
      case FieldAccess(record, _) => RewriteIsSubstitute(record, x, y);
      case Lambda(_, _, _, _, body) => RewriteIsSubstitute(body, x, y);
      case BinOp(_, lhs, rhs) =>
        RewriteIsSubstitute(lhs, x, y);
        RewriteIsSubstitute(rhs, x, y);
      case UnaryOp(_, operand) => RewriteIsSubstitute(operand, x, y);
      case Return(result) => RewriteIsSubstitute(result, x, y);
      case _ =>
    }
  }

  lemma {:induction false} RewriteIsSubstituteList(e: CExpr, x: string, y: string)
    requires e.Call? || e.Block? || e.Constructor? || e.RecordLit? || e.TupleLit? || e.ListLit?
    ensures RewriteVar(e, x, y) == Substitute(e, x, Var(y))
    decreases e, 0
  {
    match e
    case Call(callee, args) =>
      RewriteIsSubstitute(callee, x, y);
      forall i | 0 <= i < |args| { RewriteIsSubstitute(args[i], x, y); }
    case Block(statements, result) =>
      forall i | 0 <= i < |statements| { RewriteIsSubstitute(statements[i], x, y); }
      RewriteIsSubstitute(result, x, y);
    case Constructor(_, args) => forall i | 0 <= i < |args| { RewriteIsSubstitute(args[i], x, y); }
    case RecordLit(fields) => forall i | 0 <= i < |fields| { RewriteIsSubstitute(fields[i].value, x, y); }
    case TupleLit(items) => forall i | 0 <= i < |items| { RewriteIsSubstitute(items[i], x, y); }
    case ListLit(items) => forall i | 0 <= i < |items| { RewriteIsSubstitute(items[i], x, y); }
  }

  // ---- extract_function ----

  /** No early return except inside a lambda. */
  predicate NoReturn(e: CExpr) {
    match e
    case Literal(_) | Var(_) | Lambda(_, _, _, _, _) => true
    case Call(callee, args) => NoReturn(callee) && forall i | 0 <= i < |args| :: NoReturn(args[i])
    case Let(_, _, bound, body) => NoReturn(bound) && NoReturn(body)
    case Match(scrutinee, arms) => NoReturn(scrutinee) && forall i | 0 <= i < |arms| :: NoReturn(arms[i].body)
    case Block(statements, result) =>
      NoReturn(result) && forall i | 0 <= i < |statements| :: NoReturn(statements[i])
    case Constructor(_, args) => forall i | 0 <= i < |args| :: NoReturn(args[i])
    case RecordLit(fields) => forall i | 0 <= i < |fields| :: NoReturn(fields[i].value)
    case TupleLit(items) => forall i | 0 <= i < |items| :: NoReturn(items[i])
    case ListLit(items) => forall i | 0 <= i < |items| :: NoReturn(items[i])
    case FieldAccess(record, _) => NoReturn(record)
    case BinOp(_, lhs, rhs) => NoReturn(lhs) && NoReturn(rhs)
    case UnaryOp(_, operand) => NoReturn(operand)
    case Return(_) => false
  }

  lemma {:induction false} NeverReturns<W>(I: Interp<W>, e: CExpr, env: Env, w: W)
    requires NoReturn(e)
    ensures !Eval(I, e, env, w).0.Ret?
    decreases e, 1
  {
    hide Denote, EvalAll, EvalFields, Pick;
    match e
    case Literal(_) | Var(_) | Lambda(_, _, _, _, _) =>
    case Call(callee, args) =>
      NeverReturns(I, callee, env, w);
      NeverStopsReturning(I, args, env, Eval(I, callee, env, w).1);
    case Let(name, _, bound, body) =>
      NeverReturns(I, bound, env, w);
      var (b, w1) := Eval(I, bound, env, w);
      if b.Val? { NeverReturns(I, body, env[name := b.v], w1); }
    case Match(scrutinee, arms) =>
      NeverReturns(I, scrutinee, env, w);
      var (s, w1) := Eval(I, scrutinee, env, w);
      if s.Val? {
        var pick := Pick(I, arms, s.v);
        if pick.Some? { NeverReturns(I, arms[pick.value.0].body, env + pick.value.1, w1); }
      }
    case Block(statements, result) =>
      NeverStopsReturning(I, statements, env, w);
      NeverReturns(I, result, env, EvalAll(I, statements, env, w).1);
    case Constructor(_, args) => NeverStopsReturning(I, args, env, w);
    case RecordLit(fields) => FieldsNeverReturn(I, fields, env, w);
    case TupleLit(items) => NeverStopsReturning(I, items, env, w);
    case ListLit(items) => NeverStopsReturning(I, items, env, w);
    case FieldAccess(record, _) => NeverReturns(I, record, env, w);
    case BinOp(_, lhs, rhs) =>
      NeverReturns(I, lhs, env, w);
      NeverReturns(I, rhs, env, Eval(I, lhs, env, w).1);
    case UnaryOp(_, operand) => NeverReturns(I, operand, env, w);
  }

  lemma {:induction false} NeverStopsReturning<W>(I: Interp<W>, es: seq<CExpr>, env: Env, w: W)
    requires forall i | 0 <= i < |es| :: NoReturn(es[i])
    ensures EvalAll(I, es, env, w).0 != Stop(Fail) ==> EvalAll(I, es, env, w).0.Vals?
    decreases es, 0
  {
    if es != [] {
      NeverReturns(I, es[0], env, w);
      NeverStopsReturning(I, es[1..], env, Eval(I, es[0], env, w).1);
    }
  }

  lemma {:induction false} FieldsNeverReturn<W>(I: Interp<W>, fs: seq<RecordField>, env: Env, w: W)
    requires forall i | 0 <= i < |fs| :: NoReturn(fs[i].value)
    ensures EvalFields(I, fs, env, w).0 != Stop(Fail) ==> EvalFields(I, fs, env, w).0.Vals?
    decreases fs, 0
  {
    if fs != [] {
      NeverReturns(I, fs[0].value, env, w);
      FieldsNeverReturn(I, fs[1..], env, Eval(I, fs[0].value, env, w).1);
    }
  }

  /** The program holds the function: its name is bound to something that behaves as its own body
      does, called in no environment but its own parameters. */
  ghost predicate Defines<W(!new)>(I: Interp<W>, fd: FnDecl) {
    fd.name in I.globals
    && forall args, w :: I.apply(I.globals[fd.name], args, w) == Denote(I, fd.params, fd.body, map[])(args, w)
  }

  /** The function has the signature that was asked for, no more effects, and no free name but its
      parameters. */
  ghost predicate Fits(spec: ExtractSpec, fd: FnDecl) {
    && fd.name == spec.name && fd.typeParams == spec.typeParams && fd.params == spec.params
    && fd.effects == spec.effects && fd.rowVar == None && fd.returnType == spec.returnType
    && FreeVars(fd.body) == ParamNames(fd.params)
  }

  /** The second stage returned is a function that fits the request, and whose body is the
      expression at the path; the first is the old function with the call there. */
  lemma Extracted(stage: Stage, id: string, spec: ExtractSpec)
    requires ExtractFunction(stage, id, spec).Ok?
    ensures BodyPath(stage, id, UnknownNode).Ok?
    ensures var path := BodyPath(stage, id, UnknownNode).value;
            var made := ExtractFunction(stage, id, spec).value;
            && made.1.FnStage? && Fits(spec, made.1.fd)
            && Navigate(stage.fd.body, path) == Some(made.1.fd.body)
            && made.0 == WithBody(stage, made.0.fd.body)
            && made.0.fd.body == ReplaceAt(stage.fd.body, path, CallOf(spec))
  {
    hide FreeVars, ParamNames, Navigate, ReplaceAt, CallOf, ParseNodeId;
  }

  ghost predicate InScope<W>(I: Interp<W>, names: set<string>, env: Env) {
    forall x | x in names :: Lookup(I, env, x).Val?
  }

  function Passed<W>(I: Interp<W>, params: seq<Param>, env: Env): seq<Value>
    requires InScope(I, ParamNames(params), env)
  {
    seq(|params|, i requires 0 <= i < |params| =>
      assert params[i].name in ParamNames(params); Lookup(I, env, params[i].name).v)
  }

  function ParamVars(params: seq<Param>): seq<CExpr> {
    seq(|params|, i requires 0 <= i < |params| => Var(params[i].name))
  }

  lemma {:induction false} PassesArguments<W>(I: Interp<W>, params: seq<Param>, env: Env, w: W)
    requires InScope(I, ParamNames(params), env)
    ensures EvalAll(I, ParamVars(params), env, w) == (Vals(Passed(I, params, env)), w)
    decreases |params|
  {
    if params != [] {
      var vars := ParamVars(params);
      assert vars[0] == Var(params[0].name) && vars[1..] == ParamVars(params[1..]);
      ScopeRest(I, params, env);
      PassesArguments(I, params[1..], env, w);
      var x := Lookup(I, env, params[0].name);
      assert x.Val? && Passed(I, params, env) == [x.v] + Passed(I, params[1..], env);
      assert Eval(I, vars[0], env, w) == (x, w);
    }
  }

  /** Parameters of one name are passed equal values, so each name is bound to what it stood for. */
  lemma {:induction false} BindsPassed<W>(I: Interp<W>, params: seq<Param>, env: Env)
    requires InScope(I, ParamNames(params), env)
    ensures var b := Bind(params, Passed(I, params, env));
            b.Keys == ParamNames(params) && forall x | x in b :: Val(b[x]) == Lookup(I, env, x)
    decreases |params|
  {
    BindKeys(params, Passed(I, params, env));
    if params != [] {
      ScopeRest(I, params, env);
      BindsPassed(I, params[1..], env);
      assert Passed(I, params, env)[1..] == Passed(I, params[1..], env);
    }
  }

  lemma ScopeRest<W>(I: Interp<W>, params: seq<Param>, env: Env)
    requires params != [] && InScope(I, ParamNames(params), env)
    ensures InScope(I, ParamNames(params[1..]), env) && params[0].name in ParamNames(params)
  {
    forall x | x in ParamNames(params[1..]) ensures x in ParamNames(params) {
      var i :| 0 <= i < |params[1..]| && params[1..][i].name == x;
      assert params[i + 1].name == x;
    }
  }

  /** In scope, the call means what the body means, but for an early return, which stops at the call. */
  lemma CallMeaning<W(!new)>(I: Interp<W>, spec: ExtractSpec, fd: FnDecl, env: Env, w: W)
    requires Extensional(I) && Fits(spec, fd) && Defines(I, fd)
    requires spec.name !in env && InScope(I, FreeVars(fd.body), env)
    ensures var o := Eval(I, fd.body, env, w);
            Eval(I, CallOf(spec), env, w) == (FromOption(Enter(o.0)), o.1)
  {
    hide Extensional, FreeVars, ParamNames;
    var e := fd.body;
    var args := Passed(I, spec.params, env);
    PassesArguments(I, spec.params, env, w);
    var inner := map[] + Bind(spec.params, args);
    assert AgreeOn(I, FreeVars(e), env, inner) by { ParamsAgree(I, spec.params, env); }
    Coincidence(I, e, env, inner);
    assert Agree(true, Eval(I, e, env, w), Eval(I, e, inner, w));
    assert CallOf(spec).args == ParamVars(spec.params);
    assert Eval(I, Var(spec.name), env, w) == (Val(I.globals[spec.name]), w);
    assert Denote(I, spec.params, e, map[])(args, w) == (Enter(Eval(I, e, inner, w).0), Eval(I, e, inner, w).1);
  }

  lemma ParamsAgree<W>(I: Interp<W>, params: seq<Param>, env: Env)
    requires InScope(I, ParamNames(params), env)
    ensures AgreeOn(I, ParamNames(params), env, map[] + Bind(params, Passed(I, params, env)))
  {
    BindsPassed(I, params, env);
  }

  ghost predicate CallsOf<W(!new)>(I: Interp<W>, e: CExpr, c: CExpr, env: Env) {
    forall w: W :: CallsTo(Eval(I, e, env, w), Eval(I, c, env, w))
  }

  ghost predicate CallsTo<W>(o: (Outcome, W), d: (Outcome, W)) {
    d == (FromOption(Enter(o.0)), o.1)
  }

  ghost predicate NeverReturning<W(!new)>(I: Interp<W>, e: CExpr, env: Env) {
    forall w: W :: !Eval(I, e, env, w).0.Ret?
  }

  /** In scope, extraction keeps the meaning exactly when the expression never returns early. */
  lemma ExtractExact<W(!new)>(I: Interp<W>, spec: ExtractSpec, fd: FnDecl, env: Env)
    requires Extensional(I) && Fits(spec, fd) && Defines(I, fd)
    requires spec.name !in env && InScope(I, FreeVars(fd.body), env)
    ensures Same(true, I, fd.body, env, CallOf(spec), env) <==> NeverReturning(I, fd.body, env)
    ensures NoReturn(fd.body) ==> Same(true, I, fd.body, env, CallOf(spec), env)
  {
    hide Extensional, FreeVars, ParamNames, Defines, Fits, Eval, NoReturn;
    var e := fd.body;
    forall w: W
      ensures CallsTo(Eval(I, e, env, w), Eval(I, CallOf(spec), env, w))
      ensures NoReturn(e) ==> !Eval(I, e, env, w).0.Ret?
    {
      CallMeaning(I, spec, fd, env, w);
      if NoReturn(e) { NeverReturns(I, e, env, w); }
    }
    CallsAgree(I, e, CallOf(spec), env);
  }

  lemma CallsAgree<W(!new)>(I: Interp<W>, e: CExpr, c: CExpr, env: Env)
    requires CallsOf(I, e, c, env)
    ensures Same(true, I, e, env, c, env) <==> NeverReturning(I, e, env)
  {
    hide *;
    if NeverReturning(I, e, env) {
      KeptByCall(I, e, c, env);
    }
    if Same(true, I, e, env, c, env) {
      NotReturning(I, e, c, env);
    }
  }

  lemma KeptByCall<W(!new)>(I: Interp<W>, e: CExpr, c: CExpr, env: Env)
    requires CallsOf(I, e, c, env) && NeverReturning(I, e, env)
    ensures Same(true, I, e, env, c, env)
  {
    hide Eval, FromOption, Enter;
    forall w: W ensures Agree(true, Eval(I, e, env, w), Eval(I, c, env, w)) {
      KeptUnlessReturned(Eval(I, e, env, w), Eval(I, c, env, w));
    }
  }

  lemma NotReturning<W(!new)>(I: Interp<W>, e: CExpr, c: CExpr, env: Env)
    requires CallsOf(I, e, c, env) && Same(true, I, e, env, c, env)
    ensures NeverReturning(I, e, env)
  {
    hide Eval, FromOption, Enter;
    forall w: W ensures !Eval(I, e, env, w).0.Ret? {
      assert Agree(true, Eval(I, e, env, w), Eval(I, c, env, w));
      KeptUnlessReturned(Eval(I, e, env, w), Eval(I, c, env, w));
    }
  }

  lemma KeptUnlessReturned<W>(o: (Outcome, W), d: (Outcome, W))
    requires CallsTo(o, d)
    ensures o == d <==> !o.0.Ret?
  {
  }

  /** `extract_function` on a whole function: when the program holds the function it returned, that
      name is not bound at the site, the returned function's names are in scope there and it has no
      early return, the old function means what it meant. */
  lemma ExtractFunctionMeaning<W(!new)>(I: Interp<W>, stage: Stage, id: string, spec: ExtractSpec, env: Env)
    requires Extensional(I) && ExtractFunction(stage, id, spec).Ok?
    requires var made := ExtractFunction(stage, id, spec).value.1;
             var bound := BoundAlong(stage.fd.body, BodyPath(stage, id, UnknownNode).value);
             && made.FnStage? && NoReturn(made.fd.body) && Defines(I, made.fd)
             && made.fd.name !in env.Keys + bound
             && FreeVars(made.fd.body) <= env.Keys + I.globals.Keys + bound
    ensures var r := ExtractFunction(stage, id, spec).value.0;
            r == WithBody(stage, r.fd.body) && Same(true, I, stage.fd.body, env, r.fd.body, env)
  {
    hide Extensional, Eval, Same, NoReturn, Defines, ReplaceAt, Navigate, BoundAlong, FreeVars, ParamNames, CallOf,
         ExtractFunction;
    Extracted(stage, id, spec);
    var path := BodyPath(stage, id, UnknownNode).value;
    var fd := ExtractFunction(stage, id, spec).value.1.fd;
    var target := fd.body;
    forall b: Env | b.Keys == BoundAlong(stage.fd.body, path)
      ensures Same(true, I, target, env + b, CallOf(spec), env + b)
    {
      assert spec.name !in env + b;
      assert InScope(I, FreeVars(target), env + b);
      ExtractExact(I, spec, fd, env + b);
    }
    InContext(true, I, stage.fd.body, path, CallOf(spec), env);
  }

  /** An early return does not survive extraction: `{ return 1; 2 }` returns 1, and 2 once its
      statement is a call. */
  lemma ReturnDoesNotExtract<W(!new)>(I: Interp<W>, stage: Stage, spec: ExtractSpec, env: Env, w: W)
    requires stage.FnStage? && stage.fd.params == [] && spec.params == [] && spec.name !in env
    requires stage.fd.body == Block([Return(Literal(Int(1)))], Literal(Int(2)))
    requires var r := ExtractFunction(stage, "n_0.1.0", spec);
             Extensional(I) && (r.Ok? && r.value.1.FnStage? ==> Defines(I, r.value.1.fd))
    ensures var r := ExtractFunction(stage, "n_0.1.0", spec);
            && r.Ok? && Eval(I, stage.fd.body, env, w).0 == Ret(VLit(Int(1)))
            && Eval(I, r.value.0.fd.body, env, w).0 == Val(VLit(Int(2)))
  {
    ExtractsReturn(stage, spec);
    Extracted(stage, "n_0.1.0", spec);
    assert ParamNames(spec.params) == {};
    hide ExtractFunction, FreeVars, ParamNames, Eval;
    var one, two := Return(Literal(Int(1))), Literal(Int(2));
    EvalReturn(I, env, w);
    BlockOfTwo(I, one, two, env, w);
    CallMeaning(I, spec, ExtractFunction(stage, "n_0.1.0", spec).value.1.fd, env, w);
    BlockOfTwo(I, CallOf(spec), two, env, w);
  }

  lemma EvalReturn<W>(I: Interp<W>, env: Env, w: W)
    ensures Eval(I, Return(Literal(Int(1))), env, w) == (Ret(VLit(Int(1))), w)
    ensures Eval(I, Literal(Int(2)), env, w) == (Val(VLit(Int(2))), w)
  {
  }

  lemma ExtractsReturn(stage: Stage, spec: ExtractSpec)
    requires stage.FnStage? && stage.fd.params == [] && spec.params == []
    requires stage.fd.body == Block([Return(Literal(Int(1)))], Literal(Int(2)))
    ensures var r := ExtractFunction(stage, "n_0.1.0", spec);
            && r.Ok? && r.value.0.fd.body == Block([CallOf(spec)], Literal(Int(2)))
            && r.value.1.fd.body == Return(Literal(Int(1)))
    ensures FreeVars(Return(Literal(Int(1)))) == ParamNames(spec.params)
  {
    ReadsExample();
    hide ParseNodeId;
    var body := stage.fd.body;
    var one := body.statements[0];
    assert StepExpr(body, 0) == Some(one) && [0][1..] == [] && [1, 0][1..] == [0];
    assert Navigate(body, [0]) == Navigate(one, []);
    assert ReplaceAt(body, [0], CallOf(spec)) == SetChild(body, 0, ReplaceAt(one, [], CallOf(spec)));
    assert body.statements[0 := CallOf(spec)] == [CallOf(spec)];
    assert FreeVars(one) == FreeVars(Literal(Int(1)));
  }

  lemma BlockOfTwo<W>(I: Interp<W>, first: CExpr, last: CExpr, env: Env, w: W)
    ensures var o := Eval(I, first, env, w);
            Eval(I, Block([first], last), env, w) == if o.0.Val? then Eval(I, last, env, o.1) else o
  {
    assert [first][1..] == [];
    assert EvalAll(I, [first][1..], env, Eval(I, first, env, w).1).0 == Vals([]);
  }

  lemma ReadsExample()
    ensures ParseNodeId("n_0.1.0") == Some([1, 0])
  {
    assert Text.Show(1) == "1" && Text.Show(0) == "0";
    assert Steps([1, 0]) == ["1", "0"];
    assert Text.Join(["0", "1", "0"], '.') == "0.1.0" by {
      assert ["0", "1", "0"][1..] == ["1", "0"] && ["1", "0"][1..] == ["0"];
      assert Text.Join(["1", "0"], '.') == "1.0";
    }
    assert ["0"] + Steps([1, 0]) == ["0", "1", "0"];
    IdRoundTrip([1, 0]);
  }
}
