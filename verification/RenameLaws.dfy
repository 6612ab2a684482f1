/** Renaming a let (crates/lex-ast/src/transforms.rs:152-191, 503-558): it checks for no capture, so what it
    keeps depends on where the new name is free or bound. */
module RenameLaws {
  import opened Options
  import opened Ast
  import opened Meaning
  import opened EvalLaws
  import opened AstKids
  import opened NodePaths
  import opened Transforms
  import opened TransformLaws
  import opened TreeWalks
  import Text

  /** No free occurrence of `x` lies below a binder of `y`. */
  predicate CaptureFree(e: CExpr, x: string, y: string) {
    forall i | 0 <= i < |Kids(e)| ::
      x in KidBinds(e, i) || x !in FreeVars(Kids(e)[i]) || (y !in KidBinds(e, i) && CaptureFree(Kids(e)[i], x, y))
  }

  /** The new name is not free in the expression and captures no occurrence of the old one. */
  predicate RenameSafe(e: CExpr, x: string, y: string) {
    y !in FreeVars(e) && CaptureFree(e, x, y)
  }

  // ---- renaming, part by part ----

  function RenamedKid(e: CExpr, i: nat, x: string, y: string): CExpr
    requires i < |Kids(e)|
  {
    if x in KidBinds(e, i) then Kids(e)[i] else RewriteVar(Kids(e)[i], x, y)
  }

  function RenamedKids(e: CExpr, x: string, y: string): (ks: seq<CExpr>)
    ensures |ks| == |Kids(e)|
  {
    seq(|Kids(e)|, i requires 0 <= i < |Kids(e)| => RenamedKid(e, i, x, y))
  }

  lemma RenameByKids(e: CExpr, x: string, y: string)
    requires !e.Var?
    ensures RewriteVar(e, x, y) == WithKids(e, RenamedKids(e, x, y))
  {
    hide Kids, KidBinds, RewriteVar, Substitute, WithKids;
    var ks := RenamedKids(e, x, y);
    forall i | 0 <= i < |ks| ensures ks[i] == SubstituteKid(e, i, x, Var(y)) {
      RewriteIsSubstitute(Kids(e)[i], x, y);
    }
    SubstituteByKids(e, x, Var(y), ks);
    RewriteIsSubstitute(e, x, y);
  }

  lemma StaysVar(e: CExpr, ks: seq<CExpr>)
    requires |ks| == |Kids(e)|
    ensures WithKids(e, ks).Var? <==> e.Var?
  {
  }

  /** The same node around the same parts is the same expression, and only then. */
  lemma SameByKids(e: CExpr, ks: seq<CExpr>)
    requires |ks| == |Kids(e)|
    ensures WithKids(e, ks) == e <==> ks == Kids(e)
  {
    hide Kids, WithKids;
    KidsOfWith(e, ks);
    WithSameKids(e);
  }

  lemma WithKidsTwice(e: CExpr, ks: seq<CExpr>, js: seq<CExpr>)
    requires |ks| == |js| == |Kids(e)| && Kids(WithKids(e, ks)) == ks
    ensures WithKids(WithKids(e, ks), js) == WithKids(e, js)
  {
    if e.Match? || e.RecordLit? {
      ArmsTwice(e, ks, js);
    }
  }

  lemma ArmsTwice(e: CExpr, ks: seq<CExpr>, js: seq<CExpr>)
    requires |ks| == |js| == |Kids(e)| && Kids(WithKids(e, ks)) == ks && (e.Match? || e.RecordLit?)
    ensures WithKids(WithKids(e, ks), js) == WithKids(e, js)
  {
    if e.Match? {
      assert WithKids(WithKids(e, ks), js).arms == WithKids(e, js).arms;
    } else {
      assert WithKids(WithKids(e, ks), js).fields == WithKids(e, js).fields;
    }
  }

  /** Renaming a variable that is not free changes nothing; renaming one that is changes something. */
  lemma {:induction false} RenameAbsent(e: CExpr, x: string, y: string)
    ensures x !in FreeVars(e) ==> RewriteVar(e, x, y) == e
    ensures x != y && x in FreeVars(e) ==> RewriteVar(e, x, y) != e
    decreases e
  {
    if !e.Var? {
      hide Kids, KidBinds, RewriteVar, FreeVars, WithKids;
      RenameByKids(e, x, y);
      FreeVarsBelow(e, x);
      SameByKids(e, RenamedKids(e, x, y));
      forall i | 0 <= i < |Kids(e)|
        ensures x !in FreeVars(Kids(e)[i]) ==> RewriteVar(Kids(e)[i], x, y) == Kids(e)[i]
        ensures x != y && x in FreeVars(Kids(e)[i]) ==> RewriteVar(Kids(e)[i], x, y) != Kids(e)[i]
      {
        RenameAbsent(Kids(e)[i], x, y);
      }
      AbsentKids(e, x, y);
    }
  }

  lemma AbsentKids(e: CExpr, x: string, y: string)
    requires forall i | 0 <= i < |Kids(e)| ::
               && (x !in FreeVars(Kids(e)[i]) ==> RewriteVar(Kids(e)[i], x, y) == Kids(e)[i])
               && (x != y && x in FreeVars(Kids(e)[i]) ==> RewriteVar(Kids(e)[i], x, y) != Kids(e)[i])
    ensures !FreeBelow(e, x) ==> RenamedKids(e, x, y) == Kids(e)
    ensures x != y && FreeBelow(e, x) ==> RenamedKids(e, x, y) != Kids(e)
  {
    hide Kids, KidBinds, RewriteVar, FreeVars;
    if x != y && FreeBelow(e, x) {
      var i :| 0 <= i < |Kids(e)| && x in FreeVars(Kids(e)[i]) && x !in KidBinds(e, i);
      assert RenamedKids(e, x, y)[i] != Kids(e)[i];
    }
  }

  /** The old name is gone. */
  lemma {:induction false} RenameRemoves(e: CExpr, x: string, y: string)
    requires x != y
    ensures x !in FreeVars(RewriteVar(e, x, y))
    decreases e
  {
    if !e.Var? {
      hide Kids, KidBinds, RewriteVar, FreeVars, WithKids;
      var ks := RenamedKids(e, x, y);
      RenameByKids(e, x, y);
      KidsOfWith(e, ks);
      StaysVar(e, ks);
      FreeVarsBelow(WithKids(e, ks), x);
      forall i | 0 <= i < |ks| ensures x in KidBinds(e, i) || x !in FreeVars(ks[i]) {
        RenameRemoves(Kids(e)[i], x, y);
      }
    }
  }

  // ---- undoing a renaming ----

  lemma AbsentIsFree(e: CExpr, x: string, y: string)
    requires x !in FreeVars(e)
    ensures CaptureFree(e, x, y)
  {
    if !e.Var? {
      FreeVarsBelow(e, x);
      hide Kids, KidBinds, FreeVars;
    }
  }

  ghost predicate KidBack(e: CExpr, i: nat, x: string, y: string)
    requires i < |Kids(e)|
  {
    (if y in KidBinds(e, i) then RenamedKid(e, i, x, y) else RewriteVar(RenamedKid(e, i, x, y), y, x)) == Kids(e)[i]
  }

  ghost predicate KidSafe(e: CExpr, i: nat, x: string, y: string)
    requires i < |Kids(e)|
  {
    && (y !in FreeVars(Kids(e)[i]) || y in KidBinds(e, i))
    && (x in KidBinds(e, i) || x !in FreeVars(Kids(e)[i]) || (y !in KidBinds(e, i) && CaptureFree(Kids(e)[i], x, y)))
  }

  lemma SafeByKids(e: CExpr, x: string, y: string)
    requires !e.Var?
    ensures RenameSafe(e, x, y) <==> forall i | 0 <= i < |Kids(e)| :: KidSafe(e, i, x, y)
  {
    FreeVarsBelow(e, y);
    hide Kids, KidBinds, FreeVars;
    if RenameSafe(e, x, y) {
      forall i | 0 <= i < |Kids(e)| ensures KidSafe(e, i, x, y) {
        assert x in KidBinds(e, i) || x !in FreeVars(Kids(e)[i]) || (y !in KidBinds(e, i) && CaptureFree(Kids(e)[i], x, y));
      }
    }
    if forall i | 0 <= i < |Kids(e)| :: KidSafe(e, i, x, y) {
      assert FreeBelow(e, y) ==> exists i | 0 <= i < |Kids(e)| :: KidSafe(e, i, x, y) && y in FreeVars(Kids(e)[i]) && y !in KidBinds(e, i);
      assert CaptureFree(e, x, y) by { hide FreeBelow; SafeCaptureFree(e, x, y); }
    }
  }

  lemma SafeCaptureFree(e: CExpr, x: string, y: string)
    requires forall i | 0 <= i < |Kids(e)| :: KidSafe(e, i, x, y)
    ensures CaptureFree(e, x, y)
  {
    hide Kids, KidBinds, FreeVars;
    forall i | 0 <= i < |Kids(e)|
      ensures x in KidBinds(e, i) || x !in FreeVars(Kids(e)[i]) || (y !in KidBinds(e, i) && CaptureFree(Kids(e)[i], x, y))
    {
      assert KidSafe(e, i, x, y);
    }
  }

  lemma BackByKids(e: CExpr, x: string, y: string)
    requires !e.Var?
    ensures RewriteVar(RewriteVar(e, x, y), y, x) == e <==> forall i | 0 <= i < |Kids(e)| :: KidBack(e, i, x, y)
  {
    hide Kids, KidBinds, RewriteVar, FreeVars, WithKids;
    var ks := RenamedKids(e, x, y);
    var r := WithKids(e, ks);
    RenameByKids(e, x, y);
    KidsOfWith(e, ks);
    StaysVar(e, ks);
    RenameByKids(r, y, x);
    var js := RenamedKids(r, y, x);
    WithKidsTwice(e, ks, js);
    SameByKids(e, js);
    assert forall i | 0 <= i < |ks| :: js[i] == Kids(e)[i] <==> KidBack(e, i, x, y);
  }

  /** Renaming back undoes a renaming exactly when the new name was not free and captured nothing. */
  lemma {:induction false} RenameBackExact(e: CExpr, x: string, y: string)
    requires x != y
    ensures RewriteVar(RewriteVar(e, x, y), y, x) == e <==> RenameSafe(e, x, y)
    decreases e
  {
    if !e.Var? {
      hide Kids, KidBinds, RewriteVar, FreeVars, RenameSafe, KidSafe, KidBack;
      SafeByKids(e, x, y);
      BackByKids(e, x, y);
      forall i | 0 <= i < |Kids(e)| ensures KidSafe(e, i, x, y) <==> KidBack(e, i, x, y) {
        RenameBackExact(Kids(e)[i], x, y);
        KidBackExact(e, i, x, y);
      }
    }
  }

  lemma KidBackExact(e: CExpr, i: nat, x: string, y: string)
    requires x != y && i < |Kids(e)|
    requires RewriteVar(RewriteVar(Kids(e)[i], x, y), y, x) == Kids(e)[i] <==> RenameSafe(Kids(e)[i], x, y)
    ensures KidSafe(e, i, x, y) <==> KidBack(e, i, x, y)
  {
    hide Kids, KidBinds, RewriteVar, FreeVars, CaptureFree;
    RenameAbsent(Kids(e)[i], x, y);
    RenameAbsent(Kids(e)[i], y, x);
    if x !in FreeVars(Kids(e)[i]) { AbsentIsFree(Kids(e)[i], x, y); }
  }

  /** So `rename_local` back to the old name under the same id restores the identical stage exactly when it
      captured nothing. */
  lemma RenameLocalBack(stage: Stage, id: string, name: string)
    requires RenameLocal(stage, id, name).Ok?
    ensures var target := Navigate(stage.fd.body, BodyPath(stage, id, NotALet).value).value;
            RenameLocal(RenameLocal(stage, id, name).value, id, target.name) == Ok(stage)
            <==> RenameSafe(target.body, target.name, name)
  {
    var path := BodyPath(stage, id, NotALet).value;
    var target := Navigate(stage.fd.body, path).value;
    var there := RenamedLet(target, name);
    hide RenameSafe;
    RenameBackExact(target.body, target.name, name);
    ReplaceThenNavigate(stage.fd.body, path, there);
    var back := RenamedLet(there, target.name);
    ReplaceThenNavigate(ReplaceAt(stage.fd.body, path, there), path, back);
    hide ReplaceAt, Navigate, RewriteVar, ParseNodeId;
    assert back == target <==> RewriteVar(RewriteVar(target.body, target.name, name), name, target.name) == target.body;
  }

  // ---- meaning ----

  lemma AlikeUnder<W>(I: Interp<W>, x: string, y: string, env: Env, b: Env)
    requires x in env && y in env && env[x] == env[y] && x !in b && y !in b
    ensures x in env + b && y in env + b && (env + b)[x] == (env + b)[y]
  {
  }

  /** Where both names stand for one value, renaming keeps the meaning of what it captures nothing in. */
  lemma {:induction false} RenameSame<W(!new)>(I: Interp<W>, e: CExpr, x: string, y: string, env: Env)
    requires Extensional(I) && x in env && y in env && env[x] == env[y] && CaptureFree(e, x, y)
    ensures Same(true, I, e, env, RewriteVar(e, x, y), env)
    decreases e, 1
  {
    if !e.Var? {
      hide Extensional, Kids, KidBinds, RewriteVar, FreeVars, WithKids, Same, UnderSame;
      RenameByKids(e, x, y);
      var ks := RenamedKids(e, x, y);
      forall i | 0 <= i < |ks| ensures UnderSame(true, I, KidBinds(e, i), Kids(e)[i], env, ks[i], env) {
        RenameSameUnder(I, e, i, x, y, env);
      }
      KidsCongruence(I, e, ks, env);
    }
  }

  lemma {:induction false} RenameSameUnder<W(!new)>(I: Interp<W>, e: CExpr, i: nat, x: string, y: string, env: Env)
    requires Extensional(I) && x in env && y in env && env[x] == env[y] && CaptureFree(e, x, y) && i < |Kids(e)|
    ensures UnderSame(true, I, KidBinds(e, i), Kids(e)[i], env, RenamedKid(e, i, x, y), env)
    decreases e, 0
  {
    var kid, after := Kids(e)[i], RenamedKid(e, i, x, y);
    hide Extensional, Kids, KidBinds, RewriteVar, FreeVars, Same;
    forall b: Env | b.Keys == KidBinds(e, i) ensures Same(true, I, kid, env + b, after, env + b) {
      if x in KidBinds(e, i) || x !in FreeVars(kid) {
        RenameAbsent(kid, x, y);
        Reflexive(true, I, kid, env + b, env + b);
      } else {
        AlikeUnder(I, x, y, env, b);
        RenameSame(I, kid, x, y, env + b);
      }
    }
  }

  /** Renaming a let keeps its meaning when the new name is not free in its body and captures nothing. */
  lemma RenameMeaning<W(!new)>(I: Interp<W>, e: CExpr, name: string, env: Env)
    requires Extensional(I) && e.Let? && RenameSafe(e.body, e.name, name)
    ensures Same(true, I, e, env, RenamedLet(e, name), env)
  {
    hide Extensional, RewriteVar, RenameSafe;
    forall w: W ensures Eval(I, e, env, w) == Eval(I, RenamedLet(e, name), env, w) {
      var b := Eval(I, e.bound, env, w);
      if b.0.Val? {
        RenameBody(I, e.body, e.name, name, b.0.v, env);
        assert Agree(true, Eval(I, e.body, env[e.name := b.0.v], b.1),
                     Eval(I, RewriteVar(e.body, e.name, name), env[name := b.0.v], b.1));
      }
    }
  }

  lemma RenameBody<W(!new)>(I: Interp<W>, body: CExpr, x: string, y: string, u: Value, env: Env)
    requires Extensional(I) && RenameSafe(body, x, y)
    ensures Same(true, I, body, env[x := u], RewriteVar(body, x, y), env[y := u])
  {
    hide Extensional, RewriteVar, FreeVars, CaptureFree, Same;
    var after := RewriteVar(body, x, y);
    if x == y {
      RenameAbsent(body, x, y);
      Reflexive(true, I, body, env[x := u], env[y := u]);
    } else {
      var both := env[x := u][y := u];
      assert AgreeOn(I, FreeVars(body), env[x := u], both);
      Coincidence(I, body, env[x := u], both);
      RenameSame(I, body, x, y, both);
      RenameRemoves(body, x, y);
      assert AgreeOn(I, FreeVars(after), both, env[y := u]);
      Coincidence(I, after, both, env[y := u]);
      SameChain(I, body, env[x := u], body, both, after, both);
      SameChain(I, body, env[x := u], after, both, after, env[y := u]);
    }
  }

  /** `rename_local` to such a name keeps the meaning of the whole function. */
  lemma RenameLocalMeaning<W(!new)>(I: Interp<W>, stage: Stage, id: string, name: string, env: Env)
    requires Extensional(I) && RenameLocal(stage, id, name).Ok?
    requires var target := Navigate(stage.fd.body, BodyPath(stage, id, NotALet).value).value;
             RenameSafe(target.body, target.name, name)
    ensures var r := RenameLocal(stage, id, name).value;
            r == WithBody(stage, r.fd.body) && Same(true, I, stage.fd.body, env, r.fd.body, env)
  {
    hide Extensional, Eval, Same, RenameSafe, ReplaceAt, Navigate, BoundAlong, RenamedLet;
    var path := BodyPath(stage, id, NotALet).value;
    var target := Navigate(stage.fd.body, path).value;
    forall b: Env ensures Same(true, I, target, env + b, RenamedLet(target, name), env + b) {
      RenameMeaning(I, target, name, env + b);
    }
    InContext(true, I, stage.fd.body, path, RenamedLet(target, name), env);
  }

  /** A captured occurrence: `let x = a; let y = b; x` is accepted for renaming x to y and then means b. */
  lemma RenameCaptures<W>(I: Interp<W>, stage: Stage, x: string, y: string, a: CLit, b: CLit, env: Env, w: W)
    requires stage.FnStage? && |stage.fd.params| + 1 < Text.USIZE_LIMIT && x != y
    requires stage.fd.body == Let(x, None, Literal(a), Let(y, None, Literal(b), Var(x)))
    ensures var r := RenameLocal(stage, IdText([|stage.fd.params| + 1]), y);
            && r.Ok? && !RenameSafe(stage.fd.body.body, x, y)
            && Eval(I, stage.fd.body, env, w) == (Val(VLit(a)), w)
            && Eval(I, r.value.fd.body, env, w) == (Val(VLit(b)), w)
  {
    var head := |stage.fd.params| + 1;
    IdRoundTrip([head]);
    hide IdText, ParseNodeId;
    assert [head][1..] == [];
    var inner := stage.fd.body.body;
    assert Kids(inner)[1] == Var(x) && KidBinds(inner, 1) == {y};
    TwoLets(I, x, a, y, b, x, env, w);
    TwoLets(I, y, a, y, b, y, env, w);
    RenamedTwoLets(x, a, y, b);
    hide Eval, RewriteVar, RenamedLet;
  }

  lemma RenamedTwoLets(x: string, a: CLit, y: string, b: CLit)
    requires x != y
    ensures RenamedLet(Let(x, None, Literal(a), Let(y, None, Literal(b), Var(x))), y)
         == Let(y, None, Literal(a), Let(y, None, Literal(b), Var(y)))
  {
    assert RewriteVar(Let(y, None, Literal(b), Var(x)), x, y) == Let(y, None, RewriteVar(Literal(b), x, y), RewriteVar(Var(x), x, y));
  }

  lemma TwoLets<W>(I: Interp<W>, x: string, a: CLit, y: string, b: CLit, z: string, env: Env, w: W)
    ensures Eval(I, Let(x, None, Literal(a), Let(y, None, Literal(b), Var(z))), env, w)
         == (Lookup(I, env[x := VLit(a)][y := VLit(b)], z), w)
  {
    var inner := Let(y, None, Literal(b), Var(z));
    assert Eval(I, inner, env[x := VLit(a)], w) == (Lookup(I, env[x := VLit(a)][y := VLit(b)], z), w);
  }
}
