/** The expressions directly below an expression, in order, and rebuilding around new ones. */
module AstKids {
  import opened Ast
  import opened Meaning
  import opened EvalLaws

  function ArmBodies(arms: seq<Arm>): seq<CExpr> {
    seq(|arms|, i requires 0 <= i < |arms| => arms[i].body)
  }

  function Kids(e: CExpr): (kids: seq<CExpr>)
    ensures forall i | 0 <= i < |kids| :: kids[i] < e
  {
    match e
    case Literal(_) | Var(_) => []
    case Call(callee, args) => [callee] + args
    case Let(_, _, bound, body) => [bound, body]
    case Match(scrutinee, arms) => [scrutinee] + ArmBodies(arms)
    case Block(statements, result) => statements + [result]
    case Constructor(_, args) => args
    case RecordLit(fields) => FieldValues(fields)
    case TupleLit(items) => items
    case ListLit(items) => items
    case FieldAccess(record, _) => [record]
    case Lambda(_, _, _, _, body) => [body]
    case BinOp(_, lhs, rhs) => [lhs, rhs]
    case UnaryOp(_, operand) => [operand]
    case Return(result) => [result]
  }

  function WithKids(e: CExpr, ks: seq<CExpr>): CExpr
    requires |ks| == |Kids(e)|
  {
    match e
    case Literal(_) | Var(_) => e
    case Call(_, _) => Call(ks[0], ks[1..])
    case Let(name, ty, _, _) => Let(name, ty, ks[0], ks[1])
    case Match(_, arms) =>
      Match(ks[0], seq(|arms|, i requires 0 <= i < |arms| => Arm(arms[i].pattern, ks[i + 1])))
    case Block(statements, _) => Block(ks[..|statements|], ks[|statements|])
    case Constructor(name, _) => Constructor(name, ks)
    case RecordLit(fields) =>
      RecordLit(seq(|fields|, i requires 0 <= i < |fields| => RecordField(fields[i].name, ks[i])))
    case TupleLit(_) => TupleLit(ks)
    case ListLit(_) => ListLit(ks)
    case FieldAccess(_, field) => FieldAccess(ks[0], field)
    case Lambda(params, returnType, effects, rowVar, _) => Lambda(params, returnType, effects, rowVar, ks[0])
    case BinOp(op, _, _) => BinOp(op, ks[0], ks[1])
    case UnaryOp(op, _) => UnaryOp(op, ks[0])
    case Return(_) => Return(ks[0])
  }

  /** Names bound for the `i`-th of them. */
  function KidBinds(e: CExpr, i: nat): set<string>
    requires i < |Kids(e)|
  {
    match e
    case Let(name, _, _, _) => if i == 1 then {name} else {}
    case Match(_, arms) => if i == 0 then {} else PatternNames(arms[i - 1].pattern)
    case Lambda(params, _, _, _, _) => ParamNames(params)
    case _ => {}
  }

  lemma WithSameKids(e: CExpr)
    ensures WithKids(e, Kids(e)) == e
  {
    match e
    case Match(_, arms) => assert WithKids(e, Kids(e)).arms == arms;
    case RecordLit(fields) => assert WithKids(e, Kids(e)).fields == fields;
    case Block(statements, _) => assert Kids(e)[..|statements|] == statements;
    case Call(_, args) => assert Kids(e)[1..] == args;
    case _ =>
  }

  lemma KidsOfWith(e: CExpr, ks: seq<CExpr>)
    requires |ks| == |Kids(e)|
    ensures Kids(WithKids(e, ks)) == ks
    ensures forall i | 0 <= i < |ks| :: KidBinds(WithKids(e, ks), i) == KidBinds(e, i)
  {
    hide PatternNames, ParamNames;
    if e.Match? {
      KidsOfMatch(e, ks);
    } else if e.Call? || e.Block? || e.RecordLit? {
      KidsOfLists(e, ks);
    } else {
      KidsOfOthers(e, ks);
    }
  }

  lemma KidsOfMatch(e: CExpr, ks: seq<CExpr>)
    requires e.Match? && |ks| == |Kids(e)|
    ensures Kids(WithKids(e, ks)) == ks
    ensures forall i | 0 <= i < |ks| :: KidBinds(WithKids(e, ks), i) == KidBinds(e, i)
  {
    hide PatternNames;
    var arms := WithKids(e, ks).arms;
    assert |arms| == |e.arms| && forall i | 0 <= i < |arms| :: arms[i] == Arm(e.arms[i].pattern, ks[i + 1]);
  }

  lemma KidsOfLists(e: CExpr, ks: seq<CExpr>)
    requires (e.Call? || e.Block? || e.RecordLit?) && |ks| == |Kids(e)|
    ensures Kids(WithKids(e, ks)) == ks
    ensures forall i | 0 <= i < |ks| :: KidBinds(WithKids(e, ks), i) == KidBinds(e, i)
  {
    match e
    case Call(_, _) => assert ks == [ks[0]] + ks[1..];
    case Block(statements, _) => assert ks == ks[..|statements|] + [ks[|statements|]];
    case RecordLit(_) =>
  }

  lemma KidsOfOthers(e: CExpr, ks: seq<CExpr>)
    requires !e.Match? && !e.Call? && !e.Block? && !e.RecordLit? && |ks| == |Kids(e)|
    ensures Kids(WithKids(e, ks)) == ks
    ensures forall i | 0 <= i < |ks| :: KidBinds(WithKids(e, ks), i) == KidBinds(e, i)
  {
    hide ParamNames;
  }

  /** A variable is free in an expression when it is free in a part that does not bind it. */
  ghost predicate FreeBelow(e: CExpr, x: string) {
    exists i | 0 <= i < |Kids(e)| :: x in FreeVars(Kids(e)[i]) && x !in KidBinds(e, i)
  }

  lemma FreeVarsBelow(e: CExpr, x: string)
    requires !e.Var?
    ensures x in FreeVars(e) <==> FreeBelow(e, x)
  {
    hide PatternNames, ParamNames;
    var kids := Kids(e);
    if e.Match? {
      FreeVarsBelowMatch(e, x);
    } else if e.Call? || e.Block? || e.RecordLit? {
      FreeVarsBelowLists(e, x);
    } else {
      match e
      case Let(_, _, bound, body) => assert kids[0] == bound && kids[1] == body;
      case FieldAccess(record, _) => assert kids[0] == record;
      case Lambda(_, _, _, _, body) => assert kids[0] == body;
      case BinOp(_, lhs, rhs) => assert kids[0] == lhs && kids[1] == rhs;
      case UnaryOp(_, operand) => assert kids[0] == operand;
      case Return(result) => assert kids[0] == result;
      case _ =>
    }
  }

  lemma FreeVarsBelowMatch(e: CExpr, x: string)
    requires e.Match?
    ensures x in FreeVars(e) <==> FreeBelow(e, x)
  {
    hide PatternNames, ParamNames;
    var kids := Kids(e);
    assert kids[0] == e.scrutinee && KidBinds(e, 0) == {};
    assert forall i | 0 <= i < |e.arms| ::
        kids[i + 1] == e.arms[i].body && KidBinds(e, i + 1) == PatternNames(e.arms[i].pattern);
    assert |kids| == |e.arms| + 1;
    if FreeBelow(e, x) {
      var k :| 0 <= k < |kids| && x in FreeVars(kids[k]) && x !in KidBinds(e, k);
      if k > 0 {
        assert x in FreeVars(e.arms[k - 1].body) && x !in PatternNames(e.arms[k - 1].pattern);
      }
    }
  }

  lemma FreeVarsBelowLists(e: CExpr, x: string)
    requires e.Call? || e.Block? || e.RecordLit?
    ensures x in FreeVars(e) <==> FreeBelow(e, x)
  {
    if e.Call? {
      FreeVarsBelowCall(e, x);
    } else if e.Block? {
      FreeVarsBelowBlock(e, x);
    } else {
      assert forall i | 0 <= i < |e.fields| :: Kids(e)[i] == e.fields[i].value;
    }
  }

  lemma FreeVarsBelowCall(e: CExpr, x: string)
    requires e.Call?
    ensures x in FreeVars(e) <==> FreeBelow(e, x)
  {
    var kids := Kids(e);
    assert kids[0] == e.callee && forall i | 0 <= i < |e.args| :: kids[i + 1] == e.args[i];
    assert forall i | 0 < i < |kids| :: kids[i] == e.args[i - 1];
  }

  lemma FreeVarsBelowBlock(e: CExpr, x: string)
    requires e.Block?
    ensures x in FreeVars(e) <==> FreeBelow(e, x)
  {
    var kids := Kids(e);
    assert kids[|e.statements|] == e.result && forall i | 0 <= i < |e.statements| :: kids[i] == e.statements[i];
  }

  /** Parts below the same binders that mean the same make wholes that mean the same. */
  lemma KidsCongruence<W(!new)>(I: Interp<W>, e: CExpr, ks: seq<CExpr>, env: Env)
    requires Extensional(I) && |ks| == |Kids(e)|
    requires forall i | 0 <= i < |ks| :: UnderSame(true, I, KidBinds(e, i), Kids(e)[i], env, ks[i], env)
    ensures Same(true, I, e, env, WithKids(e, ks), env)
  {
    hide Same, UnderSame, Extensional, Lookup, PatternNames, ParamNames, WithKids;
    forall i | 0 <= i < |ks| && KidBinds(e, i) == {} ensures Same(true, I, Kids(e)[i], env, ks[i], env) {
      UnderNothing(I, Kids(e)[i], ks[i], env);
    }
    if e.Let? || e.Match? || e.Lambda? {
      BinderParts(I, e, ks, env);
    } else {
      OtherParts(I, e, ks, env);
    }
    Congruence(true, I, e, env, WithKids(e, ks), env);
  }

  lemma UnderNothing<W(!new)>(I: Interp<W>, e: CExpr, c: CExpr, env: Env)
    requires UnderSame(true, I, {}, e, env, c, env)
    ensures Same(true, I, e, env, c, env)
  {
    var none: Env := map[];
    assert none.Keys == {} && env + none == env;
  }

  lemma BinderParts<W(!new)>(I: Interp<W>, e: CExpr, ks: seq<CExpr>, env: Env)
    requires |ks| == |Kids(e)| && (e.Let? || e.Match? || e.Lambda?)
    requires forall i | 0 <= i < |ks| :: UnderSame(true, I, KidBinds(e, i), Kids(e)[i], env, ks[i], env)
    requires forall i | 0 <= i < |ks| && KidBinds(e, i) == {} :: Same(true, I, Kids(e)[i], env, ks[i], env)
    ensures PartsSame(true, I, e, env, WithKids(e, ks), env)
  {
    hide Same, UnderSame, Lookup, PatternNames, ParamNames;
    if e.Match? {
      assert KidBinds(e, 0) == {};
      MatchArms(I, e, ks, env);
      hide ArmsSame;
    } else if e.Let? {
      assert KidBinds(e, 0) == {} && KidBinds(e, 1) == {e.name};
    } else {
      assert KidBinds(e, 0) == ParamNames(e.params);
    }
  }

  lemma MatchArms<W(!new)>(I: Interp<W>, e: CExpr, ks: seq<CExpr>, env: Env)
    requires |ks| == |Kids(e)| && e.Match?
    requires forall i | 0 <= i < |ks| :: UnderSame(true, I, KidBinds(e, i), Kids(e)[i], env, ks[i], env)
    ensures ArmsSame(true, I, e.arms, env, WithKids(e, ks).arms, env)
  {
    hide *;
    MatchKids(e, ks);
    var arms, arms' := e.arms, WithKids(e, ks).arms;
    forall i | 0 <= i < |arms|
      ensures arms[i].pattern == arms'[i].pattern
      ensures UnderSame(true, I, PatternNames(arms[i].pattern), arms[i].body, env, arms'[i].body, env)
    {
      assert UnderSame(true, I, KidBinds(e, i + 1), Kids(e)[i + 1], env, ks[i + 1], env);
    }
    AllArms(I, arms, env, arms');
  }

  lemma AllArms<W(!new)>(I: Interp<W>, arms: seq<Arm>, env: Env, arms': seq<Arm>)
    requires |arms| == |arms'|
    requires forall i | 0 <= i < |arms| ::
               arms[i].pattern == arms'[i].pattern
               && UnderSame(true, I, PatternNames(arms[i].pattern), arms[i].body, env, arms'[i].body, env)
    ensures ArmsSame(true, I, arms, env, arms', env)
  {
  }

  lemma MatchKids(e: CExpr, ks: seq<CExpr>)
    requires e.Match? && |ks| == |Kids(e)|
    ensures WithKids(e, ks).Match? && |WithKids(e, ks).arms| == |e.arms| && |ks| == |e.arms| + 1
    ensures forall i | 0 <= i < |e.arms| ::
              WithKids(e, ks).arms[i] == Arm(e.arms[i].pattern, ks[i + 1])
              && Kids(e)[i + 1] == e.arms[i].body && KidBinds(e, i + 1) == PatternNames(e.arms[i].pattern)
  {
  }

  lemma OtherParts<W(!new)>(I: Interp<W>, e: CExpr, ks: seq<CExpr>, env: Env)
    requires |ks| == |Kids(e)| && !e.Let? && !e.Match? && !e.Lambda?
    requires forall i | 0 <= i < |ks| && KidBinds(e, i) == {} :: Same(true, I, Kids(e)[i], env, ks[i], env)
    ensures PartsSame(true, I, e, env, WithKids(e, ks), env)
  {
    hide Same, Lookup, PatternNames, ParamNames;
    assert forall i | 0 <= i < |ks| :: KidBinds(e, i) == {} && Same(true, I, Kids(e)[i], env, ks[i], env);
    match e {
      case Call(_, args) =>
        forall i | 0 <= i < |args| ensures Same(true, I, args[i], env, ks[1..][i], env) {
          assert Kids(e)[i + 1] == args[i];
        }
      case Block(statements, _) =>
        forall i | 0 <= i < |statements| ensures Same(true, I, statements[i], env, ks[..|statements|][i], env) {
          assert Kids(e)[i] == statements[i];
        }
      case RecordLit(fields) =>
        forall i | 0 <= i < |fields| ensures Same(true, I, fields[i].value, env, ks[i], env) {
          assert Kids(e)[i] == fields[i].value;
        }
      case _ =>
    }
  }
}
