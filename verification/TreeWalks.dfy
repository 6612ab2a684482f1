/** The walks of the transforms and patches as the original runs them: recursion that fills one set or
    one counter, with a loop over the children (crates/lex-ast/src/transforms.rs:303-501,
    crates/lex-ast/src/patch.rs:254-300). */
module TreeWalks {
  import opened Options
  import opened Ast
  import opened AstKids
  import opened Transforms
  import opened Patches

  // ---- free variables ----

  /** Free variables of the first `n` parts, less what each is bound by. */
  ghost function FreeAmong(e: CExpr, n: nat): set<string>
    requires n <= |Kids(e)|
  {
    set i, x | 0 <= i < n && x in FreeVars(Kids(e)[i]) && x !in KidBinds(e, i) :: x
  }

  lemma FreeAmongAll(e: CExpr)
    requires !e.Var?
    ensures FreeAmong(e, |Kids(e)|) == FreeVars(e)
  {
    forall x ensures x in FreeAmong(e, |Kids(e)|) <==> x in FreeVars(e) {
      FreeVarsBelow(e, x);
      hide FreeVars, Kids, KidBinds;
    }
  }

  lemma FreeAmongNext(e: CExpr, n: nat)
    requires n < |Kids(e)|
    ensures FreeAmong(e, n + 1) == FreeAmong(e, n) + (FreeVars(Kids(e)[n]) - KidBinds(e, n))
  {
    hide FreeVars, Kids, KidBinds;
  }

  /** `collect_free_vars`: into the set given, through a set of its own below a binder. */
  method CollectFreeVars(e: CExpr, before: set<string>) returns (out: set<string>)
    ensures out == before + FreeVars(e)
  {
    out := before;
    if e.Var? {
      out := out + {e.name};
      return;
    }
    var kids := Kids(e);
    for i := 0 to |kids|
      invariant out == before + FreeAmong(e, i)
    {
      FreeAmongNext(e, i);
      if KidBinds(e, i) == {} {
        out := CollectFreeVars(kids[i], out);
      } else {
        var inner := CollectFreeVars(kids[i], {});
        out := out + (inner - KidBinds(e, i));
      }
    }
    FreeAmongAll(e);
  }

  // ---- binders ----

  /** What the node itself binds, for whichever of its parts. */
  function OwnBinders(e: CExpr): set<string> {
    match e
    case Let(name, _, _, _) => {name}
    case Lambda(params, _, _, _, _) => ParamNames(params)
    case Match(_, arms) => set i, x | 0 <= i < |arms| && x in PatternNames(arms[i].pattern) :: x
    case _ => {}
  }

  ghost function BindersAmong(e: CExpr, n: nat): set<string>
    requires n <= |Kids(e)|
  {
    set i, x | 0 <= i < n && x in Binders(Kids(e)[i]) :: x
  }

  lemma BindersBelow(e: CExpr, x: string)
    ensures x in Binders(e) <==> x in OwnBinders(e) || exists i | 0 <= i < |Kids(e)| :: x in Binders(Kids(e)[i])
  {
    hide PatternNames, ParamNames;
    var kids := Kids(e);
    if e.Match? {
      BindersBelowMatch(e, x);
    } else if e.Call? || e.Block? || e.RecordLit? {
      BindersBelowLists(e, x);
    } else {
      match e
      case Let(_, _, bound, body) => assert kids[0] == bound && kids[1] == body;
      case FieldAccess(record, _) => assert kids[0] == record;
      case Lambda(_, _, _, _, body) => assert kids[0] == body;
      case BinOp(_, lhs, rhs) => assert kids[0] == lhs && kids[1] == rhs;
      case UnaryOp(_, operand) => assert kids[0] == operand;
      case Return(result) => assert kids[0] == result;
      case _ =>
    }
  }

  lemma BindersBelowMatch(e: CExpr, x: string)
    requires e.Match?
    ensures x in Binders(e) <==> x in OwnBinders(e) || exists i | 0 <= i < |Kids(e)| :: x in Binders(Kids(e)[i])
  {
    hide PatternNames;
    var kids := Kids(e);
    assert kids[0] == e.scrutinee && |kids| == |e.arms| + 1;
    assert forall i | 0 <= i < |e.arms| :: kids[i + 1] == e.arms[i].body;
    if k :| 0 <= k < |kids| && x in Binders(kids[k]) {
      assert k > 0 ==> x in Binders(e.arms[k - 1].body);
    }
  }

  lemma BindersBelowLists(e: CExpr, x: string)
    requires e.Call? || e.Block? || e.RecordLit?
    ensures x in Binders(e) <==> x in OwnBinders(e) || exists i | 0 <= i < |Kids(e)| :: x in Binders(Kids(e)[i])
  {
    var kids := Kids(e);
    match e
    case Call(callee, args) => assert kids[0] == callee && forall i | 0 <= i < |args| :: kids[i + 1] == args[i];
    case Block(statements, result) =>
      assert kids[|statements|] == result && forall i | 0 <= i < |statements| :: kids[i] == statements[i];
    case RecordLit(fields) => assert forall i | 0 <= i < |fields| :: kids[i] == fields[i].value;
  }

  lemma BindersAll(e: CExpr)
    ensures Binders(e) == OwnBinders(e) + BindersAmong(e, |Kids(e)|)
  {
    forall x ensures x in Binders(e) <==> x in OwnBinders(e) + BindersAmong(e, |Kids(e)|) {
      BindersBelow(e, x);
      hide Binders, Kids, OwnBinders;
    }
  }

  lemma BindersNext(e: CExpr, n: nat)
    requires n < |Kids(e)|
    ensures BindersAmong(e, n + 1) == BindersAmong(e, n) + Binders(Kids(e)[n])
  {
    hide Binders, Kids;
  }

  /** `walk_binders`: a conflict once met is kept. None is left exactly when no binder of the body, at
      any depth, takes a name that would be captured. */
  method CheckNoCapture(e: CExpr, captures: set<string>, before: bool) returns (conflict: bool)
    ensures conflict <==> before || !(captures !! Binders(e))
  {
    conflict := before || !(captures !! OwnBinders(e));
    var kids := Kids(e);
    for i := 0 to |kids|
      invariant conflict <==> before || !(captures !! OwnBinders(e) + BindersAmong(e, i))
    {
      BindersNext(e, i);
      conflict := CheckNoCapture(kids[i], captures, conflict);
    }
    BindersAll(e);
  }

  // ---- substitution ----

  function SubstituteKid(e: CExpr, i: nat, x: string, v: CExpr): CExpr
    requires i < |Kids(e)|
  {
    if x in KidBinds(e, i) then Kids(e)[i] else Substitute(Kids(e)[i], x, v)
  }

  ghost predicate SubstitutedKids(e: CExpr, x: string, v: CExpr, ks: seq<CExpr>) {
    |ks| == |Kids(e)| && forall i | 0 <= i < |ks| :: ks[i] == SubstituteKid(e, i, x, v)
  }

  lemma SubstituteByKids(e: CExpr, x: string, v: CExpr, ks: seq<CExpr>)
    requires !e.Var? && SubstitutedKids(e, x, v, ks)
    ensures Substitute(e, x, v) == WithKids(e, ks)
  {
    hide PatternNames, ParamNames;
    if e.Match? {
      SubstituteMatch(e, x, v, ks);
    } else if e.Call? || e.Block? || e.RecordLit? {
      SubstituteMixed(e, x, v, ks);
    } else if e.Constructor? || e.TupleLit? || e.ListLit? {
      SubstituteList(e, x, v, ks);
    } else {
      SubstituteFew(e, x, v, ks);
    }
  }

  lemma SubstituteFew(e: CExpr, x: string, v: CExpr, ks: seq<CExpr>)
    requires SubstitutedKids(e, x, v, ks)
    requires e.Literal? || e.Let? || e.Lambda? || e.FieldAccess? || e.BinOp? || e.UnaryOp? || e.Return?
    ensures Substitute(e, x, v) == WithKids(e, ks)
  {
    hide PatternNames, ParamNames;
    assert |ks| > 0 ==> ks[0] == SubstituteKid(e, 0, x, v);
    assert |ks| > 1 ==> ks[1] == SubstituteKid(e, 1, x, v);
  }

  lemma SubstituteList(e: CExpr, x: string, v: CExpr, ks: seq<CExpr>)
    requires SubstitutedKids(e, x, v, ks) && (e.Constructor? || e.TupleLit? || e.ListLit?)
    ensures Substitute(e, x, v) == WithKids(e, ks)
  {
    var items := if e.Constructor? then e.args else e.items;
    assert forall i | 0 <= i < |ks| :: ks[i] == Substitute(items[i], x, v);
    assert ks == seq(|items|, i requires 0 <= i < |items| => Substitute(items[i], x, v));
  }

  lemma SubstituteMixed(e: CExpr, x: string, v: CExpr, ks: seq<CExpr>)
    requires SubstitutedKids(e, x, v, ks) && (e.Call? || e.Block? || e.RecordLit?)
    ensures Substitute(e, x, v) == WithKids(e, ks)
  {
    assert forall i | 0 <= i < |ks| :: ks[i] == Substitute(Kids(e)[i], x, v);
    hide SubstituteKid;
    match e
    case Call(_, args) => assert ks[1..] == seq(|args|, i requires 0 <= i < |args| => Substitute(args[i], x, v));
    case Block(statements, _) =>
      assert ks[..|statements|] == seq(|statements|, i requires 0 <= i < |statements| => Substitute(statements[i], x, v));
    case RecordLit(_) => assert WithKids(e, ks).fields == Substitute(e, x, v).fields;
  }

  lemma SubstituteMatch(e: CExpr, x: string, v: CExpr, ks: seq<CExpr>)
    requires SubstitutedKids(e, x, v, ks) && e.Match?
    ensures Substitute(e, x, v) == WithKids(e, ks)
  {
    hide PatternNames;
    assert ks[0] == Substitute(e.scrutinee, x, v);
    forall i | 0 <= i < |e.arms| ensures WithKids(e, ks).arms[i] == Substitute(e, x, v).arms[i] {
      assert ks[i + 1] == SubstituteKid(e, i + 1, x, v);
    }
  }

  /** `substitute_in_expr`: child after child, passing over those where the name is bound again. */
  method SubstituteInExpr(e: CExpr, x: string, v: CExpr) returns (out: CExpr)
    ensures out == Substitute(e, x, v)
    decreases e
  {
    hide *;
    if e.Var? {
      SubstituteVar(e, x, v);
      return if e.name == x then v else e;
    }
    var kids, ks := Kids(e), [];
    for i := 0 to |kids|
      invariant |ks| == i && forall j | 0 <= j < i :: ks[j] == SubstituteKid(e, j, x, v)
    {
      var k := kids[i];
      KidSubstituted(e, i, x, v);
      if x !in KidBinds(e, i) { k := SubstituteInExpr(k, x, v); }
      ks := ks + [k];
    }
    SubstitutedAll(e, x, v, ks);
    SubstituteByKids(e, x, v, ks);
    out := WithKids(e, ks);
  }

  lemma SubstituteVar(e: CExpr, x: string, v: CExpr)
    requires e.Var?
    ensures Substitute(e, x, v) == if e.name == x then v else e
  {
  }

  lemma KidSubstituted(e: CExpr, i: nat, x: string, v: CExpr)
    requires i < |Kids(e)|
    ensures SubstituteKid(e, i, x, v) == if x in KidBinds(e, i) then Kids(e)[i] else Substitute(Kids(e)[i], x, v)
  {
    hide Kids, KidBinds, Substitute;
  }

  lemma SubstitutedAll(e: CExpr, x: string, v: CExpr, ks: seq<CExpr>)
    requires |ks| == |Kids(e)| && forall i | 0 <= i < |ks| :: ks[i] == SubstituteKid(e, i, x, v)
    ensures SubstitutedKids(e, x, v, ks)
  {
  }

  // ---- the hole of a wrapper ----

  /** `walk_substitute`: every hole filled and counted in one walk. */
  method FillAndCount(e: CExpr, target: CExpr, before: nat) returns (out: CExpr, count: nat)
    ensures out == FillHoles(e, target) && count == before + HoleCount(e)
    decreases e
  {
    hide *;
    count := before;
    if e == Var(HOLE) {
      OneHoleFilled(e, target);
      return target, count + 1;
    }
    var kids, ks := Kids(e), [];
    NoneYet(e);
    for i := 0 to |kids|
      invariant |ks| == i && count == before + HolesAmong(e, i)
      invariant forall j | 0 <= j < i :: ks[j] == FillHoles(kids[j], target)
    {
      HolesNext(e, i);
      var k: CExpr;
      k, count := FillAndCount(kids[i], target, count);
      ks := ks + [k];
    }
    FilledByKids(e, target, ks);
    out := WithKids(e, ks);
  }

  lemma OneHoleFilled(e: CExpr, target: CExpr)
    requires e == Var(HOLE)
    ensures FillHoles(e, target) == target && HoleCount(e) == 1
  {
  }

  lemma NoneYet(e: CExpr)
    ensures HolesAmong(e, 0) == 0
  {
  }

  lemma HolesNext(e: CExpr, i: nat)
    requires i < |Kids(e)|
    ensures HolesAmong(e, i + 1) == HolesAmong(e, i) + HoleCount(Kids(e)[i])
  {
    hide Kids, HoleCount;
  }

  lemma FilledByKids(e: CExpr, target: CExpr, ks: seq<CExpr>)
    requires e != Var(HOLE) && |ks| == |Kids(e)| && forall i | 0 <= i < |ks| :: ks[i] == FillHoles(Kids(e)[i], target)
    ensures FillHoles(e, target) == WithKids(e, ks) && HoleCount(e) == HolesAmong(e, |Kids(e)|)
  {
    hide Kids, WithKids, HolesAmong;
    assert Filled(e, target) == ks;
  }
}
