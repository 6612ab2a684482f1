/** For expressions that only call and build, desugaring keeps the meaning exactly when records are orderly and
    pipes are as written. */
module CanonicalizeExact {
  import opened Ast
  import opened Meaning
  import opened Surface
  import opened Canonicalize
  import opened RecordOrder
  import opened CanonicalizeLaws
  import opened CanonicalizeBounds
  import opened Utf8

  // ---- places in a sorted record ----

  function Indexed(fields: seq<SField>): (xs: seq<(string, nat)>)
    ensures |xs| == |fields|
  {
    seq(|fields|, i requires 0 <= i < |fields| => (fields[i].name, i))
  }

  /** Which field comes where. */
  function Places(fields: seq<SField>): (ps: seq<(string, nat)>)
    ensures |ps| == |fields|
  {
    SortMembers(Indexed(fields));
    SortNamed(Indexed(fields))
  }

  lemma PlaceOf(fields: seq<SField>, i: nat) returns (p: nat)
    requires i < |fields|
    ensures p < |fields| && Places(fields)[p] == (fields[i].name, i)
  {
    var xs := Indexed(fields);
    SortKeepsMembers(xs);
    assert xs[i] in SortNamed(xs);
    p :| 0 <= p < |SortNamed(xs)| && SortNamed(xs)[p] == xs[i];
  }

  lemma PlacesWithin(fields: seq<SField>, p: nat)
    requires p < |fields|
    ensures Places(fields)[p].1 < |fields|
  {
    var xs := Indexed(fields);
    SortMembers(xs);
    assert SortNamed(xs)[p] in multiset(SortNamed(xs));
    assert SortNamed(xs)[p] in xs;
  }

  /** Two fields in the wrong order change places. */
  lemma PlacesChange(fields: seq<SField>, i: nat, j: nat) returns (p: nat, q: nat)
    requires i < j < |fields| && Less(fields[j].name, fields[i].name)
    ensures q < p < |fields| && Places(fields)[p] == (fields[i].name, i) && Places(fields)[q] == (fields[j].name, j)
  {
    p := PlaceOf(fields, i);
    q := PlaceOf(fields, j);
    SortInOrder(Indexed(fields));
    hide SortNamed, Less;
    assert InKeyOrder(Places(fields));
  }

  /** The canonical field and the value at a place. */
  lemma AtPlace(fields: seq<SField>, vs: seq<Value>, p: nat)
    requires |vs| == |fields| && p < |fields| && Places(fields)[p].1 < |fields|
    ensures |SortNamed(NamedFields(fields))| == |SortNamed(NameValues(fields, vs))| == |fields|
    ensures var i := Places(fields)[p].1;
            && SortNamed(NamedFields(fields))[p].1 == Canon(fields[i].value)
            && SortNamed(NameValues(fields, vs))[p].1 == vs[i]
  {
    var xs := Indexed(fields);
    var canon := (i: nat) => if i < |fields| then Canon(fields[i].value) else Literal(Unit);
    var value := (i: nat) => if i < |fields| then vs[i] else VLit(Unit);
    assert MapSecond(canon, xs) == NamedFields(fields);
    assert MapSecond(value, xs) == NameValues(fields, vs);
    SortMap(canon, xs);
    SortMap(value, xs);
  }

  /** Records that differ at a place differ. */
  lemma DifferAt(fields: seq<SField>, cs: seq<RecordField>, us: seq<Value>, vs: seq<Value>, p: nat)
    requires |us| == |cs| == |vs| == |fields| && p < |fields|
    requires Places(fields)[p].1 < |fields| && us[p] != vs[Places(fields)[p].1]
    ensures NameFields(cs, us) != SortNamed(NameValues(fields, vs))
  {
    AtPlace(fields, vs, p);
    assert NameFields(cs, us)[p].1 != SortNamed(NameValues(fields, vs))[p].1;
  }

  // ---- what makes no call is certain ----

  lemma {:induction false} NoneOf(es: seq<SExpr>, i: nat)
    requires CallsAll(es) == 0 && i < |es|
    ensures Calls(es[i]) == 0
    decreases |es|
  {
    if i > 0 { NoneOf(es[1..], i - 1); }
  }

  lemma {:induction false} NoneOfFields(fs: seq<SField>, i: nat)
    requires CallsFields(fs) == 0 && i < |fs|
    ensures Calls(fs[i].value) == 0
    decreases |fs|
  {
    if i > 0 { NoneOfFields(fs[1..], i - 1); }
  }

  lemma {:induction false} CallsNothing(e: SExpr, scope: set<string>)
    requires Straight(e, scope) && Calls(e) == 0
    ensures Certain(e, scope)
    decreases e, 1
  {
    hide Unqualified, IsConstructorName;
    match e
    case SBraces(block) => CallsNothing(block.result, scope);
    case SCall(_, args) => AllCallNothing(args, scope);
    case SPipe(left, right) =>
      CallsNothing(left, scope);
      CallsNothing(right, scope);
      CertainBuilds(right, scope);
    case SRecord(fields) =>
      forall i | 0 <= i < |fields| ensures Certain(fields[i].value, scope) {
        NoneOfFields(fields, i);
        CallsNothing(fields[i].value, scope);
      }
    case STuple(items) => AllCallNothing(items, scope);
    case SList(items) => AllCallNothing(items, scope);
    case SCon(_, args) => AllCallNothing(args, scope);
    case _ =>
  }

  lemma CertainBuilds(right: SExpr, scope: set<string>)
    ensures PipeBuilt(right) ==> Builds(right)
    ensures right.SCall? && Certain(right, scope) ==> Builds(right)
  {
  }

  lemma {:induction false} AllCallNothing(es: seq<SExpr>, scope: set<string>)
    requires CallsAll(es) == 0 && forall i | 0 <= i < |es| :: Straight(es[i], scope)
    ensures forall i | 0 <= i < |es| :: Certain(es[i], scope)
    decreases es, 0
  {
    forall i | 0 <= i < |es| ensures Certain(es[i], scope) {
      NoneOf(es, i);
      CallsNothing(es[i], scope);
    }
  }

  // ---- what does not fit is told apart ----

  ghost predicate Differs(e: SExpr, env: Env, n: nat, k: nat) {
    Eval(Tracing(), Canon(e), env, n).0 != Mean(Tracing(), e, env, k).0
  }

  /** Straight, with pipes as written, but not fitting: the values differ whatever calls came before. */
  ghost predicate Unfit(e: SExpr, env: Env) {
    Straight(e, env.Keys) && Literals(env) && Piped(e) && !Fits(e, env.Keys)
  }

  lemma {:induction false} Apart(e: SExpr, env: Env, n: nat, k: nat)
    requires Unfit(e, env)
    ensures Differs(e, env, n, k)
    decreases e, 2
  {
    hide *;
    match e {
      case SBraces(block) => BracesApart(block, env, n, k);
      case SCall(_, _) => CallApart(e, env, n, k);
      case SPipe(_, _) => PipeApart(e, env, n, k);
      case SRecord(_) => RecordApart(e, env, n, k);
      case STuple(_) => ListApart(e, env, n, k);
      case SList(_) => ListApart(e, env, n, k);
      case SCon(_, _) => ListApart(e, env, n, k);
      case _ => UnfitKind(e, env);
    }
  }

  lemma UnfitKind(e: SExpr, env: Env)
    requires Unfit(e, env)
    ensures e.SBraces? || e.SCall? || e.SPipe? || e.SRecord? || e.STuple? || e.SList? || e.SCon?
  {
  }

  lemma {:induction false} BracesApart(b: SBlock, env: Env, n: nat, k: nat)
    requires Unfit(SBraces(b), env)
    ensures Differs(SBraces(b), env, n, k)
    decreases SBraces(b), 0
  {
    assert Fits(SBraces(b), env.Keys) == FitsBlock(b, 0, env.Keys);
    assert Unfit(b.result, env);
    Apart(b.result, env, n, k);
    BracesForm(b);
    hide Canon, Fits, Straight, Piped, Tracing;
    assert Mean(Tracing(), SBraces(b), env, k) == Mean(Tracing(), b.result, env, k);
    hide Mean, Eval;
  }

  /** Both sides have a value. */
  lemma BothHave(e: SExpr, env: Env, n: nat, k: nat)
    requires Straight(e, env.Keys) && Literals(env)
    ensures Eval(Tracing(), Canon(e), env, n).0.Val? && Mean(Tracing(), e, env, k).0.Val?
  {
    hide *;
    TraceMean(e, env, k);
    CanonKeeps(e, env.Keys);
    KeptCalling(e, env.Keys);
    EvalTags(Canon(e), env, n);
  }

  lemma KeptCalling(e: SExpr, scope: set<string>)
    requires Keeps(e, scope)
    ensures Calling(Canon(e), scope) && Steps(Canon(e)) <= Calls(e) && (!Piped(e) ==> Steps(Canon(e)) < Calls(e))
  {
  }

  lemma AllHave(es: seq<SExpr>, env: Env, n: nat, k: nat)
    requires Literals(env) && forall i | 0 <= i < |es| :: Straight(es[i], env.Keys)
    ensures EvalAll(Tracing(), CanonAll(es), env, n).0.Vals? && MeanAll(Tracing(), es, env, k).0.Vals?
  {
    hide *;
    TraceAll(es, env, k);
    AllKeep(es, env.Keys);
    EvalTagsAll(CanonAll(es), env, n);
  }

  lemma {:induction false} AllApart(es: seq<SExpr>, env: Env, n: nat, k: nat)
    requires Literals(env) && forall i | 0 <= i < |es| :: Straight(es[i], env.Keys)
    requires exists i | 0 <= i < |es| :: Unfit(es[i], env)
    ensures EvalAll(Tracing(), CanonAll(es), env, n).0 != MeanAll(Tracing(), es, env, k).0
    decreases es, 0
  {
    hide *;
    var i :| 0 <= i < |es| && Unfit(es[i], env);
    var rest, cs := es[1..], CanonAll(es);
    BothHave(es[0], env, n, k);
    var (o, m) := Eval(Tracing(), Canon(es[0]), env, n);
    var (u, l) := Mean(Tracing(), es[0], env, k);
    AllHave(rest, env, m, l);
    CanonAllCons(es);
    EvalAllCons(Tracing(), Canon(es[0]), CanonAll(rest), env, n);
    MeanAllCons(Tracing(), es, env, k);
    var a, b := EvalAll(Tracing(), CanonAll(rest), env, m).0, MeanAll(Tracing(), rest, env, l).0;
    ConsVals(o.v, a);
    ConsVals(u.v, b);
    if i == 0 {
      Apart(es[0], env, n, k);
      DiffersIs(es[0], env, n, k);
      FirstDiffer(o.v, a.vs, u.v, b.vs);
    } else {
      assert rest[i - 1] == es[i];
      AllApart(rest, env, m, l);
      RestDiffer(o.v, a.vs, u.v, b.vs);
    }
  }

  lemma DiffersIs(e: SExpr, env: Env, n: nat, k: nat)
    ensures Differs(e, env, n, k) <==> Eval(Tracing(), Canon(e), env, n).0 != Mean(Tracing(), e, env, k).0
  {
  }

  lemma CanonAllCons(es: seq<SExpr>)
    requires es != []
    ensures CanonAll(es) == [Canon(es[0])] + CanonAll(es[1..])
  {
  }

  lemma MeanAllCons<W>(I: Interp<W>, es: seq<SExpr>, env: Env, w: W)
    requires es != []
    ensures var (first, w1) := Mean(I, es[0], env, w);
            first.Val? ==> MeanAll(I, es, env, w).0 == Surface.Cons(first, MeanAll(I, es[1..], env, w1).0)
  {
  }

  lemma ConsVals(v: Value, r: Outcomes)
    ensures r.Vals? ==> Surface.Cons(Val(v), r) == Vals([v] + r.vs)
  {
  }

  lemma FirstDiffer(a: Value, as0: seq<Value>, b: Value, bs: seq<Value>)
    ensures a != b ==> [a] + as0 != [b] + bs
  {
    assert ([a] + as0)[0] == a && ([b] + bs)[0] == b;
  }

  lemma RestDiffer(a: Value, as0: seq<Value>, b: Value, bs: seq<Value>)
    ensures as0 != bs ==> [a] + as0 != [b] + bs
  {
    assert ([a] + as0)[1..] == as0 && ([b] + bs)[1..] == bs;
  }

  lemma TracedApart(f: Value, as0: seq<Value>, n: nat, g: Value, bs: seq<Value>, m: nat)
    ensures f != g || as0 != bs ==> Traced(f, as0, n) != Traced(g, bs, m)
  {
    var x, y := [f, VList(as0), VFun(n)], [g, VList(bs), VFun(m)];
    assert x[0] == f && y[0] == g && x[1] == VList(as0) && y[1] == VList(bs);
  }

  lemma {:induction false} ListApart(e: SExpr, env: Env, n: nat, k: nat)
    requires Unfit(e, env) && (e.STuple? || e.SList? || e.SCon?)
    ensures Differs(e, env, n, k)
    decreases e, 0
  {
    hide *;
    var es := if e.SCon? then e.args else e.items;
    var cs := CanonAll(es);
    ListUnfit(e, es, cs, env);
    AllApart(es, env, n, k);
    AllHave(es, env, n, k);
    ListEval(Tracing(), Canon(e), cs, env, n);
    ListMeaning(Tracing(), e, es, env, k);
    BuiltApart(e.STuple?, e.SList?, if e.SCon? then e.name else "",
               EvalAll(Tracing(), cs, env, n).0.vs, MeanAll(Tracing(), es, env, k).0.vs);
    DiffersIs(e, env, n, k);
  }

  lemma BuiltApart(tuple: bool, list: bool, name: string, us: seq<Value>, vs: seq<Value>)
    ensures us != vs ==> Built(tuple, list, name, us) != Built(tuple, list, name, vs)
  {
  }

  lemma ListUnfit(e: SExpr, es: seq<SExpr>, cs: seq<CExpr>, env: Env)
    requires Unfit(e, env) && (e.STuple? || e.SList? || e.SCon?) && es == (if e.SCon? then e.args else e.items)
    requires cs == CanonAll(es)
    ensures Literals(env) && (forall i | 0 <= i < |es| :: Straight(es[i], env.Keys))
    ensures exists i | 0 <= i < |es| :: Unfit(es[i], env)
    ensures Canon(e) == if e.STuple? then TupleLit(cs) else if e.SList? then ListLit(cs) else Constructor(e.name, cs)
  {
    var i :| 0 <= i < |es| && !Fits(es[i], env.Keys);
    assert Unfit(es[i], env);
  }

  lemma {:induction false} CallApart(e: SExpr, env: Env, n: nat, k: nat)
    requires Unfit(e, env) && e.SCall?
    ensures Differs(e, env, n, k)
    decreases e, 0
  {
    hide *;
    var cs := CanonAll(e.args);
    CallUnfit(e, env);
    CallMeaning(e, env, k);
    if NamesConstructor(e.callee) {
      BuildEval(Tracing(), Unqualified(e.callee.name), cs, env, n);
      AllHave(e.args, env, n, k);
      AllApart(e.args, env, n, k);
    } else {
      BothHave(e.callee, env, n, k);
      var (f, m) := Eval(Tracing(), Canon(e.callee), env, n);
      var (g, l) := Mean(Tracing(), e.callee, env, k);
      AllHave(e.args, env, m, l);
      CallEval(Tracing(), Canon(e.callee), cs, env, n);
      var (r, a) := EvalAll(Tracing(), cs, env, m);
      var (s, b) := MeanAll(Tracing(), e.args, env, l);
      CallTraced(f.v, r, a);
      CallTraced(g.v, s, b);
      TracedApart(f.v, r.vs, a + 1, g.v, s.vs, b + 1);
      if Unfit(e.callee, env) {
        Apart(e.callee, env, n, k);
        DiffersIs(e.callee, env, n, k);
      } else {
        AllApart(e.args, env, m, l);
      }
    }
    DiffersIs(e, env, n, k);
  }

  lemma CallUnfit(e: SExpr, env: Env)
    requires Unfit(e, env) && e.SCall?
    ensures Literals(env) && Straight(e.callee, env.Keys) && (forall i | 0 <= i < |e.args| :: Straight(e.args[i], env.Keys))
    ensures Unfit(e.callee, env) || exists i | 0 <= i < |e.args| :: Unfit(e.args[i], env)
    ensures NamesConstructor(e.callee) ==> e.callee.SVar? && !Unfit(e.callee, env)
    ensures Canon(e) == if NamesConstructor(e.callee) then Constructor(Unqualified(e.callee.name), CanonAll(e.args))
                        else Call(Canon(e.callee), CanonAll(e.args))
  {
    hide Unqualified, IsConstructorName;
    if Fits(e.callee, env.Keys) {
      var i :| 0 <= i < |e.args| && !Fits(e.args[i], env.Keys);
      assert Unfit(e.args[i], env);
    } else {
      assert Unfit(e.callee, env);
    }
  }

  lemma CallMeaning(e: SExpr, env: Env, k: nat)
    requires e.SCall?
    ensures NamesConstructor(e.callee) ==>
              var (r, m) := MeanAll(Tracing(), e.args, env, k);
              Mean(Tracing(), e, env, k).0 == if r.Stop? then r.o else Val(VCon(Unqualified(e.callee.name), r.vs))
    ensures !NamesConstructor(e.callee) ==>
              var (f, m) := Mean(Tracing(), e.callee, env, k);
              var (r, l) := MeanAll(Tracing(), e.args, env, m);
              f.Val? ==> Mean(Tracing(), e, env, k) == CallWith(Tracing(), f.v, r, l)
  {
    hide Unqualified, IsConstructorName, Tracing, CallWith;
  }

  lemma {:induction false} PipeApart(e: SExpr, env: Env, n: nat, k: nat)
    requires Unfit(e, env) && e.SPipe?
    ensures Differs(e, env, n, k)
    decreases e, 1
  {
    hide *;
    var left, right := e.left, e.right;
    var args := if right.SCall? || right.SCon? then right.args else [];
    var cs := CanonAll(args);
    PipeUnfit(e, args, env);
    PipeForm(e, args, cs);
    if PipeBuilt(right) {
      PipeBuildsMeaning(Tracing(), e, args, env, k);
      BuildEval(Tracing(), PipeName(right), [Canon(left)] + cs, env, n);
      ConsApart(e, args, env, n, k);
    } else {
      var callee := if right.SCall? then right.callee else right;
      PipeCallsMeaning(Tracing(), e, args, callee, env, k);
      CallEval(Tracing(), Canon(callee), [Canon(left)] + cs, env, n);
      BothHave(callee, env, n, k);
      var (f, m) := Eval(Tracing(), Canon(callee), env, n);
      var (g, l) := Mean(Tracing(), callee, env, k);
      ConsApart(e, args, env, m, l);
      var (r, a) := EvalAll(Tracing(), [Canon(left)] + cs, env, m);
      var (x, l1) := Mean(Tracing(), left, env, l);
      var (s, b) := MeanAll(Tracing(), args, env, l1);
      var t := Surface.Cons(x, s);
      CallTraced(f.v, r, a);
      CallTraced(g.v, t, b);
      TracedApart(f.v, r.vs, a + 1, g.v, t.vs, b + 1);
      if Unfit(callee, env) {
        Apart(callee, env, n, k);
        DiffersIs(callee, env, n, k);
      }
    }
    DiffersIs(e, env, n, k);
  }

  lemma PipeUnfit(e: SExpr, args: seq<SExpr>, env: Env)
    requires Unfit(e, env) && e.SPipe? && args == (if e.right.SCall? || e.right.SCon? then e.right.args else [])
    ensures PipesAsWritten(e.right) && Literals(env) && Straight(e.left, env.Keys)
    ensures forall i | 0 <= i < |args| :: Straight(args[i], env.Keys)
    ensures var callee := if e.right.SCall? then e.right.callee else e.right;
            && Straight(callee, env.Keys)
            && (PipeBuilt(e.right) || !Unfit(callee, env) ==>
                  Unfit(e.left, env) || exists i | 0 <= i < |args| :: Unfit(args[i], env))
  {
    hide PipesAsWritten, Literals;
    assert Straight(e.right, env.Keys) && Piped(e.right);
    if Fits(e.left, env.Keys) {
      assert !Fits(e.right, env.Keys);
      if args != [] && exists i | 0 <= i < |args| :: !Fits(args[i], env.Keys) {
        var i :| 0 <= i < |args| && !Fits(args[i], env.Keys);
        assert Unfit(args[i], env);
      }
    }
  }

  lemma {:induction false} ConsApart(e: SExpr, args: seq<SExpr>, env: Env, n: nat, k: nat)
    requires e.SPipe? && args == (if e.right.SCall? || e.right.SCon? then e.right.args else [])
    requires Literals(env) && Straight(e.left, env.Keys) && forall i | 0 <= i < |args| :: Straight(args[i], env.Keys)
    ensures var r := EvalAll(Tracing(), [Canon(e.left)] + CanonAll(args), env, n).0;
            var (x, l) := Mean(Tracing(), e.left, env, k);
            var s := Surface.Cons(x, MeanAll(Tracing(), args, env, l).0);
            r.Vals? && s.Vals? && x.Val?
            && (Unfit(e.left, env) || (exists i | 0 <= i < |args| :: Unfit(args[i], env)) ==> r.vs != s.vs)
    decreases e, 0
  {
    hide *;
    var left := e.left;
    BothHave(left, env, n, k);
    var (o, m) := Eval(Tracing(), Canon(left), env, n);
    var (x, l) := Mean(Tracing(), left, env, k);
    AllHave(args, env, m, l);
    EvalAllCons(Tracing(), Canon(left), CanonAll(args), env, n);
    var a, b := EvalAll(Tracing(), CanonAll(args), env, m).0, MeanAll(Tracing(), args, env, l).0;
    ConsVals(o.v, a);
    ConsVals(x.v, b);
    FirstDiffer(o.v, a.vs, x.v, b.vs);
    RestDiffer(o.v, a.vs, x.v, b.vs);
    if Unfit(left, env) {
      Apart(left, env, n, k);
      DiffersIs(left, env, n, k);
    } else if exists i | 0 <= i < |args| :: Unfit(args[i], env) {
      AllApart(args, env, m, l);
    }
  }

  // ---- records ----

  lemma {:induction false} RecordApart(e: SExpr, env: Env, n: nat, k: nat)
    requires Unfit(e, env) && e.SRecord?
    ensures Differs(e, env, n, k)
    decreases e, 1
  {
    hide *;
    var fields, named := e.fields, NamedFields(e.fields);
    var cs := RecordFields(SortNamed(named));
    RecordUnfit(e, env);
    var starts := TraceFields(fields, env, k);
    var row := EvalRow(cs, env, n);
    var vs, us := MeanFields(Tracing(), fields, env, k).0.vs, EvalFields(Tracing(), cs, env, n).0.vs;
    Rows(fields, cs, env, n, k, vs, us, starts, row);
    if i :| 0 <= i < |fields| && Unfit(fields[i].value, env) {
      var p := PlaceOf(fields, i);
      FieldAt(fields, cs, env, n, k, vs, us, starts, row, p);
      Apart(fields[i].value, env, row[p], starts[i]);
      DiffersIs(fields[i].value, env, row[p], starts[i]);
      DifferAt(fields, cs, us, vs, p);
    } else {
      OutOfOrder(e, cs, env, n, k, vs, us, starts, row);
    }
    RecordValues(e, cs, env, n, k);
    DiffersIs(e, env, n, k);
  }

  lemma RecordUnfit(e: SExpr, env: Env)
    requires Unfit(e, env) && e.SRecord?
    ensures var cs := RecordFields(SortNamed(NamedFields(e.fields)));
            && Canon(e) == RecordLit(cs) && Literals(env)
            && (forall i | 0 <= i < |e.fields| :: Straight(e.fields[i].value, env.Keys))
            && (forall i | 0 <= i < |cs| :: Calling(cs[i].value, env.Keys))
            && ((exists i | 0 <= i < |e.fields| :: Unfit(e.fields[i].value, env))
                || (!Orderly(e.fields, env.Keys) && forall i | 0 <= i < |e.fields| :: Fits(e.fields[i].value, env.Keys)))
  {
    CanonKeeps(e, env.Keys);
    assert Canon(e) == RecordLit(RecordFields(SortNamed(NamedFields(e.fields))));
    hide Orderly, SortNamed, Canon, Literals;
    if i :| 0 <= i < |e.fields| && !Fits(e.fields[i].value, env.Keys) { assert Unfit(e.fields[i].value, env); }
  }

  lemma Rows(fields: seq<SField>, cs: seq<RecordField>, env: Env, n: nat, k: nat,
             vs: seq<Value>, us: seq<Value>, starts: seq<nat>, row: seq<nat>)
    requires RunsOf(fields, env, k, vs, starts) && RowOf(cs, env, n, us, row)
    requires cs == RecordFields(SortNamed(NamedFields(fields)))
    ensures |starts| == |vs| == |cs| == |us| == |row| == |fields|
  {
    SortMembers(NamedFields(fields));
  }

  /** The field at a place: where it is evaluated, and the two values. */
  lemma FieldAt(fields: seq<SField>, cs: seq<RecordField>, env: Env, n: nat, k: nat,
                vs: seq<Value>, us: seq<Value>, starts: seq<nat>, row: seq<nat>, p: nat)
    requires RunsOf(fields, env, k, vs, starts) && RowOf(cs, env, n, us, row)
    requires cs == RecordFields(SortNamed(NamedFields(fields))) && p < |fields|
    requires |starts| == |vs| == |cs| == |us| == |row| == |fields|
    ensures var i := Places(fields)[p].1;
            && i < |fields|
            && Eval(Tracing(), Canon(fields[i].value), env, row[p]) == (Val(us[p]), row[p] + Steps(Canon(fields[i].value)))
            && Mean(Tracing(), fields[i].value, env, starts[i]) == (Val(vs[i]), starts[i] + Calls(fields[i].value))
  {
    hide *;
    PlacesWithin(fields, p);
    AtPlaceCanon(fields, cs, vs, p);
    RunAtIndex(fields, env, k, vs, starts, Places(fields)[p].1);
    RowAtIndex(cs, env, n, us, row, p);
  }

  lemma RunAtIndex(fs: seq<SField>, env: Env, n: nat, vs: seq<Value>, starts: seq<nat>, i: nat)
    requires RunsOf(fs, env, n, vs, starts) && i < |fs| == |vs| == |starts|
    ensures Mean(Tracing(), fs[i].value, env, starts[i]) == (Val(vs[i]), starts[i] + Calls(fs[i].value))
  {
    hide Spaced, Mean, Calls, Tracing;
    assert RunAt(fs[i], env, n, vs[i], starts[i]);
  }

  lemma RowAtIndex(fs: seq<RecordField>, env: Env, n: nat, us: seq<Value>, row: seq<nat>, p: nat)
    requires RowOf(fs, env, n, us, row) && p < |fs| == |us| == |row|
    ensures Eval(Tracing(), fs[p].value, env, row[p]) == (Val(us[p]), row[p] + Steps(fs[p].value))
  {
    hide Spaced, Eval, Steps, Tracing;
    assert RowAt(fs[p], env, n, us[p], row[p]);
  }

  /** Evaluated in turn on either side, and in opposite order. */
  lemma InTurn(fields: seq<SField>, cs: seq<RecordField>, env: Env, n: nat, k: nat,
               vs: seq<Value>, us: seq<Value>, starts: seq<nat>, row: seq<nat>, i: nat, j: nat, p: nat, q: nat)
    requires RunsOf(fields, env, k, vs, starts) && RowOf(cs, env, n, us, row)
    requires |starts| == |cs| == |row| == |fields| && i < j < |fields| && q < p < |fields|
    ensures starts[i] + Calls(fields[i].value) <= starts[j] && row[q] + Steps(cs[q].value) <= row[p]
  {
    hide Steps, Calls, RunAt, RowAt;
    assert FieldCalls(fields)[i] == Calls(fields[i].value) && FieldSteps(cs)[q] == Steps(cs[q].value);
  }

  lemma RecordValues(e: SExpr, cs: seq<RecordField>, env: Env, n: nat, k: nat)
    requires e.SRecord? && Canon(e) == RecordLit(cs)
    ensures var us, vs := EvalFields(Tracing(), cs, env, n).0, MeanFields(Tracing(), e.fields, env, k).0;
            us.Vals? && vs.Vals? ==>
              (NameFields(cs, us.vs) != SortNamed(NameValues(e.fields, vs.vs)) ==>
                 Eval(Tracing(), Canon(e), env, n).0 != Mean(Tracing(), e, env, k).0)
  {
    hide Canon, SortNamed, Tracing;
    RecordEval(Tracing(), cs, env, n);
    var r := MeanFields(Tracing(), e.fields, env, k).0;
    if r.Vals? {
      assert Mean(Tracing(), e, env, k).0 == Val(VRec(SortNamed(NameValues(e.fields, r.vs))));
    }
  }

  /** A pair of calls that change places: the numbers their values remember cannot both agree. */
  lemma PairApart(a: SExpr, b: SExpr, env: Env, v: Value, u: Value, w: Value, x: Value, sa: nat, sb: nat, ra: nat, rb: nat)
    requires Straight(a, env.Keys) && Straight(b, env.Keys) && Literals(env) && Calls(a) > 0 && Calls(b) > 0
    requires Fits(a, env.Keys) && Fits(b, env.Keys)
    requires Mean(Tracing(), a, env, sa) == (Val(v), sa + Calls(a)) && Mean(Tracing(), b, env, sb) == (Val(w), sb + Calls(b))
    requires sa + Calls(a) <= sb
    requires Eval(Tracing(), Canon(a), env, ra) == (Val(u), ra + Steps(Canon(a)))
    requires Eval(Tracing(), Canon(b), env, rb) == (Val(x), rb + Steps(Canon(b)))
    requires rb + Steps(Canon(b)) <= ra
    ensures u != v || x != w
  {
    hide *;
    TracingAllowed();
    ScopeOfTracing(env);
    CanonMeans(Tracing(), a, env, ra);
    CanonMeans(Tracing(), b, env, rb);
    TraceMean(a, env, sa);
    TraceMean(b, env, sb);
    TraceMean(a, env, ra);
    TraceMean(b, env, rb);
    LastRemembered(v, sa, Calls(a), sa + Calls(a));
    LastRemembered(w, sb, Calls(b), sb + Calls(b));
    LastRemembered(u, ra, Calls(a), ra + Steps(Canon(a)));
    LastRemembered(x, rb, Calls(b), rb + Steps(Canon(b)));
  }

  lemma ScopeOfTracing(env: Env)
    ensures Scope(Tracing(), env) == env.Keys
  {
  }

  lemma LastRemembered(v: Value, n: nat, calls: nat, m: nat)
    requires Remembers(v, n, calls, m) && calls > 0
    ensures Top(v) == m == n + calls
  {
  }

  lemma OutOfOrder(e: SExpr, cs: seq<RecordField>, env: Env, n: nat, k: nat,
                   vs: seq<Value>, us: seq<Value>, starts: seq<nat>, row: seq<nat>)
    requires e.SRecord? && Literals(env) && !Orderly(e.fields, env.Keys)
    requires forall i | 0 <= i < |e.fields| :: Straight(e.fields[i].value, env.Keys) && Fits(e.fields[i].value, env.Keys)
    requires RunsOf(e.fields, env, k, vs, starts) && RowOf(cs, env, n, us, row)
    requires cs == RecordFields(SortNamed(NamedFields(e.fields)))
    requires |starts| == |vs| == |cs| == |us| == |row| == |e.fields|
    ensures NameFields(cs, us) != SortNamed(NameValues(e.fields, vs))
  {
    hide *;
    var fields := e.fields;
    var i, j := ChangePlaces(fields, env.Keys);
    var p, q := PlacesChange(fields, i, j);
    FieldAt(fields, cs, env, n, k, vs, us, starts, row, p);
    FieldAt(fields, cs, env, n, k, vs, us, starts, row, q);
    InTurn(fields, cs, env, n, k, vs, us, starts, row, i, j, p, q);
    AtPlaceCanon(fields, cs, vs, q);
    PairApart(fields[i].value, fields[j].value, env, vs[i], us[p], vs[j], us[q], starts[i], starts[j], row[p], row[q]);
    if us[p] != vs[i] { DifferAt(fields, cs, us, vs, p); } else { DifferAt(fields, cs, us, vs, q); }
  }

  lemma AtPlaceCanon(fields: seq<SField>, cs: seq<RecordField>, vs: seq<Value>, q: nat)
    requires cs == RecordFields(SortNamed(NamedFields(fields))) && q < |fields| == |vs| == |cs| && Places(fields)[q].1 < |fields|
    ensures cs[q].value == Canon(fields[Places(fields)[q].1].value)
  {
    AtPlace(fields, vs, q);
    hide Places, SortNamed, Canon;
  }

  /** Two fields in the wrong order, both with calls. */
  lemma ChangePlaces(fields: seq<SField>, scope: set<string>) returns (i: nat, j: nat)
    requires !Orderly(fields, scope) && forall i | 0 <= i < |fields| :: Straight(fields[i].value, scope)
    ensures i < j < |fields| && Less(fields[j].name, fields[i].name)
    ensures Calls(fields[i].value) > 0 && Calls(fields[j].value) > 0
  {
    hide Silent, Certain, Straight, Calls;
    i, j :| 0 <= i < j < |fields| && Less(fields[j].name, fields[i].name)
            && !Independent(fields[i].value, fields[j].value, scope);
    if Calls(fields[i].value) == 0 { CallsNothing(fields[i].value, scope); }
    if Calls(fields[j].value) == 0 { CallsNothing(fields[j].value, scope); }
  }

  // ---- the theorem ----

  /** A straight expression whose records are orderly and whose pipes are as written means what its canonical form
      means; any other is told apart from its canonical form by the interpretation that remembers calls. */
  lemma StraightExact(e: SExpr, env: Env, n: nat)
    requires Straight(e, env.Keys) && Literals(env)
    ensures Eval(Tracing(), Canon(e), env, n) == Mean(Tracing(), e, env, n) <==> Fits(e, env.Keys)
    ensures !Fits(e, env.Keys) ==> Eval(Tracing(), Canon(e), env, n).0 != Mean(Tracing(), e, env, n).0
  {
    hide *;
    if Fits(e, env.Keys) {
      TracingAllowed();
      ScopeOfTracing(env);
      CanonMeans(Tracing(), e, env, n);
    } else if Piped(e) {
      IsUnfit(e, env);
      Apart(e, env, n, n);
      DiffersIs(e, env, n, n);
    } else {
      TraceMean(e, env, n);
      CanonKeeps(e, env.Keys);
      KeptCalling(e, env.Keys);
      EvalTags(Canon(e), env, n);
      FewerTags(Eval(Tracing(), Canon(e), env, n).0, Mean(Tracing(), e, env, n).0, n, Steps(Canon(e)), Calls(e),
                Mean(Tracing(), e, env, n).1);
    }
  }

  lemma IsUnfit(e: SExpr, env: Env)
    requires Straight(e, env.Keys) && Literals(env) && Piped(e) && !Fits(e, env.Keys)
    ensures Unfit(e, env)
  {
  }

  lemma FewerTags(a: Outcome, b: Outcome, n: nat, steps: nat, calls: nat, m: nat)
    requires a.Val? && b.Val? && Tags(a.v) == steps && Remembers(b.v, n, calls, m) && steps < calls
    ensures a != b
  {
  }

  /** `{ y: f(), x: g() }`, x before y: g is called first. */
  lemma SortingReordersCalls(x: string, y: string, f: string, g: string, env: Env, n: nat)
    requires Less(x, y) && f in env && g in env && Literals(env)
    requires !IsConstructorName(Unqualified(f)) && !IsConstructorName(Unqualified(g))
    ensures var e := SRecord([SField(y, SCall(SVar(f), [])), SField(x, SCall(SVar(g), []))]);
            Eval(Tracing(), Canon(e), env, n).0 != Mean(Tracing(), e, env, n).0
  {
    var a, b := SCall(SVar(f), []), SCall(SVar(g), []);
    CallOfName(f, env.Keys);
    CallOfName(g, env.Keys);
    hide Unqualified, IsConstructorName, Less, Canon, Mean, Eval, Tracing, Silent, Certain, Literals;
    var e := SRecord([SField(y, a), SField(x, b)]);
    assert !Independent(a, b, env.Keys);
    assert !Orderly(e.fields, env.Keys) by { assert e.fields[0].value == a && e.fields[1].value == b; }
    hide Orderly;
    assert !Fits(e, env.Keys);
    assert Straight(e, env.Keys);
    hide Straight, Fits;
    StraightExact(e, env, n);
  }

  lemma CallOfName(f: string, scope: set<string>)
    requires f in scope && !IsConstructorName(Unqualified(f))
    ensures var e := SCall(SVar(f), []); Straight(e, scope) && !Silent(e) && !Certain(e, scope)
  {
    hide Unqualified, IsConstructorName;
    assert Straight(SVar(f), scope);
  }

  /** `x |> (y |> f)` means f(y) applied to x; its canonical form calls f with both. */
  lemma NestedPipe(x: string, y: string, f: string, env: Env, n: nat)
    requires x in env && y in env && f in env && Literals(env) && !IsConstructorName(Unqualified(f))
    ensures var e := SPipe(SVar(x), SPipe(SVar(y), SVar(f)));
            && Eval(Tracing(), Canon(e), env, n).0 != Mean(Tracing(), e, env, n).0
            && Canon(e) == Call(Var(f), [Canon(SVar(x)), Canon(SVar(y))])
  {
    hide Unqualified, IsConstructorName;
    var inner := SPipe(SVar(y), SVar(f));
    assert Canon(inner) == Call(Var(f), [Canon(SVar(y))]);
    assert [Canon(SVar(x))] + [Canon(SVar(y))] == [Canon(SVar(x)), Canon(SVar(y))];
    PipeMerges(SVar(x), inner);
    hide Canon, Mean, Eval, Tracing;
    assert Straight(inner, env.Keys);
    assert !PipesAsWritten(inner);
    StraightExact(SPipe(SVar(x), inner), env, n);
  }
}
