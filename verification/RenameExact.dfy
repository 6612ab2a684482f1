/** For expressions whose calls write down what they are given, renaming a let keeps the meaning exactly when the
    new name is not free in its body and captures nothing (crates/lex-ast/src/transforms.rs:152-191, 503-558). */
module RenameExact {
  import opened Options
  import opened Ast
  import opened Meaning
  import opened EvalLaws
  import opened AstKids
  import opened Transforms
  import opened RenameLaws

  /** The calls made so far: what was called, with what. */
  type Log = seq<(Value, seq<Value>)>

  /** A call writes down what it is given and answers with the number of calls before it. */
  function Logging(): Interp<Log> {
    Interp(map[], (op, a, b) => None, (op, a) => None, (a, b) => a == b,
           (f, args, w) => (Some(VFun(|w|)), w + [(f, args)]), f => 0)
  }

  /** Calls, lets and blocks of calls, and what is built of them: every variable evaluated is written down or returned. */
  predicate Shown(e: CExpr) {
    match e
    case Literal(_) | Var(_) => true
    case Call(callee, args) => Shown(callee) && forall i | 0 <= i < |args| :: Shown(args[i])
    case Let(_, _, bound, body) => bound.Call? && Shown(bound) && Shown(body)
    case Block(statements, result) =>
      (forall i | 0 <= i < |statements| :: statements[i].Call? && Shown(statements[i])) && Shown(result)
    case Constructor(_, args) => forall i | 0 <= i < |args| :: Shown(args[i])
    case TupleLit(items) => forall i | 0 <= i < |items| :: Shown(items[i])
    case ListLit(items) => forall i | 0 <= i < |items| :: Shown(items[i])
    case _ => false
  }

  predicate Listed(e: CExpr) {
    e.Call? || e.Block? || e.Constructor? || e.TupleLit? || e.ListLit?
  }

  lemma ShownKids(e: CExpr)
    requires Shown(e)
    ensures e.Literal? || e.Var? || e.Let? || Listed(e)
    ensures forall i | 0 <= i < |Kids(e)| :: Shown(Kids(e)[i])
    ensures Listed(e) ==> forall i | 0 <= i < |Kids(e)| :: KidBinds(e, i) == {}
    ensures e.Block? ==> forall i | 0 <= i < |Kids(e)| - 1 :: Kids(e)[i].Call?
  {
  }

  function After(e: CExpr, ren: bool, x: string, y: string): CExpr {
    if ren then RewriteVar(e, x, y) else e
  }

  function AfterAll(es: seq<CExpr>, ren: bool, x: string, y: string): (r: seq<CExpr>)
    ensures |r| == |es|
  {
    seq(|es|, i requires 0 <= i < |es| => After(es[i], ren, x, y))
  }

  lemma AfterListed(e: CExpr, ren: bool, x: string, y: string)
    requires Listed(e)
    ensures var r := After(e, ren, x, y); Kids(r) == AfterAll(Kids(e), ren, x, y) && SameNode(e, r)
  {
    hide RewriteVar;
    if ren {
      RenameByKids(e, x, y);
      forall i | 0 <= i < |Kids(e)| ensures KidBinds(e, i) == {} {}
      assert RenamedKids(e, x, y) == AfterAll(Kids(e), ren, x, y);
      KidsOfWith(e, RenamedKids(e, x, y));
      NodeOf(e, RenamedKids(e, x, y));
    } else {
      assert AfterAll(Kids(e), ren, x, y) == Kids(e);
    }
  }

  predicate SameNode(e: CExpr, r: CExpr) {
    match (e, r)
    case (Call(_, _), Call(_, _)) => true
    case (Block(_, _), Block(_, _)) => true
    case (Constructor(n, _), Constructor(m, _)) => n == m
    case (TupleLit(_), TupleLit(_)) => true
    case (ListLit(_), ListLit(_)) => true
    case _ => false
  }

  lemma NodeOf(e: CExpr, ks: seq<CExpr>)
    requires Listed(e) && |ks| == |Kids(e)|
    ensures SameNode(e, WithKids(e, ks))
  {
  }

  // ---- evaluating part by part ----

  function Whole(e: CExpr, vs: seq<Value>, w: Log): (Outcome, Log) {
    match e
    case Call(_, _) => if vs == [] then (Fail, w) else (Val(VFun(|w|)), w + [(vs[0], vs[1..])])
    case Block(_, _) => if vs == [] then (Fail, w) else (Val(vs[|vs| - 1]), w)
    case Constructor(name, _) => (Val(VCon(name, vs)), w)
    case TupleLit(_) => (Val(VTup(vs)), w)
    case _ => (Val(VList(vs)), w)
  }

  lemma ByKids(e: CExpr, env: Env, w: Log)
    requires Listed(e) && EvalAll(Logging(), Kids(e), env, w).0.Vals?
    ensures var (r, w1) := EvalAll(Logging(), Kids(e), env, w);
            Eval(Logging(), e, env, w) == Whole(e, r.vs, w1) && |r.vs| == |Kids(e)|
    ensures (e.Call? || e.Block?) ==> |Kids(e)| > 0
  {
    hide EvalAll;
    match e {
      case Call(callee, args) =>
        AllCons(callee, args, env, w);
      case Block(statements, result) =>
        AllSnoc(statements, result, env, w);
      case _ =>
    }
  }

  lemma AllCons(e: CExpr, es: seq<CExpr>, env: Env, w: Log)
    ensures var (first, w1) := Eval(Logging(), e, env, w);
            var (rest, w2) := EvalAll(Logging(), es, env, w1);
            EvalAll(Logging(), [e] + es, env, w) ==
            if !first.Val? then (Stop(first), w1) else if rest.Stop? then (rest, w2) else (Vals([first.v] + rest.vs), w2)
  {
    hide Logging;
    assert ([e] + es)[1..] == es;
  }

  lemma {:induction false} AllSnoc(es: seq<CExpr>, e: CExpr, env: Env, w: Log)
    ensures var (rest, w1) := EvalAll(Logging(), es, env, w);
            var (last, w2) := Eval(Logging(), e, env, w1);
            EvalAll(Logging(), es + [e], env, w) ==
            if rest.Stop? then (rest, w1) else if !last.Val? then (Stop(last), w2) else (Vals(rest.vs + [last.v]), w2)
    decreases |es|
  {
    hide Logging, Eval;
    if es == [] {
      assert es + [e] == [e] + [];
      AllCons(e, [], env, w);
      var v := Eval(Logging(), e, env, w).0;
      if v.Val? { assert [v.v] + [] == [] + [v.v]; }
    } else {
      assert es + [e] == [es[0]] + (es[1..] + [e]);
      assert es == [es[0]] + es[1..];
      AllCons(es[0], es[1..] + [e], env, w);
      AllCons(es[0], es[1..], env, w);
      var (first, w1) := Eval(Logging(), es[0], env, w);
      AllSnoc(es[1..], e, env, w1);
      var (rest, w2) := EvalAll(Logging(), es[1..], env, w1);
      var last := Eval(Logging(), e, env, w2).0;
      if first.Val? && rest.Vals? && last.Val? {
        assert [first.v] + (rest.vs + [last.v]) == ([first.v] + rest.vs) + [last.v];
      }
      hide EvalAll;
    }
  }

  // ---- two evaluations side by side ----

  /** Both have values after equally many calls; a call's value is its number. */
  ghost predicate Abreast(e: CExpr, r: (Outcome, Log), s: (Outcome, Log), w: Log, w': Log) {
    && r.0.Val? && s.0.Val? && w <= r.1 && w' <= s.1 && |r.1| == |s.1|
    && (e.Call? ==> |r.1| > |w| && r.0.v == s.0.v == VFun(|r.1| - 1))
  }

  ghost predicate AllAbreast(r: (Outcomes, Log), s: (Outcomes, Log), w: Log, w': Log) {
    r.0.Vals? && s.0.Vals? && |r.0.vs| == |s.0.vs| && w <= r.1 && w' <= s.1 && |r.1| == |s.1|
  }

  ghost predicate Keep(e: CExpr, e': CExpr, env: Env, env': Env) {
    forall w: Log, w': Log | |w| == |w'| :: Abreast(e, Eval(Logging(), e, env, w), Eval(Logging(), e', env', w'), w, w')
  }

  lemma {:induction false} AllKeep(es: seq<CExpr>, es': seq<CExpr>, env: Env, env': Env, w: Log, w': Log)
    requires |es| == |es'| && |w| == |w'| && forall i | 0 <= i < |es| :: Keep(es[i], es'[i], env, env')
    ensures AllAbreast(EvalAll(Logging(), es, env, w), EvalAll(Logging(), es', env', w'), w, w')
    decreases |es|
  {
    hide Logging, Eval;
    if es != [] {
      var r, s := Eval(Logging(), es[0], env, w), Eval(Logging(), es'[0], env', w');
      assert Keep(es[0], es'[0], env, env');
      assert Abreast(es[0], r, s, w, w');
      AllKeep(es[1..], es'[1..], env, env', r.1, s.1);
      assert es == [es[0]] + es[1..] && es' == [es'[0]] + es'[1..];
      AllCons(es[0], es[1..], env, w);
      AllCons(es'[0], es'[1..], env', w');
      hide EvalAll;
    }
  }

  lemma {:induction false} Keeping(e: CExpr, ren: bool, x: string, y: string, env: Env, env': Env)
    requires Shown(e) && FreeVars(e) <= env.Keys && FreeVars(After(e, ren, x, y)) <= env'.Keys
    ensures Keep(e, After(e, ren, x, y), env, env')
    decreases e
  {
    hide *;
    ShownKids(e);
    if Listed(e) {
      KidsFree(e, ren, x, y, env, env');
      forall i | 0 <= i < |Kids(e)| ensures Keep(Kids(e)[i], AfterAll(Kids(e), ren, x, y)[i], env, env') {
        Keeping(Kids(e)[i], ren, x, y, env, env');
      }
      ListKeeps(e, ren, x, y, env, env');
    } else if e.Let? {
      LetShown(e);
      LetFree(e, ren, x, y, env, env');
      LetAfter(e, ren, x, y);
      Keeping(e.bound, ren, x, y, env, env');
      forall v ensures Keep(e.body, After(e.body, ren && e.name != x, x, y), Put(env, e.name, v), Put(env', e.name, v)) {
        Keeping(e.body, ren && e.name != x, x, y, Put(env, e.name, v), Put(env', e.name, v));
      }
      LetKeeps(e, After(e, ren, x, y), env, env');
    } else {
      LeafKeeps(e, ren, x, y, env, env');
    }
  }

  function Put(env: Env, x: string, v: Value): (r: Env)
    ensures r.Keys == env.Keys + {x}
  {
    env[x := v]
  }

  lemma LeafKeeps(e: CExpr, ren: bool, x: string, y: string, env: Env, env': Env)
    requires (e.Literal? || e.Var?) && FreeVars(e) <= env.Keys && FreeVars(After(e, ren, x, y)) <= env'.Keys
    ensures Keep(e, After(e, ren, x, y), env, env')
  {
  }

  lemma KidsFree(e: CExpr, ren: bool, x: string, y: string, env: Env, env': Env)
    requires Listed(e) && FreeVars(e) <= env.Keys && FreeVars(After(e, ren, x, y)) <= env'.Keys
    ensures forall i | 0 <= i < |Kids(e)| :: FreeVars(Kids(e)[i]) <= env.Keys
    ensures forall i | 0 <= i < |Kids(e)| ::
              AfterAll(Kids(e), ren, x, y)[i] == After(Kids(e)[i], ren, x, y) && FreeVars(After(Kids(e)[i], ren, x, y)) <= env'.Keys
  {
    AfterListed(e, ren, x, y);
    ListedFree(e, env);
    ListedFree(After(e, ren, x, y), env');
    hide After, FreeVars, Kids;
    var kids, es := Kids(After(e, ren, x, y)), AfterAll(Kids(e), ren, x, y);
    forall i | 0 <= i < |Kids(e)|
      ensures es[i] == After(Kids(e)[i], ren, x, y) && FreeVars(After(Kids(e)[i], ren, x, y)) <= env'.Keys
    {
      assert FreeVars(kids[i]) <= env'.Keys;
    }
  }

  lemma ListedFree(e: CExpr, env: Env)
    requires Listed(e) && FreeVars(e) <= env.Keys
    ensures forall i | 0 <= i < |Kids(e)| :: FreeVars(Kids(e)[i]) <= env.Keys
  {
    assert forall i | 0 <= i < |Kids(e)| :: KidBinds(e, i) == {};
    hide FreeVars, KidBinds, Kids;
    forall i, z | 0 <= i < |Kids(e)| && z in FreeVars(Kids(e)[i]) ensures z in env {
      FreeVarsBelow(e, z);
    }
  }

  lemma LetFree(e: CExpr, ren: bool, x: string, y: string, env: Env, env': Env)
    requires e.Let? && FreeVars(e) <= env.Keys && FreeVars(After(e, ren, x, y)) <= env'.Keys
    ensures FreeVars(e.bound) <= env.Keys && FreeVars(After(e.bound, ren, x, y)) <= env'.Keys
    ensures FreeVars(e.body) <= env.Keys + {e.name}
    ensures FreeVars(After(e.body, ren && e.name != x, x, y)) <= env'.Keys + {e.name}
  {
  }

  lemma LetAfter(e: CExpr, ren: bool, x: string, y: string)
    requires e.Let?
    ensures After(e, ren, x, y) == Let(e.name, e.ty, After(e.bound, ren, x, y), After(e.body, ren && e.name != x, x, y))
  {
  }

  lemma ListKeeps(e: CExpr, ren: bool, x: string, y: string, env: Env, env': Env)
    requires Listed(e) && forall i | 0 <= i < |Kids(e)| :: Keep(Kids(e)[i], AfterAll(Kids(e), ren, x, y)[i], env, env')
    ensures Keep(e, After(e, ren, x, y), env, env')
  {
    AfterListed(e, ren, x, y);
    var c := After(e, ren, x, y);
    hide *;
    forall w: Log, w': Log | |w| == |w'| ensures Abreast(e, Eval(Logging(), e, env, w), Eval(Logging(), c, env', w'), w, w') {
      AllKeep(Kids(e), Kids(c), env, env', w, w');
      var r, s := EvalAll(Logging(), Kids(e), env, w), EvalAll(Logging(), Kids(c), env', w');
      AbreastVals(r, s, w, w');
      ByKids(e, env, w);
      ByKids(c, env', w');
      WholeAbreast(e, c, r, s, w, w');
    }
    KeepIs(e, c, env, env');
  }

  lemma WholeAbreast(e: CExpr, c: CExpr, r: (Outcomes, Log), s: (Outcomes, Log), w: Log, w': Log)
    requires Listed(e) && SameNode(e, c) && AllAbreast(r, s, w, w') && ((e.Call? || e.Block?) ==> r.0.vs != [])
    ensures Abreast(e, Whole(e, r.0.vs, r.1), Whole(c, s.0.vs, s.1), w, w')
  {
  }

  lemma KeepIs(e: CExpr, c: CExpr, env: Env, env': Env)
    requires forall w: Log, w': Log | |w| == |w'| :: Abreast(e, Eval(Logging(), e, env, w), Eval(Logging(), c, env', w'), w, w')
    ensures Keep(e, c, env, env')
  {
  }

  lemma LetKeeps(e: CExpr, c: CExpr, env: Env, env': Env)
    requires e.Let? && c.Let? && c.name == e.name && e.bound.Call? && Keep(e.bound, c.bound, env, env')
    requires forall v :: Keep(e.body, c.body, Put(env, e.name, v), Put(env', e.name, v))
    ensures Keep(e, c, env, env')
  {
    hide Logging, Keep;
    forall w: Log, w': Log | |w| == |w'| ensures Abreast(e, Eval(Logging(), e, env, w), Eval(Logging(), c, env', w'), w, w') {
      KeptAt(e.bound, c.bound, env, env', w, w');
      var r, s := Eval(Logging(), e.bound, env, w), Eval(Logging(), c.bound, env', w');
      KeptAt(e.body, c.body, Put(env, e.name, r.0.v), Put(env', e.name, r.0.v), r.1, s.1);
    }
    KeepIs(e, c, env, env');
  }

  lemma KeptAt(e: CExpr, c: CExpr, env: Env, env': Env, w: Log, w': Log)
    requires Keep(e, c, env, env') && |w| == |w'|
    ensures Abreast(e, Eval(Logging(), e, env, w), Eval(Logging(), c, env', w'), w, w')
  {
  }

  // ---- what is told apart ----

  ghost predicate Told(e: CExpr, r: (Outcome, Log), s: (Outcome, Log)) {
    r.1 != s.1 || (!e.Call? && r.0 != s.0)
  }

  ghost predicate ListTold(es: seq<CExpr>, r: (Outcomes, Log), s: (Outcomes, Log)) {
    r.1 != s.1
    || (r.0.Vals? && s.0.Vals? && |r.0.vs| == |s.0.vs| == |es|
        && exists i :: 0 <= i < |es| && !es[i].Call? && r.0.vs[i] != s.0.vs[i])
  }

  /** Told apart once `n` calls have been made. */
  ghost predicate Tell(e: CExpr, e': CExpr, env: Env, env': Env, n: nat) {
    forall w: Log, w': Log | n <= |w| == |w'| :: Told(e, Eval(Logging(), e, env, w), Eval(Logging(), e', env', w'))
  }

  lemma ToldAt(e: CExpr, c: CExpr, env: Env, env': Env, n: nat, w: Log, w': Log)
    requires Tell(e, c, env, env', n) && n <= |w| == |w'|
    ensures Told(e, Eval(Logging(), e, env, w), Eval(Logging(), c, env', w'))
  {
  }

  lemma TellIs(e: CExpr, c: CExpr, env: Env, env': Env, n: nat)
    requires forall w: Log, w': Log | n <= |w| == |w'| :: Told(e, Eval(Logging(), e, env, w), Eval(Logging(), c, env', w'))
    ensures Tell(e, c, env, env', n)
  {
  }

  lemma {:induction false} AllTell(es: seq<CExpr>, es': seq<CExpr>, env: Env, env': Env, n: nat, i: nat, w: Log, w': Log)
    requires |es| == |es'| && n <= |w| == |w'| && forall k | 0 <= k < |es| :: Keep(es[k], es'[k], env, env')
    requires i < |es| && Tell(es[i], es'[i], env, env', n)
    ensures ListTold(es, EvalAll(Logging(), es, env, w), EvalAll(Logging(), es', env', w'))
    decreases |es|
  {
    hide Logging, Eval, EvalAll, Keep, Tell;
    KeptAt(es[0], es'[0], env, env', w, w');
    var r, s := Eval(Logging(), es[0], env, w), Eval(Logging(), es'[0], env', w');
    AllKeep(es[1..], es'[1..], env, env', r.1, s.1);
    assert es == [es[0]] + es[1..] && es' == [es'[0]] + es'[1..];
    AllCons(es[0], es[1..], env, w);
    AllCons(es'[0], es'[1..], env', w');
    if i == 0 {
      ToldAt(es[0], es'[0], env, env', n, w, w');
      FirstTold(es, r, s, EvalAll(Logging(), es[1..], env, r.1), EvalAll(Logging(), es'[1..], env', s.1));
    } else {
      AllTell(es[1..], es'[1..], env, env', n, i - 1, r.1, s.1);
      RestTold(es, r, s, EvalAll(Logging(), es[1..], env, r.1), EvalAll(Logging(), es'[1..], env', s.1));
    }
  }

  lemma FirstTold(es: seq<CExpr>, r: (Outcome, Log), s: (Outcome, Log), rs: (Outcomes, Log), ss: (Outcomes, Log))
    requires es != [] && r.0.Val? && s.0.Val? && |r.1| == |s.1| && AllAbreast(rs, ss, r.1, s.1) && |rs.0.vs| == |es| - 1
    requires Told(es[0], r, s)
    ensures ListTold(es, (Vals([r.0.v] + rs.0.vs), rs.1), (Vals([s.0.v] + ss.0.vs), ss.1))
  {
    if r.1 == s.1 {
      assert ([r.0.v] + rs.0.vs)[0] != ([s.0.v] + ss.0.vs)[0];
    } else {
      assert rs.1[..|r.1|] != ss.1[..|r.1|];
    }
  }

  lemma RestTold(es: seq<CExpr>, r: (Outcome, Log), s: (Outcome, Log), rs: (Outcomes, Log), ss: (Outcomes, Log))
    requires es != [] && r.0.Val? && s.0.Val? && AllAbreast(rs, ss, r.1, s.1) && |rs.0.vs| == |es| - 1
    requires ListTold(es[1..], rs, ss)
    ensures ListTold(es, (Vals([r.0.v] + rs.0.vs), rs.1), (Vals([s.0.v] + ss.0.vs), ss.1))
  {
    if rs.1 == ss.1 {
      var i :| 0 <= i < |es[1..]| && !es[1..][i].Call? && rs.0.vs[i] != ss.0.vs[i];
      assert !es[i + 1].Call? && ([r.0.v] + rs.0.vs)[i + 1] != ([s.0.v] + ss.0.vs)[i + 1];
    }
  }

  lemma ListTells(e: CExpr, ren: bool, x: string, y: string, env: Env, env': Env, n: nat, i: nat)
    requires Listed(e) && forall k | 0 <= k < |Kids(e)| :: Keep(Kids(e)[k], AfterAll(Kids(e), ren, x, y)[k], env, env')
    requires e.Block? ==> forall k | 0 <= k < |Kids(e)| - 1 :: Kids(e)[k].Call?
    requires i < |Kids(e)| && Tell(Kids(e)[i], AfterAll(Kids(e), ren, x, y)[i], env, env', n)
    ensures Tell(e, After(e, ren, x, y), env, env', n)
  {
    AfterListed(e, ren, x, y);
    var c := After(e, ren, x, y);
    hide *;
    forall w: Log, w': Log | n <= |w| == |w'| ensures Told(e, Eval(Logging(), e, env, w), Eval(Logging(), c, env', w')) {
      AllKeep(Kids(e), Kids(c), env, env', w, w');
      AllTell(Kids(e), Kids(c), env, env', n, i, w, w');
      var r, s := EvalAll(Logging(), Kids(e), env, w), EvalAll(Logging(), Kids(c), env', w');
      AbreastVals(r, s, w, w');
      ByKids(e, env, w);
      ByKids(c, env', w');
      WholeTold(e, c, Kids(e), r, s);
    }
    TellIs(e, c, env, env', n);
  }

  lemma AbreastVals(r: (Outcomes, Log), s: (Outcomes, Log), w: Log, w': Log)
    requires AllAbreast(r, s, w, w')
    ensures r.0.Vals? && s.0.Vals? && |r.1| == |s.1|
  {
  }

  lemma WholeTold(e: CExpr, c: CExpr, es: seq<CExpr>, r: (Outcomes, Log), s: (Outcomes, Log))
    requires Listed(e) && SameNode(e, c) && r.0.Vals? && s.0.Vals? && |r.0.vs| == |s.0.vs| == |es| && |r.1| == |s.1|
    requires (e.Call? || e.Block?) ==> |es| > 0
    requires e.Block? ==> forall k | 0 <= k < |es| - 1 :: es[k].Call?
    requires ListTold(es, r, s)
    ensures Told(e, Whole(e, r.0.vs, r.1), Whole(c, s.0.vs, s.1))
  {
    if e.Call? {
      var a, b := (r.0.vs[0], r.0.vs[1..]), (s.0.vs[0], s.0.vs[1..]);
      assert [a.0] + a.1 == r.0.vs && [b.0] + b.1 == s.0.vs;
      SnocTold(r.1, a, s.1, b);
    }
  }

  lemma SnocTold(w: Log, a: (Value, seq<Value>), w': Log, b: (Value, seq<Value>))
    requires |w| == |w'| && (w != w' || a != b)
    ensures w + [a] != w' + [b]
  {
    assert (w + [a])[..|w|] == w && (w' + [b])[..|w|] == w' && (w + [a])[|w|] == a && (w' + [b])[|w|] == b;
  }

  lemma LetTells(e: CExpr, c: CExpr, env: Env, env': Env, n: nat)
    requires e.Let? && c.Let? && c.name == e.name && e.bound.Call? && Keep(e.bound, c.bound, env, env')
    requires forall v :: Keep(e.body, c.body, Put(env, e.name, v), Put(env', e.name, v))
    requires Tell(e.bound, c.bound, env, env', n)
          || forall k: nat | k >= n :: Tell(e.body, c.body, Put(env, e.name, VFun(k)), Put(env', e.name, VFun(k)), k + 1)
    ensures Tell(e, c, env, env', n)
  {
    hide Logging, Keep, Tell;
    forall w: Log, w': Log | n <= |w| == |w'| ensures Told(e, Eval(Logging(), e, env, w), Eval(Logging(), c, env', w')) {
      KeptAt(e.bound, c.bound, env, env', w, w');
      var r, s := Eval(Logging(), e.bound, env, w), Eval(Logging(), c.bound, env', w');
      var k := |r.1| - 1;
      KeptAt(e.body, c.body, Put(env, e.name, r.0.v), Put(env', e.name, r.0.v), r.1, s.1);
      var p, q := Eval(Logging(), e.body, Put(env, e.name, r.0.v), r.1), Eval(Logging(), c.body, Put(env', e.name, r.0.v), s.1);
      if Tell(e.bound, c.bound, env, env', n) {
        ToldAt(e.bound, c.bound, env, env', n, w, w');
        assert p.1[..|r.1|] != q.1[..|r.1|];
      } else {
        ToldAt(e.body, c.body, Put(env, e.name, VFun(k)), Put(env', e.name, VFun(k)), k + 1, r.1, s.1);
      }
    }
    TellIs(e, c, env, env', n);
  }

  // ---- what renaming changes ----

  function Renamed(z: string, ren: bool, x: string, y: string): string {
    if ren && z == x then y else z
  }

  /** Some variable reads another value after the renaming, or an occurrence is captured. */
  ghost predicate Odd(e: CExpr, ren: bool, x: string, y: string, env: Env, env': Env) {
    || (exists z :: z in FreeVars(e) && Unlike(z, Renamed(z, ren, x, y), env, env'))
    || (ren && !CaptureFree(e, x, y))
  }

  ghost predicate Unlike(z: string, z': string, env: Env, env': Env) {
    z in env && (z' in env' ==> env[z] != env'[z'])
  }

  /** No value is the number of a call to come. */
  ghost predicate Old(env: Env, n: nat) {
    forall z | z in env :: env[z].VFun? ==> env[z].id < n
  }

  lemma OddKid(e: CExpr, ren: bool, x: string, y: string, env: Env, env': Env) returns (i: nat)
    requires Listed(e) && Odd(e, ren, x, y, env, env')
    ensures i < |Kids(e)| && Odd(Kids(e)[i], ren, x, y, env, env')
  {
    assert forall k | 0 <= k < |Kids(e)| :: KidBinds(e, k) == {};
    hide FreeVars, Kids, KidBinds, Unlike;
    if z :| z in FreeVars(e) && Unlike(z, Renamed(z, ren, x, y), env, env') {
      FreeVarsBelow(e, z);
      i :| 0 <= i < |Kids(e)| && z in FreeVars(Kids(e)[i]);
    } else {
      assert !CaptureFree(e, x, y);
      i :| 0 <= i < |Kids(e)| && x in FreeVars(Kids(e)[i]) && !CaptureFree(Kids(e)[i], x, y);
    }
  }

  lemma OddLet(e: CExpr, ren: bool, x: string, y: string, env: Env, env': Env, n: nat)
    requires e.Let? && Odd(e, ren, x, y, env, env') && Old(env, n) && FreeVars(e) <= env.Keys
    ensures Odd(e.bound, ren, x, y, env, env')
         || forall k: nat | k >= n ::
              Odd(e.body, ren && e.name != x, x, y, Put(env, e.name, VFun(k)), Put(env', e.name, VFun(k)))
  {
    if z :| z in FreeVars(e) && Unlike(z, Renamed(z, ren, x, y), env, env') {
      if z !in FreeVars(e.bound) {
        forall k: nat | k >= n
          ensures Odd(e.body, ren && e.name != x, x, y, Put(env, e.name, VFun(k)), Put(env', e.name, VFun(k)))
        {
          UnlikeBelow(e, ren, x, y, env, env', n, k, z);
        }
      }
    } else if CaptureFree(e.bound, x, y) {
      CapturedBelow(e, x, y);
      forall k: nat | k >= n
        ensures Odd(e.body, ren && e.name != x, x, y, Put(env, e.name, VFun(k)), Put(env', e.name, VFun(k)))
      {
        if e.name == y {
          assert Unlike(x, Renamed(x, true, x, y), Put(env, e.name, VFun(k)), Put(env', e.name, VFun(k)));
        }
      }
    }
  }

  lemma UnlikeBelow(e: CExpr, ren: bool, x: string, y: string, env: Env, env': Env, n: nat, k: nat, z: string)
    requires e.Let? && Old(env, n) && k >= n && z in FreeVars(e.body) && z != e.name
    requires Unlike(z, Renamed(z, ren, x, y), env, env')
    ensures Odd(e.body, ren && e.name != x, x, y, Put(env, e.name, VFun(k)), Put(env', e.name, VFun(k)))
  {
    hide FreeVars, CaptureFree;
    assert Unlike(z, Renamed(z, ren && e.name != x, x, y), Put(env, e.name, VFun(k)), Put(env', e.name, VFun(k)));
  }

  lemma CapturedBelow(e: CExpr, x: string, y: string)
    requires e.Let? && !CaptureFree(e, x, y) && CaptureFree(e.bound, x, y)
    ensures x != e.name && x in FreeVars(e.body) && (e.name == y || !CaptureFree(e.body, x, y))
  {
    assert Kids(e) == [e.bound, e.body];
    hide FreeVars;
  }

  lemma {:induction false} Apart(e: CExpr, ren: bool, x: string, y: string, env: Env, env': Env, n: nat)
    requires Shown(e) && FreeVars(e) <= env.Keys && FreeVars(After(e, ren, x, y)) <= env'.Keys
    requires Old(env, n) && Odd(e, ren, x, y, env, env')
    ensures Tell(e, After(e, ren, x, y), env, env', n)
    decreases e
  {
    hide *;
    ShownKids(e);
    if Listed(e) {
      KidsFree(e, ren, x, y, env, env');
      forall i | 0 <= i < |Kids(e)| ensures Keep(Kids(e)[i], AfterAll(Kids(e), ren, x, y)[i], env, env') {
        Keeping(Kids(e)[i], ren, x, y, env, env');
      }
      var i := OddKid(e, ren, x, y, env, env');
      Apart(Kids(e)[i], ren, x, y, env, env', n);
      ListTells(e, ren, x, y, env, env', n, i);
    } else if e.Let? {
      LetApart(e, ren, x, y, env, env', n);
    } else {
      LeafApart(e, ren, x, y, env, env', n);
    }
  }

  lemma {:induction false} LetApart(e: CExpr, ren: bool, x: string, y: string, env: Env, env': Env, n: nat)
    requires e.Let? && Shown(e) && FreeVars(e) <= env.Keys && FreeVars(After(e, ren, x, y)) <= env'.Keys
    requires Old(env, n) && Odd(e, ren, x, y, env, env')
    ensures Tell(e, After(e, ren, x, y), env, env', n)
    decreases e, 0
  {
    hide *;
    LetShown(e);
    LetFree(e, ren, x, y, env, env');
    LetAfter(e, ren, x, y);
    var inner := ren && e.name != x;
    Keeping(e.bound, ren, x, y, env, env');
    forall v ensures Keep(e.body, After(e.body, inner, x, y), Put(env, e.name, v), Put(env', e.name, v)) {
      Keeping(e.body, inner, x, y, Put(env, e.name, v), Put(env', e.name, v));
    }
    OddLet(e, ren, x, y, env, env', n);
    if Odd(e.bound, ren, x, y, env, env') {
      Apart(e.bound, ren, x, y, env, env', n);
    } else {
      forall k: nat | k >= n
        ensures Tell(e.body, After(e.body, inner, x, y), Put(env, e.name, VFun(k)), Put(env', e.name, VFun(k)), k + 1)
      {
        StillOld(env, e.name, n, k);
        Apart(e.body, inner, x, y, Put(env, e.name, VFun(k)), Put(env', e.name, VFun(k)), k + 1);
      }
    }
    LetTells(e, After(e, ren, x, y), env, env', n);
  }

  lemma LetShown(e: CExpr)
    requires e.Let? && Shown(e)
    ensures e.bound.Call? && Shown(e.bound) && Shown(e.body)
  {
  }

  lemma StillOld(env: Env, a: string, n: nat, k: nat)
    requires Old(env, n) && k >= n
    ensures Old(Put(env, a, VFun(k)), k + 1)
  {
  }

  lemma LeafApart(e: CExpr, ren: bool, x: string, y: string, env: Env, env': Env, n: nat)
    requires (e.Literal? || e.Var?) && FreeVars(e) <= env.Keys && FreeVars(After(e, ren, x, y)) <= env'.Keys
    requires Odd(e, ren, x, y, env, env')
    ensures Tell(e, After(e, ren, x, y), env, env', n)
  {
  }

  // ---- exactly when ----

  /** What can be free once renamed. */
  lemma {:induction false} RenamedFree(e: CExpr, x: string, y: string)
    ensures FreeVars(RewriteVar(e, x, y)) <= FreeVars(e) + {y}
    decreases e
  {
    if !e.Var? {
      hide Kids, KidBinds, RewriteVar, FreeVars, WithKids;
      var ks := RenamedKids(e, x, y);
      RenameByKids(e, x, y);
      forall i | 0 <= i < |ks| ensures FreeVars(ks[i]) <= FreeVars(Kids(e)[i]) + {y} {
        RenamedFree(Kids(e)[i], x, y);
      }
      KidsNames(e, ks, y);
    }
  }

  lemma KidsNames(e: CExpr, ks: seq<CExpr>, y: string)
    requires !e.Var? && |ks| == |Kids(e)| && forall i | 0 <= i < |ks| :: FreeVars(ks[i]) <= FreeVars(Kids(e)[i]) + {y}
    ensures FreeVars(WithKids(e, ks)) <= FreeVars(e) + {y}
  {
    hide Kids, KidBinds, FreeVars, WithKids;
    KidsOfWith(e, ks);
    StaysVar(e, ks);
    forall z | z in FreeVars(WithKids(e, ks)) ensures z in FreeVars(e) + {y} {
      FreeVarsBelow(WithKids(e, ks), z);
      FreeVarsBelow(e, z);
    }
  }

  /** The expressions mean the same wherever they are evaluated, whatever calls do with a log. */
  ghost predicate AlwaysSame(e: CExpr, c: CExpr) {
    forall I: Interp<Log>, env: Env :: Extensional(I) ==> Same(true, I, e, env, c, env)
  }

  /** Renaming a let over such expressions keeps its meaning exactly when the new name is not free in the body and
      captures nothing there. */
  lemma RenameExactly(e: CExpr, name: string)
    requires e.Let? && Shown(e) && name != e.name
    ensures AlwaysSame(e, RenamedLet(e, name)) <==> RenameSafe(e.body, e.name, name)
  {
    hide *;
    if RenameSafe(e.body, e.name, name) {
      SafeAlways(e, name);
    } else {
      UnsafeDiffers(e, name);
    }
  }

  lemma SafeAlways(e: CExpr, name: string)
    requires e.Let? && RenameSafe(e.body, e.name, name)
    ensures AlwaysSame(e, RenamedLet(e, name))
  {
    hide Extensional, Same, RenameSafe, RenamedLet;
    forall I: Interp<Log>, env: Env | Extensional(I) ensures Same(true, I, e, env, RenamedLet(e, name), env) {
      RenameMeaning(I, e, name, env);
    }
  }

  /** Every free variable is unit. */
  function Units(names: set<string>): (env: Env)
    ensures env.Keys == names
  {
    map z | z in names :: VLit(Unit)
  }

  lemma UnsafeDiffers(e: CExpr, name: string)
    requires e.Let? && Shown(e) && name != e.name && !RenameSafe(e.body, e.name, name)
    ensures !AlwaysSame(e, RenamedLet(e, name))
  {
    hide *;
    var env, x := Units(FreeVars(e) + {name}), e.name;
    LetShown(e);
    LetFreeIs(e);
    Keeping(e.bound, false, x, name, env, env) by { NotRenamed(e.bound, x, name); }
    NotRenamed(e.bound, x, name);
    KeptAt(e.bound, e.bound, env, env, [], []);
    var r := Eval(Logging(), e.bound, env, []);
    CallNumber(e.bound, r);
    var k := |r.1| - 1;
    BodyFree(e, name, k);
    Renames(e.body, x, name);
    BodyOdd(e, name, k);
    Apart(e.body, true, x, name, Put(env, x, VFun(k)), Put(env, name, VFun(k)), k + 1);
    ToldAt(e.body, RewriteVar(e.body, x, name), Put(env, x, VFun(k)), Put(env, name, VFun(k)), k + 1, r.1, r.1);
    LetDiffers(e, name, env, k);
  }

  lemma LetFreeIs(e: CExpr)
    requires e.Let?
    ensures FreeVars(e.bound) <= FreeVars(e) && FreeVars(e.body) <= FreeVars(e) + {e.name}
  {
  }

  lemma BodyFree(e: CExpr, name: string, k: nat)
    requires e.Let? && name != e.name
    ensures var env := Units(FreeVars(e) + {name});
            && FreeVars(e.body) <= Put(env, e.name, VFun(k)).Keys
            && FreeVars(RewriteVar(e.body, e.name, name)) <= Put(env, name, VFun(k)).Keys
  {
    LetFreeIs(e);
    RenamedFree(e.body, e.name, name);
    RenameRemoves(e.body, e.name, name);
    hide FreeVars, RewriteVar;
  }

  lemma NotRenamed(e: CExpr, x: string, y: string)
    ensures After(e, false, x, y) == e
  {
  }

  lemma Renames(e: CExpr, x: string, y: string)
    ensures After(e, true, x, y) == RewriteVar(e, x, y)
  {
  }

  lemma CallNumber(e: CExpr, r: (Outcome, Log))
    requires e.Call? && Abreast(e, r, r, [], [])
    ensures |r.1| > 0 && r.0 == Val(VFun(|r.1| - 1))
  {
  }

  lemma BodyOdd(e: CExpr, name: string, k: nat)
    requires e.Let? && name != e.name && !RenameSafe(e.body, e.name, name)
    ensures var env := Units(FreeVars(e) + {name});
            Old(Put(env, e.name, VFun(k)), k + 1)
            && Odd(e.body, true, e.name, name, Put(env, e.name, VFun(k)), Put(env, name, VFun(k)))
  {
    var env := Units(FreeVars(e) + {name});
    hide FreeVars, CaptureFree;
    if name in FreeVars(e.body) {
      assert Unlike(name, Renamed(name, true, e.name, name), Put(env, e.name, VFun(k)), Put(env, name, VFun(k)));
    }
  }

  lemma LetDiffers(e: CExpr, name: string, env: Env, k: nat)
    requires e.Let?
    requires var r := Eval(Logging(), e.bound, env, []);
             && r.0 == Val(VFun(k))
             && Told(e.body, Eval(Logging(), e.body, Put(env, e.name, VFun(k)), r.1),
                     Eval(Logging(), RewriteVar(e.body, e.name, name), Put(env, name, VFun(k)), r.1))
    ensures !AlwaysSame(e, RenamedLet(e, name))
  {
    var c := RenamedLet(e, name);
    hide RewriteVar;
    assert Eval(Logging(), e, env, []) != Eval(Logging(), c, env, []);
    hide Eval, Logging;
    assert !Agree(true, Eval(Logging(), e, env, []), Eval(Logging(), c, env, []));
    assert !Same(true, Logging(), e, env, c, env);
    LoggingExtensional();
  }

  lemma LoggingExtensional()
    ensures Extensional(Logging())
  {
  }
}
