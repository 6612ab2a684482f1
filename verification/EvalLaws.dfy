/** Laws of evaluation: expressions built alike from parts that mean the same mean the same, and the
    meaning of an expression depends on its free variables only. */
module EvalLaws {
  import opened Ast
  import opened Meaning

  /** Equal results; when not strict, the left one may also have failed. */
  ghost predicate Agree<W>(strict: bool, r: (Outcome, W), s: (Outcome, W)) {
    r == s || (!strict && r.0.Fail?)
  }

  ghost predicate AgreeAll<W>(strict: bool, r: (Outcomes, W), s: (Outcomes, W)) {
    r == s || (!strict && r.0 == Stop(Fail))
  }

  /** `e` in `env` means what `e'` means in `env'`, whatever the world; when not strict, unless `e` fails. */
  ghost predicate Same<W(!new)>(strict: bool, I: Interp<W>, e: CExpr, env: Env, e': CExpr, env': Env) {
    forall w: W :: Agree(strict, Eval(I, e, env, w), Eval(I, e', env', w))
  }

  ghost predicate AllSame<W(!new)>(strict: bool, I: Interp<W>, es: seq<CExpr>, env: Env, es': seq<CExpr>, env': Env) {
    |es| == |es'| && forall i | 0 <= i < |es| :: Same(strict, I, es[i], env, es'[i], env')
  }

  ghost predicate FieldsSame<W(!new)>(strict: bool, I: Interp<W>, fs: seq<RecordField>, env: Env, fs': seq<RecordField>, env': Env) {
    |fs| == |fs'|
    && forall i | 0 <= i < |fs| :: fs[i].name == fs'[i].name && Same(strict, I, fs[i].value, env, fs'[i].value, env')
  }

  /** Bodies under the same new bindings, whatever values are bound. */
  ghost predicate UnderSame<W(!new)>(strict: bool, I: Interp<W>, names: set<string>,
                                     e: CExpr, env: Env, e': CExpr, env': Env) {
    forall b: Env | b.Keys == names :: Same(strict, I, e, env + b, e', env' + b)
  }

  ghost predicate ArmsSame<W(!new)>(strict: bool, I: Interp<W>, arms: seq<Arm>, env: Env, arms': seq<Arm>, env': Env) {
    |arms| == |arms'|
    && forall i | 0 <= i < |arms| ::
         arms[i].pattern == arms'[i].pattern
         && UnderSame(strict, I, PatternNames(arms[i].pattern), arms[i].body, env, arms'[i].body, env')
  }

  ghost predicate ParamsAlike(ps: seq<Param>, qs: seq<Param>) {
    |ps| == |qs| && forall i | 0 <= i < |ps| :: ps[i].name == qs[i].name
  }

  /** Same constructor, same labels, parts that mean the same. */
  ghost predicate PartsSame<W(!new)>(strict: bool, I: Interp<W>, e: CExpr, env: Env, e': CExpr, env': Env) {
    match (e, e')
    case (Literal(a), Literal(b)) => a == b
    case (Var(x), Var(y)) => Lookup(I, env, x) == Lookup(I, env', y)
    case (Call(c, as0), Call(c', as1)) => Same(strict, I, c, env, c', env') && AllSame(strict, I, as0, env, as1, env')
    case (Let(x, _, v, b), Let(x', _, v', b')) =>
      x == x' && Same(strict, I, v, env, v', env') && UnderSame(strict, I, {x}, b, env, b', env')
    case (Match(s, arms), Match(s', arms')) =>
      Same(strict, I, s, env, s', env') && ArmsSame(strict, I, arms, env, arms', env')
    case (Block(ss, r), Block(ss', r')) => AllSame(strict, I, ss, env, ss', env') && Same(strict, I, r, env, r', env')
    case (Constructor(n, as0), Constructor(n', as1)) => n == n' && AllSame(strict, I, as0, env, as1, env')
    case (RecordLit(fs), RecordLit(fs')) => FieldsSame(strict, I, fs, env, fs', env')
    case (TupleLit(es), TupleLit(es')) => AllSame(strict, I, es, env, es', env')
    case (ListLit(es), ListLit(es')) => AllSame(strict, I, es, env, es', env')
    case (FieldAccess(r, f), FieldAccess(r', f')) => f == f' && Same(strict, I, r, env, r', env')
    case (Lambda(ps, _, _, _, b), Lambda(ps', _, _, _, b')) =>
      ParamsAlike(ps, ps') && UnderSame(true, I, ParamNames(ps), b, env, b', env')
    case (BinOp(op, l, r), BinOp(op', l', r')) =>
      op == op' && Same(strict, I, l, env, l', env') && Same(strict, I, r, env, r', env')
    case (UnaryOp(op, x), UnaryOp(op', x')) => op == op' && Same(strict, I, x, env, x', env')
    case (Return(x), Return(x')) => Same(strict, I, x, env, x', env')
    case _ => false
  }

  lemma SameChain<W(!new)>(I: Interp<W>, d: CExpr, denv: Env, e: CExpr, eenv: Env, f: CExpr, fenv: Env)
    requires Same(true, I, d, denv, e, eenv) && Same(true, I, e, eenv, f, fenv)
    ensures Same(true, I, d, denv, f, fenv)
  {
    hide Eval;
    forall w: W ensures Agree(true, Eval(I, d, denv, w), Eval(I, f, fenv, w)) {
      assert Agree(true, Eval(I, d, denv, w), Eval(I, e, eenv, w));
      assert Agree(true, Eval(I, e, eenv, w), Eval(I, f, fenv, w));
    }
  }

  // ---- bindings ----

  function NamesIn(ps: seq<Pattern>): set<string> {
    set i, x | 0 <= i < |ps| && x in PatternNames(ps[i]) :: x
  }

  function FieldNamesIn(fs: seq<PatternField>): set<string> {
    set i, x | 0 <= i < |fs| && x in PatternNames(fs[i].pattern) :: x
  }

  lemma NamesInCons(ps: seq<Pattern>)
    requires ps != []
    ensures NamesIn(ps) == PatternNames(ps[0]) + NamesIn(ps[1..])
  {
    hide PatternNames;
    forall x | x in NamesIn(ps) ensures x in PatternNames(ps[0]) + NamesIn(ps[1..]) {
      var i :| 0 <= i < |ps| && x in PatternNames(ps[i]);
      if i > 0 { assert ps[1..][i - 1] == ps[i]; }
    }
    forall x | x in PatternNames(ps[0]) + NamesIn(ps[1..]) ensures x in NamesIn(ps) {
      if x !in PatternNames(ps[0]) {
        var i :| 0 <= i < |ps[1..]| && x in PatternNames(ps[1..][i]);
        assert ps[i + 1] == ps[1..][i];
      }
    }
  }

  lemma FieldNamesInCons(fs: seq<PatternField>)
    requires fs != []
    ensures FieldNamesIn(fs) == PatternNames(fs[0].pattern) + FieldNamesIn(fs[1..])
  {
    hide PatternNames;
    forall x | x in FieldNamesIn(fs) ensures x in PatternNames(fs[0].pattern) + FieldNamesIn(fs[1..]) {
      var i :| 0 <= i < |fs| && x in PatternNames(fs[i].pattern);
      if i > 0 { assert fs[1..][i - 1] == fs[i]; }
    }
    forall x | x in PatternNames(fs[0].pattern) + FieldNamesIn(fs[1..]) ensures x in FieldNamesIn(fs) {
      if x !in PatternNames(fs[0].pattern) {
        var i :| 0 <= i < |fs[1..]| && x in PatternNames(fs[1..][i].pattern);
        assert fs[i + 1] == fs[1..][i];
      }
    }
  }

  lemma PatternNamesAre(p: Pattern)
    ensures p.PConstructor? ==> PatternNames(p) == NamesIn(p.args)
    ensures p.PTuple? ==> PatternNames(p) == NamesIn(p.items)
    ensures p.PRecord? ==> PatternNames(p) == FieldNamesIn(p.fields)
  {
  }

  lemma {:induction false} PatternKeys<W>(I: Interp<W>, p: Pattern, v: Value)
    ensures var b := MatchPattern(I, p, v); b.Some? ==> b.value.Keys == PatternNames(p)
    decreases p
  {
    PatternNamesAre(p);
    match p
    case PWild | PVar(_) | PLiteral(_) =>
    case PConstructor(name, args) =>
      if v.VCon? && |v.args| == |args| { PatternsKeys(I, args, v.args); }
    case PTuple(items) =>
      if v.VTup? && |v.items| == |items| { PatternsKeys(I, items, v.items); }
    case PRecord(fields) =>
      if v.VRec? { FieldsKeys(I, fields, v.fields); }
  }

  lemma {:induction false} PatternsKeys<W>(I: Interp<W>, ps: seq<Pattern>, vs: seq<Value>)
    requires |ps| == |vs|
    ensures var b := MatchPatterns(I, ps, vs); b.Some? ==> b.value.Keys == NamesIn(ps)
    decreases ps
  {
    if ps != [] {
      NamesInCons(ps);
      PatternKeys(I, ps[0], vs[0]);
      PatternsKeys(I, ps[1..], vs[1..]);
    }
  }

  lemma {:induction false} FieldsKeys<W>(I: Interp<W>, fs: seq<PatternField>, vs: seq<(string, Value)>)
    ensures var b := MatchFields(I, fs, vs); b.Some? ==> b.value.Keys == FieldNamesIn(fs)
    decreases fs
  {
    if fs != [] {
      FieldNamesInCons(fs);
      var v := FieldOf(vs, fs[0].name);
      if v.Some? { PatternKeys(I, fs[0].pattern, v.value); }
      FieldsKeys(I, fs[1..], vs);
    }
  }

  lemma {:induction false} PickKeys<W>(I: Interp<W>, arms: seq<Arm>, v: Value)
    ensures var p := Pick(I, arms, v);
            p.Some? ==> p.value.1.Keys == PatternNames(arms[p.value.0].pattern)
    decreases |arms|
  {
    if arms != [] {
      PatternKeys(I, arms[0].pattern, v);
      PickKeys(I, arms[1..], v);
    }
  }

  lemma {:induction false} PickByPatterns<W>(I: Interp<W>, arms: seq<Arm>, arms': seq<Arm>, v: Value)
    requires |arms| == |arms'| && forall i | 0 <= i < |arms| :: arms[i].pattern == arms'[i].pattern
    ensures Pick(I, arms, v) == Pick(I, arms', v)
    decreases |arms|
  {
    if arms != [] {
      PickByPatterns(I, arms[1..], arms'[1..], v);
    }
  }

  lemma {:induction false} BindKeys(params: seq<Param>, args: seq<Value>)
    requires |params| == |args|
    ensures Bind(params, args).Keys == ParamNames(params)
    decreases |params|
  {
    if params != [] {
      BindKeys(params[1..], args[1..]);
      forall x ensures x in ParamNames(params) <==> x == params[0].name || x in ParamNames(params[1..]) {
        if i :| 0 <= i < |params| && params[i].name == x {
          assert i > 0 ==> params[1..][i - 1] == params[i];
        }
        if i :| 0 <= i < |params[1..]| && params[1..][i].name == x {
          assert params[1..][i] == params[i + 1];
        }
      }
    }
  }

  lemma {:induction false} BindAlike(ps: seq<Param>, qs: seq<Param>, args: seq<Value>)
    requires ParamsAlike(ps, qs) && |ps| == |args|
    ensures Bind(ps, args) == Bind(qs, args)
    decreases |ps|
  {
    if ps != [] {
      BindAlike(ps[1..], qs[1..], args[1..]);
    }
  }

  // ---- congruence ----

  lemma {:induction false} AllCong<W(!new)>(strict: bool, I: Interp<W>, es: seq<CExpr>, env: Env, es': seq<CExpr>, env': Env, w: W)
    requires AllSame(strict, I, es, env, es', env')
    ensures AgreeAll(strict, EvalAll(I, es, env, w), EvalAll(I, es', env', w))
    decreases |es|
  {
    hide Eval;
    if es != [] {
      assert Same(strict, I, es[0], env, es'[0], env');
      assert Agree(strict, Eval(I, es[0], env, w), Eval(I, es'[0], env', w));
      var (first, w1) := Eval(I, es[0], env, w);
      if first.Val? {
        forall i | 0 <= i < |es[1..]| ensures Same(strict, I, es[1..][i], env, es'[1..][i], env') {
          assert Same(strict, I, es[i + 1], env, es'[i + 1], env');
        }
        AllCong(strict, I, es[1..], env, es'[1..], env', w1);
      }
    }
  }

  lemma {:induction false} FieldsCong<W(!new)>(strict: bool, I: Interp<W>, fs: seq<RecordField>, env: Env, fs': seq<RecordField>, env': Env, w: W)
    requires FieldsSame(strict, I, fs, env, fs', env')
    ensures AgreeAll(strict, EvalFields(I, fs, env, w), EvalFields(I, fs', env', w))
    decreases |fs|
  {
    hide Eval;
    if fs != [] {
      assert Same(strict, I, fs[0].value, env, fs'[0].value, env');
      assert Agree(strict, Eval(I, fs[0].value, env, w), Eval(I, fs'[0].value, env', w));
      var (first, w1) := Eval(I, fs[0].value, env, w);
      if first.Val? {
        forall i | 0 <= i < |fs[1..]|
          ensures fs[1..][i].name == fs'[1..][i].name && Same(strict, I, fs[1..][i].value, env, fs'[1..][i].value, env') {
          assert Same(strict, I, fs[i + 1].value, env, fs'[i + 1].value, env');
        }
        FieldsCong(strict, I, fs[1..], env, fs'[1..], env', w1);
      }
    }
  }

  lemma MatchCong<W(!new)>(strict: bool, I: Interp<W>, e: CExpr, env: Env, e': CExpr, env': Env, w: W)
    requires e.Match? && e'.Match? && PartsSame(strict, I, e, env, e', env')
    ensures Agree(strict, Eval(I, e, env, w), Eval(I, e', env', w))
  {
    var s := Eval(I, e.scrutinee, env, w);
    assert Agree(strict, s, Eval(I, e'.scrutinee, env', w));
    if s.0.Val? {
      PickByPatterns(I, e.arms, e'.arms, s.0.v);
      PickKeys(I, e.arms, s.0.v);
      var pick := Pick(I, e.arms, s.0.v);
      if pick.Some? {
        var i, b := pick.value.0, pick.value.1;
        assert UnderSame(strict, I, PatternNames(e.arms[i].pattern), e.arms[i].body, env, e'.arms[i].body, env');
        assert Same(strict, I, e.arms[i].body, env + b, e'.arms[i].body, env' + b);
      }
    }
  }

  lemma LetCong<W(!new)>(strict: bool, I: Interp<W>, e: CExpr, env: Env, e': CExpr, env': Env, w: W)
    requires e.Let? && e'.Let? && PartsSame(strict, I, e, env, e', env')
    ensures Agree(strict, Eval(I, e, env, w), Eval(I, e', env', w))
  {
    var b := Eval(I, e.bound, env, w);
    assert Agree(strict, b, Eval(I, e'.bound, env', w));
    if b.0.Val? {
      var m := map[e.name := b.0.v];
      assert env[e.name := b.0.v] == env + m && env'[e.name := b.0.v] == env' + m;
      assert m.Keys == {e.name};
      assert Same(strict, I, e.body, env + m, e'.body, env' + m);
    }
  }

  lemma LambdaCong<W(!new)>(strict: bool, I: Interp<W>, e: CExpr, env: Env, e': CExpr, env': Env, w: W)
    requires e.Lambda? && e'.Lambda? && Extensional(I) && PartsSame(strict, I, e, env, e', env')
    ensures Eval(I, e, env, w) == Eval(I, e', env', w)
  {
    var f, g := Denote(I, e.params, e.body, env), Denote(I, e'.params, e'.body, env');
    forall args: seq<Value>, w: W ensures f(args, w) == g(args, w) {
      if |args| == |e.params| {
        BindAlike(e.params, e'.params, args);
        BindKeys(e.params, args);
        var b := Bind(e.params, args);
        assert Same(true, I, e.body, env + b, e'.body, env' + b);
        assert Agree(true, Eval(I, e.body, env + b, w), Eval(I, e'.body, env' + b, w));
      }
    }
    assert I.close(f) == I.close(g);
  }

  lemma ListCong<W(!new)>(strict: bool, I: Interp<W>, e: CExpr, env: Env, e': CExpr, env': Env, w: W)
    requires e.Call? || e.Block? || e.Constructor? || e.RecordLit? || e.TupleLit? || e.ListLit?
    requires PartsSame(strict, I, e, env, e', env')
    ensures Agree(strict, Eval(I, e, env, w), Eval(I, e', env', w))
  {
    match e
    case Call(c, args) =>
      var f := Eval(I, c, env, w);
      assert Agree(strict, f, Eval(I, e'.callee, env', w));
      AllCong(strict, I, args, env, e'.args, env', f.1);
    case Block(ss, r) =>
      AllCong(strict, I, ss, env, e'.statements, env', w);
      var w1 := EvalAll(I, ss, env, w).1;
      assert Agree(strict, Eval(I, r, env, w1), Eval(I, e'.result, env', w1));
    case Constructor(_, args) => AllCong(strict, I, args, env, e'.args, env', w);
    case RecordLit(fs) =>
      FieldsCong(strict, I, fs, env, e'.fields, env', w);
      var r := EvalFields(I, fs, env, w).0;
      if r.Vals? {
        assert NameFields(fs, r.vs) == NameFields(e'.fields, r.vs);
      }
    case TupleLit(items) => AllCong(strict, I, items, env, e'.items, env', w);
    case ListLit(items) => AllCong(strict, I, items, env, e'.items, env', w);
  }

  lemma PlainCong<W(!new)>(strict: bool, I: Interp<W>, e: CExpr, env: Env, e': CExpr, env': Env, w: W)
    requires e.Literal? || e.Var? || e.FieldAccess? || e.BinOp? || e.UnaryOp? || e.Return?
    requires PartsSame(strict, I, e, env, e', env')
    ensures Agree(strict, Eval(I, e, env, w), Eval(I, e', env', w))
  {
    match e
    case Literal(_) =>
    case Var(_) =>
    case FieldAccess(r, _) => assert Agree(strict, Eval(I, r, env, w), Eval(I, e'.record, env', w));
    case BinOp(_, l, r) =>
      var a := Eval(I, l, env, w);
      assert Agree(strict, a, Eval(I, e'.lhs, env', w));
      assert Agree(strict, Eval(I, r, env, a.1), Eval(I, e'.rhs, env', a.1));
    case UnaryOp(_, x) => assert Agree(strict, Eval(I, x, env, w), Eval(I, e'.operand, env', w));
    case Return(x) => assert Agree(strict, Eval(I, x, env, w), Eval(I, e'.result, env', w));
  }

  /** Congruence: parts that mean the same make wholes that mean the same. */
  lemma Congruence<W(!new)>(strict: bool, I: Interp<W>, e: CExpr, env: Env, e': CExpr, env': Env)
    requires Extensional(I) && PartsSame(strict, I, e, env, e', env')
    ensures Same(strict, I, e, env, e', env')
  {
    hide Eval, PartsSame;
    assert SameKind(e, e') by { SameKindOf(strict, I, e, env, e', env'); }
    forall w: W ensures Agree(strict, Eval(I, e, env, w), Eval(I, e', env', w)) {
      if e.Match? {
        MatchCong(strict, I, e, env, e', env', w);
      } else if e.Let? {
        LetCong(strict, I, e, env, e', env', w);
      } else if e.Lambda? {
        LambdaCong(strict, I, e, env, e', env', w);
      } else if e.Literal? || e.Var? || e.FieldAccess? || e.BinOp? || e.UnaryOp? || e.Return? {
        PlainCong(strict, I, e, env, e', env', w);
      } else {
        ListCong(strict, I, e, env, e', env', w);
      }
    }
  }

  predicate SameKind(e: CExpr, e': CExpr) {
    (e.Match? ==> e'.Match?) && (e.Let? ==> e'.Let?) && (e.Lambda? ==> e'.Lambda?)
  }

  lemma SameKindOf<W(!new)>(strict: bool, I: Interp<W>, e: CExpr, env: Env, e': CExpr, env': Env)
    requires PartsSame(strict, I, e, env, e', env')
    ensures SameKind(e, e')
  {
  }

  // ---- only the free variables matter ----

  ghost predicate AgreeOn<W>(I: Interp<W>, names: set<string>, env: Env, env': Env) {
    forall x | x in names :: Lookup(I, env, x) == Lookup(I, env', x)
  }

  lemma AgreeUnder<W>(I: Interp<W>, names: set<string>, inner: set<string>, env: Env, env': Env, b: Env)
    requires AgreeOn(I, names, env, env') && inner - b.Keys <= names
    ensures AgreeOn(I, inner, env + b, env' + b)
  {
    forall x | x in inner ensures Lookup(I, env + b, x) == Lookup(I, env' + b, x) {
      if x !in b {
        assert x in inner - b.Keys;
        assert Lookup(I, env, x) == Lookup(I, env', x);
      }
    }
  }

  /** Coincidence: environments that agree on the free variables give the same meaning. */
  lemma {:induction false} Coincidence<W(!new)>(I: Interp<W>, e: CExpr, env: Env, env': Env)
    requires Extensional(I) && AgreeOn(I, FreeVars(e), env, env')
    ensures Same(true, I, e, env, e, env')
    decreases e, 1
  {
    hide Same, Extensional, Lookup;
    if e.Let? || e.Match? || e.Lambda? {
      BinderCoincidence(I, e, env, env');
    } else if e.Call? || e.Block? || e.Constructor? || e.RecordLit? || e.TupleLit? || e.ListLit? {
      ListCoincidence(I, e, env, env');
    } else {
      match e {
        case Literal(_) | Var(_) =>
        case FieldAccess(record, _) => Coincidence(I, record, env, env');
        case BinOp(_, lhs, rhs) =>
          Coincidence(I, lhs, env, env');
          Coincidence(I, rhs, env, env');
        case UnaryOp(_, operand) => Coincidence(I, operand, env, env');
        case Return(result) => Coincidence(I, result, env, env');
      }
      Congruence(true, I, e, env, e, env');
    }
  }

  lemma {:induction false} BinderCoincidence<W(!new)>(I: Interp<W>, e: CExpr, env: Env, env': Env)
    requires Extensional(I) && AgreeOn(I, FreeVars(e), env, env') && (e.Let? || e.Match? || e.Lambda?)
    ensures Same(true, I, e, env, e, env')
    decreases e, 0
  {
    hide Same, Extensional, Lookup;
    match e {
      case Let(name, _, bound, body) =>
        Coincidence(I, bound, env, env');
        forall b: Env | b.Keys == {name} ensures Same(true, I, body, env + b, body, env' + b) {
          AgreeUnder(I, FreeVars(e), FreeVars(body), env, env', b);
          Coincidence(I, body, env + b, env' + b);
        }
      case Match(scrutinee, arms) =>
        Coincidence(I, scrutinee, env, env');
        forall i, b: Env | 0 <= i < |arms| && b.Keys == PatternNames(arms[i].pattern)
          ensures Same(true, I, arms[i].body, env + b, arms[i].body, env' + b)
        {
          AgreeUnder(I, FreeVars(e), FreeVars(arms[i].body), env, env', b);
          Coincidence(I, arms[i].body, env + b, env' + b);
        }
      case Lambda(params, _, _, _, body) =>
        forall b: Env | b.Keys == ParamNames(params) ensures Same(true, I, body, env + b, body, env' + b) {
          AgreeUnder(I, FreeVars(e), FreeVars(body), env, env', b);
          Coincidence(I, body, env + b, env' + b);
        }
    }
    Congruence(true, I, e, env, e, env');
  }

  lemma {:induction false} ListCoincidence<W(!new)>(I: Interp<W>, e: CExpr, env: Env, env': Env)
    requires Extensional(I) && AgreeOn(I, FreeVars(e), env, env')
    requires e.Call? || e.Block? || e.Constructor? || e.RecordLit? || e.TupleLit? || e.ListLit?
    ensures Same(true, I, e, env, e, env')
    decreases e, 0
  {
    hide Same, Extensional, Lookup;
    match e {
      case Call(callee, args) =>
        Coincidence(I, callee, env, env');
        forall i | 0 <= i < |args| ensures Same(true, I, args[i], env, args[i], env') {
          Coincidence(I, args[i], env, env');
        }
      case Block(statements, result) =>
        forall i | 0 <= i < |statements| ensures Same(true, I, statements[i], env, statements[i], env') {
          Coincidence(I, statements[i], env, env');
        }
        Coincidence(I, result, env, env');
      case Constructor(_, args) =>
        forall i | 0 <= i < |args| ensures Same(true, I, args[i], env, args[i], env') {
          Coincidence(I, args[i], env, env');
        }
      case RecordLit(fields) =>
        forall i | 0 <= i < |fields| ensures Same(true, I, fields[i].value, env, fields[i].value, env') {
          Coincidence(I, fields[i].value, env, env');
        }
      case TupleLit(items) =>
        forall i | 0 <= i < |items| ensures Same(true, I, items[i], env, items[i], env') {
          Coincidence(I, items[i], env, env');
        }
      case ListLit(items) =>
        forall i | 0 <= i < |items| ensures Same(true, I, items[i], env, items[i], env') {
          Coincidence(I, items[i], env, env');
        }
    }
    Congruence(true, I, e, env, e, env');
  }
}
