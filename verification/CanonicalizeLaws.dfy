/** The canonical form of a surface expression means what the expression means. */
module CanonicalizeLaws {
  import opened Options
  import opened Ast
  import opened Meaning
  import opened EvalLaws
  import opened AstKids
  import opened TransformLaws
  import opened Surface
  import opened Canonicalize
  import opened RecordOrder
  import opened PatternOrder
  import opened Utf8

  // ---- blocks ----

  lemma EvalDo<W>(I: Interp<W>, ss: seq<CStatement>, result: CExpr, env: Env, w: W)
    requires ss != [] && ss[0].CDo?
    ensures var (o, w1) := Eval(I, ss[0].e, env, w);
            Eval(I, Nest(ss, result), env, w) == if o.Val? then Eval(I, Nest(ss[1..], result), env, w1) else (o, w1)
  {
    var inner := Nest(ss[1..], result);
    var more := if |ss| > 1 && ss[1].CDo? then inner.statements else [];
    var last := if |ss| > 1 && ss[1].CDo? then inner.result else inner;
    assert Nest(ss, result) == Block([ss[0].e] + more, last);
    hide Nest;
    BlockCons(I, ss[0].e, more, last, env, w);
    EmptyBlock(I, last, env, Eval(I, ss[0].e, env, w).1);
  }

  lemma BlockCons<W>(I: Interp<W>, e: CExpr, more: seq<CExpr>, last: CExpr, env: Env, w: W)
    ensures var (o, w1) := Eval(I, e, env, w);
            Eval(I, Block([e] + more, last), env, w) == if o.Val? then Eval(I, Block(more, last), env, w1) else (o, w1)
  {
    assert ([e] + more)[1..] == more;
  }

  lemma EmptyBlock<W>(I: Interp<W>, last: CExpr, env: Env, w: W)
    ensures Eval(I, Block([], last), env, w) == Eval(I, last, env, w)
  {
  }

  // ---- the conditions ----

  /** Truth values are told apart from everything else. */
  ghost predicate BoolsDistinct<W>(I: Interp<W>) {
    forall b, lit :: I.litEq(Bool(b), lit) <==> lit == Bool(b)
  }

  /** What is desugared to a constructor. */
  predicate Builds(e: SExpr) {
    match e
    case SVar(_) => NamesConstructor(e)
    case SCall(callee, _) => NamesConstructor(callee)
    case SCon(_, _) => true
    case SPipe(_, right) => Builds(right)
    case SBraces(block) => block.statements == [] && Builds(block.result)
    case _ => false
  }

  /** What is desugared to a call or a constructor. */
  predicate Callish(e: SExpr) {
    e.SCall? || e.SCon? || e.SPipe? || NamesConstructor(e)
    || (e.SBraces? && e.block.statements == [] && Callish(e.block.result))
  }

  lemma {:induction false} CanonCallish(e: SExpr)
    ensures Canon(e).Constructor? <==> Builds(e)
    ensures Canon(e).Call? || Canon(e).Constructor? <==> Callish(e)
    decreases e
  {
    hide Unqualified, IsConstructorName, CanonStatement;
    if e.SPipe? {
      CanonCallish(e.right);
    } else if e.SBraces? {
      if e.block.statements == [] { CanonCallish(e.block.result); }
      BracesForm(e.block);
    } else {
      PlainForm(e);
    }
  }

  lemma PlainForm(e: SExpr)
    requires !e.SPipe? && !e.SBraces?
    ensures Canon(e).Constructor? <==> Builds(e)
    ensures Canon(e).Call? || Canon(e).Constructor? <==> Callish(e)
  {
  }

  lemma BracesForm(b: SBlock)
    ensures b.statements == [] ==> Canon(SBraces(b)) == Canon(b.result)
    ensures b.statements != [] ==> Canon(SBraces(b)).Let? || Canon(SBraces(b)).Block?
  {
    if b.statements == [] {
      assert CanonStatements(b) == [];
    } else {
      assert CanonStatements(b)[0] == CanonStatement(b.statements[0]);
    }
  }

  /** The right side of a pipe is a call or a constructor as written, or not desugared to one. */
  predicate PipesAsWritten(right: SExpr) {
    right.SCall? || right.SCon? || NamesConstructor(right) || !Callish(right)
  }

  /** No call and no `?`, lambdas aside. */
  predicate Silent(e: SExpr)
    decreases e, 1
  {
    match e
    case SLit(_) | SVar(_) | SFun(_) => true
    case SBraces(block) => SilentBlock(block)
    case SCall(callee, args) => NamesConstructor(callee) && forall i | 0 <= i < |args| :: Silent(args[i])
    case SPipe(left, right) => Builds(right) && Silent(left) && Silent(right)
    case STry(_) => false
    case SAccess(record, _) => Silent(record)
    case SBinOp(_, lhs, rhs) => Silent(lhs) && Silent(rhs)
    case SUnaryOp(_, operand) => Silent(operand)
    case SIf(cond, thenBlock, elseBlock) => Silent(cond) && SilentBlock(thenBlock) && SilentBlock(elseBlock)
    case SMatch(scrutinee, arms) => Silent(scrutinee) && forall i | 0 <= i < |arms| :: Silent(arms[i].body)
    case SRecord(fields) => forall i | 0 <= i < |fields| :: Silent(fields[i].value)
    case STuple(items) => forall i | 0 <= i < |items| :: Silent(items[i])
    case SList(items) => forall i | 0 <= i < |items| :: Silent(items[i])
    case SCon(_, args) => forall i | 0 <= i < |args| :: Silent(args[i])
    case SAscription(value, _) => Silent(value)
  }

  predicate SilentBlock(b: SBlock)
    decreases b, 0
  {
    Silent(b.result)
    && forall i | 0 <= i < |b.statements| ::
         match b.statements[i] case SLet(_, _, value) => Silent(value) case SDo(e) => Silent(e)
  }

  /** Never fails: literals, lambdas and names in scope, and what is built from them. */
  predicate Certain(e: SExpr, scope: set<string>) {
    match e
    case SLit(_) | SFun(_) => true
    case SVar(name) => NamesConstructor(e) || name in scope
    case SBraces(block) => block.statements == [] && Certain(block.result, scope)
    case SCall(callee, args) => NamesConstructor(callee) && forall i | 0 <= i < |args| :: Certain(args[i], scope)
    case SPipe(left, right) => Builds(right) && Certain(left, scope) && Certain(right, scope)
    case SRecord(fields) => forall i | 0 <= i < |fields| :: Certain(fields[i].value, scope)
    case STuple(items) => forall i | 0 <= i < |items| :: Certain(items[i], scope)
    case SList(items) => forall i | 0 <= i < |items| :: Certain(items[i], scope)
    case SCon(_, args) => forall i | 0 <= i < |args| :: Certain(args[i], scope)
    case SAscription(value, _) => Certain(value, scope)
    case _ => false
  }

  /** Two fields may change places: neither calls or returns, or one of them never fails and calls nothing. */
  predicate Independent(a: SExpr, b: SExpr, scope: set<string>) {
    (Silent(a) && Silent(b)) || Certain(a, scope) || Certain(b, scope)
  }

  /** Every two fields that sorting makes change places may. */
  predicate Orderly(fields: seq<SField>, scope: set<string>) {
    forall i, j | 0 <= i < j < |fields| && Less(fields[j].name, fields[i].name) ::
      Independent(fields[i].value, fields[j].value, scope)
  }

  /** Record literals are orderly, the last binder of a name in a record pattern stays last, pipes are as written. */
  predicate Fits(e: SExpr, scope: set<string>)
    decreases e, 1, 0
  {
    match e
    case SLit(_) | SVar(_) => true
    case SBraces(block) => FitsBlock(block, 0, scope)
    case SCall(callee, args) => Fits(callee, scope) && forall i | 0 <= i < |args| :: Fits(args[i], scope)
    case SPipe(left, right) => Fits(left, scope) && Fits(right, scope) && PipesAsWritten(right)
    case STry(inner) => Fits(inner, scope)
    case SAccess(record, _) => Fits(record, scope)
    case SBinOp(_, lhs, rhs) => Fits(lhs, scope) && Fits(rhs, scope)
    case SUnaryOp(_, operand) => Fits(operand, scope)
    case SIf(cond, thenBlock, elseBlock) =>
      Fits(cond, scope) && FitsBlock(thenBlock, 0, scope) && FitsBlock(elseBlock, 0, scope)
    case SMatch(scrutinee, arms) =>
      && Fits(scrutinee, scope)
      && forall i | 0 <= i < |arms| :: Settled(arms[i].pattern) && Fits(arms[i].body, scope + Bound(arms[i].pattern))
    case SRecord(fields) => Orderly(fields, scope) && forall i | 0 <= i < |fields| :: Fits(fields[i].value, scope)
    case STuple(items) => forall i | 0 <= i < |items| :: Fits(items[i], scope)
    case SList(items) => forall i | 0 <= i < |items| :: Fits(items[i], scope)
    case SCon(_, args) => forall i | 0 <= i < |args| :: Fits(args[i], scope)
    case SFun(l) => FitsBlock(l.body, 0, scope + ParamNames(l.params))
    case SAscription(value, _) => Fits(value, scope)
  }

  predicate FitsBlock(b: SBlock, i: nat, scope: set<string>)
    requires i <= |b.statements|
    decreases b, 0, |b.statements| - i
  {
    if i == |b.statements| then Fits(b.result, scope) else
      match b.statements[i]
      case SLet(name, _, value) => Fits(value, scope) && FitsBlock(b, i + 1, scope + {name})
      case SDo(e) => Fits(e, scope) && FitsBlock(b, i + 1, scope)
  }

  // ---- what they say of the canonical form ----

  lemma {:induction false} SilentQuiet(e: SExpr)
    requires Silent(e)
    ensures Quiet(Canon(e))
    decreases e, 1
  {
    if e.SCall? || e.STuple? || e.SList? || e.SCon? || e.SRecord? || e.SMatch? {
      SilentList(e);
    } else {
      SilentPlain(e);
    }
  }

  lemma {:induction false} SilentPlain(e: SExpr)
    requires Silent(e) && !e.SCall? && !e.STuple? && !e.SList? && !e.SCon? && !e.SRecord? && !e.SMatch?
    ensures Quiet(Canon(e))
    decreases e, 0
  {
    match e
    case SBraces(block) => SilentNest(block, |block.statements|);
    case SPipe(left, right) =>
      SilentQuiet(left);
      SilentQuiet(right);
      CanonCallish(right);
      QuietMore(Canon(left), Canon(right));
    case SAccess(record, _) => SilentQuiet(record);
    case SBinOp(_, lhs, rhs) =>
      SilentQuiet(lhs);
      SilentQuiet(rhs);
    case SUnaryOp(_, operand) => SilentQuiet(operand);
    case SIf(cond, thenBlock, elseBlock) =>
      SilentQuiet(cond);
      SilentNest(thenBlock, |thenBlock.statements|);
      SilentNest(elseBlock, |elseBlock.statements|);
      QuietIf(Canon(e));
    case SAscription(value, _) => SilentQuiet(value);
    case _ =>
  }

  lemma QuietMore(left: CExpr, right: CExpr)
    requires Quiet(left) && Quiet(right) && right.Constructor?
    ensures Quiet(CanonPipe(left, right))
  {
    var e := CanonPipe(left, right);
    forall i | 0 <= i < |Kids(e)| ensures Quiet(Kids(e)[i]) {
      if i > 0 { assert Kids(e)[i] == Kids(right)[i - 1]; }
    }
  }

  lemma QuietIf(e: CExpr)
    requires e.Match? && |e.arms| == 2 && Quiet(e.scrutinee) && Quiet(e.arms[0].body) && Quiet(e.arms[1].body)
    ensures Quiet(e)
  {
    assert Kids(e) == [e.scrutinee, e.arms[0].body, e.arms[1].body];
  }

  lemma {:induction false} SilentList(e: SExpr)
    requires Silent(e) && (e.SCall? || e.STuple? || e.SList? || e.SCon? || e.SRecord? || e.SMatch?)
    ensures Quiet(Canon(e))
    decreases e, 0
  {
    match e
    case SCall(_, args) => forall i | 0 <= i < |args| { SilentQuiet(args[i]); }
    case STuple(items) => forall i | 0 <= i < |items| { SilentQuiet(items[i]); }
    case SList(items) => forall i | 0 <= i < |items| { SilentQuiet(items[i]); }
    case SCon(_, args) => forall i | 0 <= i < |args| { SilentQuiet(args[i]); }
    case SMatch(scrutinee, arms) =>
      SilentQuiet(scrutinee);
      forall i | 0 <= i < |arms| { SilentQuiet(arms[i].body); }
    case SRecord(fields) =>
      forall i | 0 <= i < |fields| ensures Quiet(Canon(fields[i].value)) { SilentQuiet(fields[i].value); }
      var named := NamedFields(fields);
      SortKeepsMembers(named);
      SortedIn(named, x => Quiet(x));
  }

  lemma {:induction false} SortedIn(named: seq<(string, CExpr)>, p: CExpr -> bool)
    requires forall i | 0 <= i < |named| :: p(named[i].1)
    ensures |SortNamed(named)| == |named| && forall i | 0 <= i < |named| :: p(SortNamed(named)[i].1)
  {
    SortKeepsMembers(named);
    hide SortNamed;
    forall i | 0 <= i < |named| ensures p(SortNamed(named)[i].1) {
      var j := SortedFrom(named, i);
    }
  }

  function NamedFields(fields: seq<SField>): (named: seq<(string, CExpr)>)
    ensures |named| == |fields|
  {
    seq(|fields|, i requires 0 <= i < |fields| => (fields[i].name, Canon(fields[i].value)))
  }

  lemma {:induction false} SilentNest(b: SBlock, n: nat)
    requires SilentBlock(b) && n <= |b.statements|
    ensures Quiet(Nest(CanonStatements(b)[|b.statements| - n..], Canon(b.result)))
    ensures n == |b.statements| ==> Quiet(CanonBlock(b))
    decreases b, 0, n
  {
    var i, cs := |b.statements| - n, CanonStatements(b);
    assert cs[0..] == cs;
    if n == 0 {
      SilentQuiet(b.result);
    } else {
      SilentNest(b, n - 1);
      var rest := cs[i..];
      assert rest[1..] == cs[i + 1..] && rest[0] == CanonStatement(b.statements[i]);
      match b.statements[i] {
        case SLet(name, ty, value) => SilentQuiet(value);
        case SDo(e) => SilentQuiet(e);
      }
      hide Quiet, Canon;
      QuietNest(rest, Canon(b.result));
    }
  }

  lemma QuietNest(ss: seq<CStatement>, result: CExpr)
    requires ss != [] && Quiet(Nest(ss[1..], result))
    requires match ss[0] case CLet(_, _, value) => Quiet(value) case CDo(e) => Quiet(e)
    ensures Quiet(Nest(ss, result))
  {
    var inner, e := Nest(ss[1..], result), Nest(ss, result);
    if ss[0].CDo? && |ss| > 1 && ss[1].CDo? {
      forall i | 0 <= i < |Kids(e)| ensures Quiet(Kids(e)[i]) {
        if i > 0 { assert Kids(e)[i] == Kids(inner)[i - 1]; }
      }
    }
  }

  lemma {:induction false} CertainTotal(e: SExpr, scope: set<string>)
    requires Certain(e, scope)
    ensures Total(Canon(e), scope)
    decreases e
  {
    match e
    case SBraces(block) =>
      CertainTotal(block.result, scope);
      assert CanonStatements(block) == [];
    case SCall(_, args) => forall i | 0 <= i < |args| { CertainTotal(args[i], scope); }
    case SPipe(left, right) =>
      CertainTotal(left, scope);
      CertainTotal(right, scope);
      CanonCallish(right);
    case SRecord(fields) =>
      forall i | 0 <= i < |fields| ensures Total(Canon(fields[i].value), scope) { CertainTotal(fields[i].value, scope); }
      CertainRecord(fields, scope);
    case STuple(items) => forall i | 0 <= i < |items| { CertainTotal(items[i], scope); }
    case SList(items) => forall i | 0 <= i < |items| { CertainTotal(items[i], scope); }
    case SCon(_, args) => forall i | 0 <= i < |args| { CertainTotal(args[i], scope); }
    case SAscription(value, _) => CertainTotal(value, scope);
    case _ =>
  }

  lemma CertainRecord(fields: seq<SField>, scope: set<string>)
    requires forall i | 0 <= i < |fields| :: Total(Canon(fields[i].value), scope)
    ensures Total(Canon(SRecord(fields)), scope)
  {
    var sorted := SortNamed(NamedFields(fields));
    assert Canon(SRecord(fields)) == RecordLit(RecordFields(sorted));
    hide Canon, SortNamed;
    var total := x => Total(x, scope);
    SortedIn(NamedFields(fields), total);
    forall i | 0 <= i < |sorted| ensures Total(RecordFields(sorted)[i].value, scope) {
      assert RecordFields(sorted)[i].value == sorted[i].1 && total(sorted[i].1);
    }
  }

  /** Orderly fields are sortable once desugared. */
  lemma OrderlySortable(fields: seq<SField>, scope: set<string>)
    requires Orderly(fields, scope)
    ensures Sortable(NamedFields(fields), scope)
  {
    hide Silent, Certain, Quiet, Total, Canon;
    forall i, j | 0 <= i < j < |fields| && Less(fields[j].name, fields[i].name)
      ensures Commute(Canon(fields[i].value), Canon(fields[j].value), scope)
    {
      var a, b := fields[i].value, fields[j].value;
      assert Independent(a, b, scope);
      if Certain(a, scope) {
        CertainTotal(a, scope);
      } else if Certain(b, scope) {
        CertainTotal(b, scope);
      } else {
        SilentQuiet(a);
        SilentQuiet(b);
      }
    }
  }

  // ---- the theorem ----

  function CanonAll(es: seq<SExpr>): (cs: seq<CExpr>)
    ensures |cs| == |es|
  {
    seq(|es|, i requires 0 <= i < |es| => Canon(es[i]))
  }

  /** A surface expression and its canonical form give the same outcome, early returns included, and do
      the same to the world. */
  lemma {:induction false} CanonMeans<W(!new)>(I: Interp<W>, e: SExpr, env: Env, w: W)
    requires Extensional(I) && BoolsDistinct(I) && Fits(e, Scope(I, env))
    ensures Eval(I, Canon(e), env, w) == Mean(I, e, env, w)
    decreases e, 1, 0
  {
    hide *;
    match e {
      case SLit(_) => LitMeans(I, e, env, w);
      case SVar(_) => VarMeans(I, e, env, w);
      case SBraces(_) => BracesMean(I, e, env, w);
      case SCall(_, _) => CallMeans(I, e, env, w);
      case SPipe(_, _) => PipeMeans(I, e, env, w);
      case STry(_) => TryMeans(I, e, env, w);
      case SIf(_, _, _) => IfMeans(I, e, env, w);
      case SMatch(_, _) => MatchMeans(I, e, env, w);
      case SRecord(_) => RecordMeans(I, e, env, w);
      case STuple(_) => ListMeans(I, e, env, w);
      case SList(_) => ListMeans(I, e, env, w);
      case SCon(_, _) => ListMeans(I, e, env, w);
      case SFun(_) => FunMeans(I, e, env, w);
      case SAccess(_, _) => PlainMeans(I, e, env, w);
      case SBinOp(_, _, _) => BinOpMeans(I, e, env, w);
      case SUnaryOp(_, _) => PlainMeans(I, e, env, w);
      case SAscription(_, _) => PlainMeans(I, e, env, w);
    }
  }

  lemma LitMeans<W>(I: Interp<W>, e: SExpr, env: Env, w: W)
    requires e.SLit?
    ensures Eval(I, Canon(e), env, w) == Mean(I, e, env, w)
  {
  }

  lemma {:induction false} BracesMean<W(!new)>(I: Interp<W>, e: SExpr, env: Env, w: W)
    requires Extensional(I) && BoolsDistinct(I) && Fits(e, Scope(I, env)) && e.SBraces?
    ensures Eval(I, Canon(e), env, w) == Mean(I, e, env, w)
    decreases e, 0, 1
  {
    hide Extensional, BoolsDistinct, CanonBlock, FitsBlock;
    BlockMeans(I, e.block, CanonStatements(e.block), 0, env, w);
  }

  lemma {:induction false} BinOpMeans<W(!new)>(I: Interp<W>, e: SExpr, env: Env, w: W)
    requires Extensional(I) && BoolsDistinct(I) && Fits(e, Scope(I, env)) && e.SBinOp?
    ensures Eval(I, Canon(e), env, w) == Mean(I, e, env, w)
    decreases e, 0, 1
  {
    hide *;
    BinOpForm(e, Scope(I, env));
    CanonMeans(I, e.lhs, env, w);
    CanonMeans(I, e.rhs, env, Mean(I, e.lhs, env, w).1);
    BinOpEval(I, e.op, Canon(e.lhs), Canon(e.rhs), env, w);
    BinOpMeaning(I, e, env, w);
  }

  lemma BinOpForm(e: SExpr, scope: set<string>)
    requires e.SBinOp? && Fits(e, scope)
    ensures Canon(e) == BinOp(e.op, Canon(e.lhs), Canon(e.rhs)) && Fits(e.lhs, scope) && Fits(e.rhs, scope)
  {
  }

  function Operate<W>(I: Interp<W>, op: string, a: Outcome, b: Outcome): Outcome {
    if !a.Val? then a else if !b.Val? then b else FromOption(I.binop(op, a.v, b.v))
  }

  lemma BinOpEval<W>(I: Interp<W>, op: string, lhs: CExpr, rhs: CExpr, env: Env, w: W)
    ensures var (a, w1) := Eval(I, lhs, env, w);
            var (b, w2) := Eval(I, rhs, env, w1);
            Eval(I, BinOp(op, lhs, rhs), env, w) == (Operate(I, op, a, b), if a.Val? then w2 else w1)
  {
  }

  lemma BinOpMeaning<W>(I: Interp<W>, e: SExpr, env: Env, w: W)
    requires e.SBinOp?
    ensures var (a, w1) := Mean(I, e.lhs, env, w);
            var (b, w2) := Mean(I, e.rhs, env, w1);
            Mean(I, e, env, w) == (Operate(I, e.op, a, b), if a.Val? then w2 else w1)
  {
  }

  lemma {:induction false} PlainMeans<W(!new)>(I: Interp<W>, e: SExpr, env: Env, w: W)
    requires Extensional(I) && BoolsDistinct(I) && Fits(e, Scope(I, env))
    requires e.SAccess? || e.SUnaryOp? || e.SAscription?
    ensures Eval(I, Canon(e), env, w) == Mean(I, e, env, w)
    decreases e, 0, 1
  {
    hide Extensional, BoolsDistinct, NamesConstructor;
    match e {
      case SAccess(record, _) => CanonMeans(I, record, env, w);
      case SUnaryOp(_, operand) => CanonMeans(I, operand, env, w);
      case SAscription(value, _) => CanonMeans(I, value, env, w);
    }
  }

  lemma {:induction false} ListMeans<W(!new)>(I: Interp<W>, e: SExpr, env: Env, w: W)
    requires Extensional(I) && BoolsDistinct(I) && Fits(e, Scope(I, env))
    requires e.STuple? || e.SList? || e.SCon?
    ensures Eval(I, Canon(e), env, w) == Mean(I, e, env, w)
    decreases e, 0, 1
  {
    hide *;
    var es := if e.SCon? then e.args else e.items;
    var cs := CanonAll(es);
    ListForm(e, es, cs, Scope(I, env));
    AllMean(I, es, cs, env, w);
    ListEval(I, Canon(e), cs, env, w);
    ListMeaning(I, e, es, env, w);
  }

  lemma ListForm(e: SExpr, es: seq<SExpr>, cs: seq<CExpr>, scope: set<string>)
    requires Fits(e, scope) && (e.STuple? || e.SList? || e.SCon?) && es == (if e.SCon? then e.args else e.items) && cs == CanonAll(es)
    ensures Canon(e) == if e.STuple? then TupleLit(cs) else if e.SList? then ListLit(cs) else Constructor(e.name, cs)
    ensures forall i | 0 <= i < |es| :: Fits(es[i], scope) && cs[i] == Canon(es[i])
  {
  }

  function Built(tuple: bool, list: bool, name: string, vs: seq<Value>): Value {
    if tuple then VTup(vs) else if list then VList(vs) else VCon(name, vs)
  }

  lemma ListEval<W>(I: Interp<W>, c: CExpr, cs: seq<CExpr>, env: Env, w: W)
    requires c == TupleLit(cs) || c == ListLit(cs) || (c.Constructor? && c.args == cs)
    ensures var (r, w1) := EvalAll(I, cs, env, w);
            Eval(I, c, env, w) ==
            (if r.Stop? then r.o
             else Val(Built(c.TupleLit?, c.ListLit?, if c.Constructor? then c.name else "", r.vs)), w1)
  {
    hide EvalAll;
  }

  lemma ListMeaning<W>(I: Interp<W>, e: SExpr, es: seq<SExpr>, env: Env, w: W)
    requires e == STuple(es) || e == SList(es) || (e.SCon? && e.args == es)
    ensures var (r, w1) := MeanAll(I, es, env, w);
            Mean(I, e, env, w) ==
            (if r.Stop? then r.o else Val(Built(e.STuple?, e.SList?, if e.SCon? then e.name else "", r.vs)), w1)
  {
    hide MeanAll;
  }

  lemma VarMeans<W>(I: Interp<W>, e: SExpr, env: Env, w: W)
    requires e.SVar?
    ensures Eval(I, Canon(e), env, w) == Mean(I, e, env, w)
  {
  }

  lemma {:induction false} AllMean<W(!new)>(I: Interp<W>, es: seq<SExpr>, cs: seq<CExpr>, env: Env, w: W)
    requires Extensional(I) && BoolsDistinct(I) && |cs| == |es|
    requires forall i | 0 <= i < |es| :: Fits(es[i], Scope(I, env)) && cs[i] == Canon(es[i])
    ensures EvalAll(I, cs, env, w) == MeanAll(I, es, env, w)
    decreases es, 0, 0
  {
    hide Extensional, BoolsDistinct, Canon, Fits, Eval, Mean;
    if es != [] {
      CanonMeans(I, es[0], env, w);
      AllMean(I, es[1..], cs[1..], env, Mean(I, es[0], env, w).1);
    }
  }

  lemma {:induction false} CallMeans<W(!new)>(I: Interp<W>, e: SExpr, env: Env, w: W)
    requires Extensional(I) && BoolsDistinct(I) && Fits(e, Scope(I, env)) && e.SCall?
    ensures Eval(I, Canon(e), env, w) == Mean(I, e, env, w)
    decreases e, 0, 1
  {
    hide Extensional, BoolsDistinct;
    var cs := CanonAll(e.args);
    if NamesConstructor(e.callee) {
      AllMean(I, e.args, cs, env, w);
    } else {
      CanonMeans(I, e.callee, env, w);
      AllMean(I, e.args, cs, env, Mean(I, e.callee, env, w).1);
    }
  }

  lemma {:induction false} TryMeans<W(!new)>(I: Interp<W>, e: SExpr, env: Env, w: W)
    requires Extensional(I) && BoolsDistinct(I) && Fits(e, Scope(I, env)) && e.STry?
    ensures Eval(I, Canon(e), env, w) == Mean(I, e, env, w)
    decreases e, 0, 1
  {
    CanonMeans(I, e.inner, env, w);
    hide Extensional, BoolsDistinct, Canon, Fits, Mean;
    var (o, w1) := Mean(I, e.inner, env, w);
    assert Canon(e) == Match(Canon(e.inner), TRY_ARMS) by { TryForm(e); }
    assert Mean(I, e, env, w) == (if o.Val? then TryOf(o.v) else o, w1) by { TryMeaning(I, e, env, w); }
    if o.Val? { TryArms(I, o.v, env, w1); }
    hide TRY_ARMS, TryOf;
  }

  lemma TryForm(e: SExpr)
    requires e.STry?
    ensures Canon(e) == Match(Canon(e.inner), TRY_ARMS)
  {
  }

  lemma TryMeaning<W>(I: Interp<W>, e: SExpr, env: Env, w: W)
    requires e.STry?
    ensures var (o, w1) := Mean(I, e.inner, env, w); Mean(I, e, env, w) == (if o.Val? then TryOf(o.v) else o, w1)
  {
  }

  /** The two arms of `?`. */
  lemma TryArms<W>(I: Interp<W>, v: Value, env: Env, w: W)
    ensures var pick := Pick(I, TRY_ARMS, v);
            (TryOf(v), w) == if pick.None? then (Fail, w)
                             else Eval(I, TRY_ARMS[pick.value.0].body, env + pick.value.1, w)
  {
    var rest := TRY_ARMS[1..];
    assert rest == [TRY_ARMS[1]] && rest[1..] == [];
    if v.VCon? && |v.args| == 1 {
      var a := v.args[0];
      assert v.args == [a];
      OneVariable(I, "v", a);
      OneVariable(I, "e", a);
      OneVariableEval(I, "e", env + map["e" := a], w);
      hide MatchPatterns, EvalAll;
    }
  }

  lemma OneVariable<W>(I: Interp<W>, x: string, a: Value)
    ensures MatchPatterns(I, [PVar(x)], [a]) == Some(map[x := a])
  {
    var ps := [PVar(x)];
    assert ps[1..] == [] && [a][1..] == [];
    assert MatchPatterns(I, ps[1..], [a][1..]) == Some(map[]);
    assert map[x := a] + map[] == map[x := a];
  }

  lemma OneVariableEval<W>(I: Interp<W>, x: string, env: Env, w: W)
    requires x in env
    ensures EvalAll(I, [Var(x)], env, w) == (Vals([env[x]]), w)
  {
    EvalAllCons(I, Var(x), [], env, w);
    assert [Var(x)] + [] == [Var(x)];
    assert [env[x]] + [] == [env[x]];
  }

  lemma {:induction false} IfMeans<W(!new)>(I: Interp<W>, e: SExpr, env: Env, w: W)
    requires Extensional(I) && BoolsDistinct(I) && Fits(e, Scope(I, env)) && e.SIf?
    ensures Eval(I, Canon(e), env, w) == Mean(I, e, env, w)
    decreases e, 0, 1
  {
    hide Extensional, Nest;
    CanonMeans(I, e.cond, env, w);
    var (c, w1) := Mean(I, e.cond, env, w);
    BlockMeans(I, e.thenBlock, CanonStatements(e.thenBlock), 0, env, w1);
    BlockMeans(I, e.elseBlock, CanonStatements(e.elseBlock), 0, env, w1);
    var arms := Canon(e).arms;
    if c.Val? { BoolArms(I, arms, c.v); }
    assert env + map[] == env;
    assert CanonStatements(e.thenBlock)[0..] == CanonStatements(e.thenBlock);
    assert CanonStatements(e.elseBlock)[0..] == CanonStatements(e.elseBlock);
    hide BoolsDistinct, Pick, CanonStatements, Fits;
  }

  lemma BoolArms<W>(I: Interp<W>, arms: seq<Arm>, v: Value)
    requires BoolsDistinct(I) && |arms| == 2
    requires arms[0].pattern == PLiteral(Bool(true)) && arms[1].pattern == PLiteral(Bool(false))
    ensures Pick(I, arms, v) == match Truth(v)
                                case Some(b) => Some((if b then 0 else 1, map[]))
                                case None => None
  {
    assert arms[1..] == [arms[1]] && arms[1..][1..] == [];
  }

  lemma {:induction false} MatchMeans<W(!new)>(I: Interp<W>, e: SExpr, env: Env, w: W)
    requires Extensional(I) && BoolsDistinct(I) && Fits(e, Scope(I, env)) && e.SMatch?
    ensures Eval(I, Canon(e), env, w) == Mean(I, e, env, w)
    decreases e, 0, 1
  {
    hide Extensional, BoolsDistinct, Settled, CanonPattern;
    CanonMeans(I, e.scrutinee, env, w);
    var (s, w1) := Mean(I, e.scrutinee, env, w);
    if s.Val? {
      PickMeans(I, e.arms, Canon(e).arms, s.v);
      var pick := PickSurface(I, e.arms, s.v);
      if pick.Some? {
        PickKeys(I, Canon(e).arms, s.v);
        BoundNames(e.arms[pick.value.0].pattern);
        assert Scope(I, env + pick.value.1) == Scope(I, env) + Bound(e.arms[pick.value.0].pattern);
        CanonMeans(I, e.arms[pick.value.0].body, env + pick.value.1, w1);
      }
    }
    hide Pick, PickSurface, Bound;
  }

  lemma {:induction false} FieldsMean<W(!new)>(I: Interp<W>, fs: seq<SField>, cs: seq<RecordField>, env: Env, w: W)
    requires Extensional(I) && BoolsDistinct(I) && |cs| == |fs|
    requires forall i | 0 <= i < |fs| :: Fits(fs[i].value, Scope(I, env)) && cs[i].value == Canon(fs[i].value)
    ensures EvalFields(I, cs, env, w) == MeanFields(I, fs, env, w)
    decreases fs, 0, 0
  {
    hide Extensional, BoolsDistinct, Canon, Fits, Eval, Mean;
    if fs != [] {
      CanonMeans(I, fs[0].value, env, w);
      FieldsMean(I, fs[1..], cs[1..], env, Mean(I, fs[0].value, env, w).1);
    }
  }

  lemma {:induction false} RecordMeans<W(!new)>(I: Interp<W>, e: SExpr, env: Env, w: W)
    requires Extensional(I) && BoolsDistinct(I) && Fits(e, Scope(I, env)) && e.SRecord?
    ensures Eval(I, Canon(e), env, w) == Mean(I, e, env, w)
    decreases e, 0, 1
  {
    hide *;
    var fields, named := e.fields, NamedFields(e.fields);
    var cs := RecordFields(named);
    RecordForm(e, Scope(I, env));
    FieldsMean(I, fields, cs, env, w);
    OrderlySortable(fields, Scope(I, env));
    SortedRecord(I, named, env, w);
    RecordMeaning(I, e, env, w);
  }

  lemma RecordForm(e: SExpr, scope: set<string>)
    requires e.SRecord? && Fits(e, scope)
    ensures var named := NamedFields(e.fields);
            var cs := RecordFields(named);
            && Canon(e) == RecordLit(RecordFields(SortNamed(named))) && Orderly(e.fields, scope) && |cs| == |e.fields|
            && forall i | 0 <= i < |e.fields| :: Fits(e.fields[i].value, scope) && cs[i].value == Canon(e.fields[i].value)
  {
    hide Orderly, SortNamed;
  }

  lemma RecordMeaning<W>(I: Interp<W>, e: SExpr, env: Env, w: W)
    requires e.SRecord?
    ensures var (r, w1) := MeanFields(I, e.fields, env, w);
            var cs := RecordFields(NamedFields(e.fields));
            && |cs| == |e.fields|
            && Mean(I, e, env, w) == (if r.Stop? then r.o else Val(VRec(SortNamed(NameFields(cs, r.vs)))), w1)
  {
    hide SortNamed, Canon, MeanFields;
    var fields, cs, r := e.fields, RecordFields(NamedFields(e.fields)), MeanFields(I, e.fields, env, w).0;
    if r.Vals? {
      assert NameFields(cs, r.vs) == seq(|fields|, i requires 0 <= i < |fields| => (fields[i].name, r.vs[i]));
    }
  }

  lemma {:induction false} FunMeans<W(!new)>(I: Interp<W>, e: SExpr, env: Env, w: W)
    requires Extensional(I) && BoolsDistinct(I) && Fits(e, Scope(I, env)) && e.SFun?
    ensures Eval(I, Canon(e), env, w) == Mean(I, e, env, w)
    decreases e, 0, 1
  {
    var l := e.lambda;
    var f, g := Denote(I, l.params, CanonBlock(l.body), env), MeanFun(I, l, env);
    forall args: seq<Value>, w: W ensures f(args, w) == g(args, w) {
      if |args| == |l.params| {
        BindKeys(l.params, args);
        assert Scope(I, env + Bind(l.params, args)) == Scope(I, env) + ParamNames(l.params);
        BlockMeans(I, l.body, CanonStatements(l.body), 0, env + Bind(l.params, args), w);
        assert CanonStatements(l.body)[0..] == CanonStatements(l.body);
      }
    }
    assert I.close(f) == I.close(g);
  }

  /** A block from its `i`-th statement on. */
  lemma {:induction false} BlockMeans<W(!new)>(I: Interp<W>, b: SBlock, cs: seq<CStatement>, i: nat, env: Env, w: W)
    requires Extensional(I) && BoolsDistinct(I) && i <= |b.statements| && FitsBlock(b, i, Scope(I, env)) && cs == CanonStatements(b)
    ensures Eval(I, Nest(cs[i..], Canon(b.result)), env, w) == MeanBlock(I, b, i, env, w)
    ensures i == 0 ==> Eval(I, CanonBlock(b), env, w) == MeanBlock(I, b, 0, env, w)
    decreases b, 0, |cs| - i
  {
    hide Extensional, BoolsDistinct, Canon, Mean, Fits, Eval;
    assert cs[0..] == cs;
    var rest := cs[i..];
    if i == |cs| {
      CanonMeans(I, b.result, env, w);
    } else {
      assert rest[1..] == cs[i + 1..] && rest[0] == CanonStatement(b.statements[i]);
      match b.statements[i] {
        case SLet(name, ty, value) =>
          CanonMeans(I, value, env, w);
          var (v, w1) := Mean(I, value, env, w);
          if v.Val? {
            assert Scope(I, env[name := v.v]) == Scope(I, env) + {name};
            BlockMeans(I, b, cs, i + 1, env[name := v.v], w1);
          }
          assert Nest(rest, Canon(b.result)) == Let(name, ty, Canon(value), Nest(rest[1..], Canon(b.result)));
          LetEval(I, name, ty, Canon(value), Nest(rest[1..], Canon(b.result)), env, w);
        case SDo(e) =>
          CanonMeans(I, e, env, w);
          EvalDo(I, rest, Canon(b.result), env, w);
          var (v, w1) := Mean(I, e, env, w);
          if v.Val? { BlockMeans(I, b, cs, i + 1, env, w1); }
      }
    }
  }

  lemma LetEval<W>(I: Interp<W>, name: string, ty: Option<TypeExpr>, bound: CExpr, body: CExpr, env: Env, w: W)
    ensures var (v, w1) := Eval(I, bound, env, w);
            Eval(I, Let(name, ty, bound, body), env, w) == if v.Val? then Eval(I, body, env[name := v.v], w1) else (v, w1)
  {
  }

  /** The right side of a pipe that builds a value. */
  predicate PipeBuilt(right: SExpr) {
    NamesConstructor(right) || right.SCon? || (right.SCall? && NamesConstructor(right.callee))
  }

  function PipeName(right: SExpr): string
    requires PipeBuilt(right)
  {
    if right.SCon? then right.name else Unqualified(if right.SVar? then right.name else right.callee.name)
  }

  lemma {:induction false} PipeMeans<W(!new)>(I: Interp<W>, e: SExpr, env: Env, w: W)
    requires Extensional(I) && BoolsDistinct(I) && Fits(e, Scope(I, env)) && e.SPipe?
    ensures Eval(I, Canon(e), env, w) == Mean(I, e, env, w)
    decreases e, 0, 1
  {
    hide *;
    var left, right := e.left, e.right;
    var args := if right.SCall? || right.SCon? then right.args else [];
    var cs := CanonAll(args);
    PipeFits(e, args, cs, Scope(I, env));
    PipeForm(e, args, cs);
    if PipeBuilt(right) {
      CanonMeans(I, left, env, w);
      var w1 := Mean(I, left, env, w).1;
      if args == [] { NoneMean(I, args, cs, env, w1); } else { AllMean(I, args, cs, env, w1); }
      EvalAllCons(I, Canon(left), cs, env, w);
      BuildEval(I, PipeName(right), [Canon(left)] + cs, env, w);
      PipeBuildsMeaning(I, e, args, env, w);
    } else {
      var callee := if right.SCall? then right.callee else right;
      CanonMeans(I, callee, env, w);
      var w1 := Mean(I, callee, env, w).1;
      CanonMeans(I, left, env, w1);
      var w2 := Mean(I, left, env, w1).1;
      if args == [] { NoneMean(I, args, cs, env, w2); } else { AllMean(I, args, cs, env, w2); }
      EvalAllCons(I, Canon(left), cs, env, w1);
      CallEval(I, Canon(callee), [Canon(left)] + cs, env, w);
      PipeCallsMeaning(I, e, args, callee, env, w);
    }
  }

  lemma NoneMean<W>(I: Interp<W>, es: seq<SExpr>, cs: seq<CExpr>, env: Env, w: W)
    requires es == [] && cs == CanonAll(es)
    ensures EvalAll(I, cs, env, w) == MeanAll(I, es, env, w)
  {
  }

  lemma PipeFits(e: SExpr, args: seq<SExpr>, cs: seq<CExpr>, scope: set<string>)
    requires e.SPipe? && Fits(e, scope) && args == (if e.right.SCall? || e.right.SCon? then e.right.args else [])
    requires cs == CanonAll(args)
    ensures PipesAsWritten(e.right) && Fits(e.left, scope)
    ensures Fits(if e.right.SCall? then e.right.callee else e.right, scope)
    ensures |cs| == |args| && forall i | 0 <= i < |args| :: Fits(args[i], scope) && cs[i] == Canon(args[i])
  {
    hide PipesAsWritten, Orderly, Canon;
    assert Fits(e.right, scope);
    hide FitsBlock, Settled;
  }

  lemma PipeForm(e: SExpr, args: seq<SExpr>, cs: seq<CExpr>)
    requires e.SPipe? && PipesAsWritten(e.right) && args == (if e.right.SCall? || e.right.SCon? then e.right.args else [])
    requires cs == CanonAll(args)
    ensures var left, right := Canon(e.left), e.right;
            Canon(e) == if PipeBuilt(right) then Constructor(PipeName(right), [left] + cs)
                        else Call(Canon(if right.SCall? then right.callee else right), [left] + cs)
  {
    CanonCallish(e.right);
    hide Callish, Builds, Unqualified, IsConstructorName;
  }

  lemma BuildEval<W>(I: Interp<W>, name: string, args: seq<CExpr>, env: Env, w: W)
    ensures var (r, w1) := EvalAll(I, args, env, w);
            Eval(I, Constructor(name, args), env, w) == (if r.Stop? then r.o else Val(VCon(name, r.vs)), w1)
  {
  }

  lemma CallEval<W>(I: Interp<W>, callee: CExpr, args: seq<CExpr>, env: Env, w: W)
    ensures var (f, w1) := Eval(I, callee, env, w);
            var (r, w2) := EvalAll(I, args, env, w1);
            Eval(I, Call(callee, args), env, w) == if !f.Val? then (f, w1) else CallWith(I, f.v, r, w2)
  {
  }

  lemma PipeBuildsMeaning<W>(I: Interp<W>, e: SExpr, args: seq<SExpr>, env: Env, w: W)
    requires e.SPipe? && PipeBuilt(e.right) && args == (if e.right.SCall? || e.right.SCon? then e.right.args else [])
    ensures var (x, w1) := Mean(I, e.left, env, w);
            var (r, w2) := MeanAll(I, args, env, w1);
            var all := Cons(x, r);
            Mean(I, e, env, w)
            == (if all.Stop? then all.o else Val(VCon(PipeName(e.right), all.vs)), if x.Val? then w2 else w1)
  {
    hide Unqualified, IsConstructorName;
    assert Mean(I, e, env, w) == MeanPipe(I, e, env, w);
  }

  lemma PipeCallsMeaning<W>(I: Interp<W>, e: SExpr, args: seq<SExpr>, callee: SExpr, env: Env, w: W)
    requires e.SPipe? && !PipeBuilt(e.right) && args == (if e.right.SCall? || e.right.SCon? then e.right.args else [])
    requires callee == if e.right.SCall? then e.right.callee else e.right
    ensures var (f, w1) := Mean(I, callee, env, w);
            var (x, w2) := Mean(I, e.left, env, w1);
            var (r, w3) := MeanAll(I, args, env, w2);
            Mean(I, e, env, w)
            == if !f.Val? then (f, w1) else CallWith(I, f.v, Cons(x, r), if x.Val? then w3 else w2)
  {
    hide Unqualified, IsConstructorName;
    assert Mean(I, e, env, w) == MeanPipe(I, e, env, w);
  }

  lemma EvalAllCons<W>(I: Interp<W>, e: CExpr, es: seq<CExpr>, env: Env, w: W)
    ensures var (first, w1) := Eval(I, e, env, w);
            var (rest, w2) := EvalAll(I, es, env, w1);
            EvalAll(I, [e] + es, env, w) == (Surface.Cons(first, rest), if first.Val? then w2 else w1)
  {
    assert ([e] + es)[1..] == es;
  }
}
