/** Canonicalization loses no type annotation: every let's type, every ascription and every lambda's signature is in the
    canonical form as often as in the source (crates/lex-ast/src/canonicalize.rs:150-450). */
module CanonNotes {
  import opened Options
  import opened Ast
  import opened AstKids
  import opened Surface
  import opened Canonicalize

  datatype Note =
    | LetNote(name: string, ty: Option<TypeExpr>)
    | FunNote(params: seq<Param>, returnType: TypeExpr, effects: seq<Effect>, rowVar: Option<string>)

  // ---- in the canonical form ----

  function OwnNotes(e: CExpr): multiset<Note> {
    match e
    case Let(name, ty, _, _) => multiset{LetNote(name, ty)}
    case Lambda(params, returnType, effects, rowVar, _) => multiset{FunNote(params, returnType, effects, rowVar)}
    case _ => multiset{}
  }

  function Notes(e: CExpr): multiset<Note>
    decreases e, 1
  {
    OwnNotes(e) + NotesBelow(e, |Kids(e)|)
  }

  function NotesBelow(e: CExpr, n: nat): multiset<Note>
    requires n <= |Kids(e)|
    decreases e, 0, n
  {
    if n == 0 then multiset{} else NotesBelow(e, n - 1) + Notes(Kids(e)[n - 1])
  }

  // ---- in the source ----

  function SNotes(e: SExpr): multiset<Note>
    decreases e, 1
  {
    match e
    case SLit(_) | SVar(_) => multiset{}
    case SBraces(block) => BlockNotes(block)
    case SCall(callee, args) => SNotes(callee) + ListNotes(args)
    case SPipe(left, right) => SNotes(left) + SNotes(right)
    case STry(inner) => SNotes(inner)
    case SAccess(record, _) => SNotes(record)
    case SBinOp(_, lhs, rhs) => SNotes(lhs) + SNotes(rhs)
    case SUnaryOp(_, operand) => SNotes(operand)
    case SIf(cond, thenBlock, elseBlock) => SNotes(cond) + BlockNotes(thenBlock) + BlockNotes(elseBlock)
    case SMatch(scrutinee, arms) => SNotes(scrutinee) + ArmNotes(arms)
    case SRecord(fields) => FieldNotes(fields)
    case STuple(items) => ListNotes(items)
    case SList(items) => ListNotes(items)
    case SCon(_, args) => ListNotes(args)
    case SFun(l) => multiset{FunNote(l.params, l.returnType, l.effects, l.rowVar)} + BlockNotes(l.body)
    case SAscription(value, ty) => multiset{LetNote(ASCRIPTION, Some(ty))} + SNotes(value)
  }

  function ListNotes(es: seq<SExpr>): multiset<Note>
    decreases es, 0
  {
    if es == [] then multiset{} else SNotes(es[0]) + ListNotes(es[1..])
  }

  function ArmNotes(arms: seq<SArm>): multiset<Note>
    decreases arms, 0
  {
    if arms == [] then multiset{} else ArmNote(arms[0]) + ArmNotes(arms[1..])
  }

  function ArmNote(arm: SArm): multiset<Note>
    decreases arm, 2
  {
    SNotes(arm.body)
  }

  function FieldNotes(fields: seq<SField>): multiset<Note>
    decreases fields, 0
  {
    if fields == [] then multiset{} else SNotes(fields[0].value) + FieldNotes(fields[1..])
  }

  function StatementNotes(s: SStatement): multiset<Note>
    decreases s, 1
  {
    match s
    case SLet(name, ty, value) => multiset{LetNote(name, ty)} + SNotes(value)
    case SDo(e) => SNotes(e)
  }

  function StatementsNotes(ss: seq<SStatement>): multiset<Note>
    decreases ss, 0
  {
    if ss == [] then multiset{} else StatementNotes(ss[0]) + StatementsNotes(ss[1..])
  }

  function BlockNotes(b: SBlock): multiset<Note>
    decreases b, 0
  {
    StatementsNotes(b.statements) + SNotes(b.result)
  }

  // ---- sums ----

  function Sum(es: seq<CExpr>): multiset<Note> {
    if es == [] then multiset{} else Notes(es[0]) + Sum(es[1..])
  }

  lemma {:induction false} SumAppend(es: seq<CExpr>, ds: seq<CExpr>)
    ensures Sum(es + ds) == Sum(es) + Sum(ds)
    decreases |es|
  {
    hide Notes;
    if es == [] {
      assert es + ds == ds;
    } else {
      assert (es + ds)[1..] == es[1..] + ds;
      SumAppend(es[1..], ds);
    }
  }

  lemma SumNone()
    ensures Sum([]) == multiset{}
  {
  }

  lemma SumOne(e: CExpr)
    ensures Sum([e]) == Notes(e)
  {
    assert [e][1..] == [];
  }

  lemma {:induction false} BelowIsSum(e: CExpr, n: nat)
    requires n <= |Kids(e)|
    ensures NotesBelow(e, n) == Sum(Kids(e)[..n])
    decreases n
  {
    hide Kids, Notes;
    if n > 0 {
      BelowIsSum(e, n - 1);
      assert Kids(e)[..n] == Kids(e)[..n - 1] + [Kids(e)[n - 1]];
      SumAppend(Kids(e)[..n - 1], [Kids(e)[n - 1]]);
      SumOne(Kids(e)[n - 1]);
    }
  }

  lemma NotesAre(e: CExpr)
    ensures Notes(e) == OwnNotes(e) + Sum(Kids(e))
  {
    BelowIsSum(e, |Kids(e)|);
    assert Kids(e)[..|Kids(e)|] == Kids(e);
    hide Kids, OwnNotes, NotesBelow, Sum;
  }

  function Values(named: seq<(string, CExpr)>): seq<CExpr> {
    seq(|named|, i requires 0 <= i < |named| => named[i].1)
  }

  lemma ValuesCons(named: seq<(string, CExpr)>)
    requires named != []
    ensures Values(named) == [named[0].1] + Values(named[1..])
  {
  }

  lemma {:induction false} SumCons(e: CExpr, es: seq<CExpr>)
    ensures Sum([e] + es) == Notes(e) + Sum(es)
  {
    assert ([e] + es)[1..] == es;
  }

  lemma {:induction false} SumInserted(x: (string, CExpr), sorted: seq<(string, CExpr)>)
    ensures Sum(Values(InsertNamed(x, sorted))) == Notes(x.1) + Sum(Values(sorted))
    decreases |sorted|
  {
    hide Notes;
    ValuesCons([x] + sorted);
    assert ([x] + sorted)[1..] == sorted;
    SumCons(x.1, Values(sorted));
    if sorted != [] {
      var rest := InsertNamed(x, sorted[1..]);
      SumInserted(x, sorted[1..]);
      ValuesCons(sorted);
      SumCons(sorted[0].1, Values(sorted[1..]));
      ValuesCons([sorted[0]] + rest);
      assert ([sorted[0]] + rest)[1..] == rest;
      SumCons(sorted[0].1, Values(rest));
    }
  }

  /** Sorting fields moves their annotations and loses none. */
  lemma {:induction false} SumSorted(named: seq<(string, CExpr)>)
    ensures Sum(Values(SortNamed(named))) == Sum(Values(named))
    decreases |named|
  {
    hide Notes;
    if named != [] {
      SumSorted(named[1..]);
      SumInserted(named[0], SortNamed(named[1..]));
      ValuesCons(named);
      SumCons(named[0].1, Values(named[1..]));
    }
  }

  // ---- what each form carries over ----

  lemma {:induction false} ListsMatch(es: seq<SExpr>, cs: seq<CExpr>)
    requires |es| == |cs| && forall i | 0 <= i < |es| :: Notes(cs[i]) == SNotes(es[i])
    ensures Sum(cs) == ListNotes(es)
    decreases |es|
  {
    hide Notes, SNotes;
    if es != [] { ListsMatch(es[1..], cs[1..]); }
  }

  lemma {:induction false} FieldsMatch(fields: seq<SField>, cs: seq<CExpr>)
    requires |fields| == |cs| && forall i | 0 <= i < |fields| :: Notes(cs[i]) == SNotes(fields[i].value)
    ensures Sum(cs) == FieldNotes(fields)
    decreases |fields|
  {
    hide Notes, SNotes;
    if fields != [] { FieldsMatch(fields[1..], cs[1..]); }
  }

  lemma {:induction false} ArmsMatch(arms: seq<SArm>, cs: seq<CExpr>)
    requires |arms| == |cs| && forall i | 0 <= i < |arms| :: Notes(cs[i]) == SNotes(arms[i].body)
    ensures Sum(cs) == ArmNotes(arms)
    decreases |arms|
  {
    hide Notes, SNotes;
    if arms != [] { ArmsMatch(arms[1..], cs[1..]); }
  }

  function CNotes(s: CStatement): multiset<Note> {
    match s
    case CLet(name, ty, value) => multiset{LetNote(name, ty)} + Notes(value)
    case CDo(e) => Notes(e)
  }

  lemma {:induction false} NestMatches(ss: seq<SStatement>, cs: seq<CStatement>, result: CExpr)
    requires |ss| == |cs| && forall i | 0 <= i < |ss| :: CNotes(cs[i]) == StatementNotes(ss[i])
    ensures Notes(Nest(cs, result)) == StatementsNotes(ss) + Notes(result)
    decreases |ss|
  {
    if ss != [] {
      NestMatches(ss[1..], cs[1..], result);
      assert CNotes(cs[0]) == StatementNotes(ss[0]);
      NestStep(cs, result);
    }
  }

  lemma NestStep(cs: seq<CStatement>, result: CExpr)
    requires cs != []
    ensures Notes(Nest(cs, result)) == CNotes(cs[0]) + Notes(Nest(cs[1..], result))
  {
    hide Notes, Sum, Kids, OwnNotes;
    var inner := Nest(cs[1..], result);
    match cs[0] {
      case CLet(name, ty, value) => LetNotes(name, ty, value, inner);
      case CDo(e) =>
        if |cs| > 1 && cs[1].CDo? {
          RunNotes(e, inner);
        } else {
          OneNotes(e, inner);
        }
    }
  }

  lemma LetNotes(name: string, ty: Option<TypeExpr>, value: CExpr, inner: CExpr)
    ensures Notes(Let(name, ty, value, inner)) == multiset{LetNote(name, ty)} + Notes(value) + Notes(inner)
  {
    hide Notes, Sum;
    var out := Let(name, ty, value, inner);
    NotesAre(out);
    TwoKids(out, value, inner);
  }

  lemma OneNotes(e: CExpr, inner: CExpr)
    ensures Notes(Block([e], inner)) == Notes(e) + Notes(inner)
  {
    hide Notes, Sum;
    var out := Block([e], inner);
    NotesAre(out);
    TwoKids(out, e, inner);
  }

  lemma RunNotes(e: CExpr, inner: CExpr)
    requires inner.Block?
    ensures Notes(Block([e] + inner.statements, inner.result)) == Notes(e) + Notes(inner)
  {
    hide Notes, Sum;
    var out := Block([e] + inner.statements, inner.result);
    NotesAre(out);
    NotesAre(inner);
    assert Kids(out) == [e] + Kids(inner);
    SumAppend([e], Kids(inner));
    SumOne(e);
  }

  lemma PipeNotes(left: CExpr, right: CExpr)
    ensures Notes(CanonPipe(left, right)) == Notes(left) + Notes(right)
  {
    hide Notes, Sum;
    SumNone();
    var out := CanonPipe(left, right);
    NotesAre(out);
    NotesAre(right);
    SumOne(left);
    match right {
      case Call(callee, args) =>
        assert Kids(out) == [callee] + ([left] + args) && Kids(right) == [callee] + args;
        SumAppend([callee], [left] + args);
        SumAppend([left], args);
        SumAppend([callee], args);
      case Constructor(_, args) =>
        assert Kids(out) == [left] + args;
        SumAppend([left], args);
      case _ =>
        assert Kids(out) == [right] + [left];
        SumAppend([right], [left]);
        SumOne(right);
    }
  }

  lemma NoneIn(e: CExpr)
    requires (e.Literal? || e.Var?)
    ensures Notes(e) == multiset{}
  {
  }

  lemma TryNotes(e: CExpr)
    ensures Notes(Match(e, TRY_ARMS)) == Notes(e)
  {
    hide Notes, Sum;
    SumNone();
    var out := Match(e, TRY_ARMS);
    NotesAre(out);
    var a, b := TRY_ARMS[0].body, TRY_ARMS[1].body;
    assert Kids(out) == [e] + ([a] + [b]);
    SumAppend([e], [a] + [b]);
    SumAppend([a], [b]);
    SumOne(e);
    SumOne(a);
    SumOne(b);
    NoneIn(a);
    NotesAre(b);
    NotesAre(Constructor("Err", [Var("e")]));
    SumOne(Constructor("Err", [Var("e")]));
    SumOne(Var("e"));
    NoneIn(Var("e"));
  }

  /** The canonical form carries just the annotations of the source, each as often. */
  lemma {:induction false} AnnotationsKept(e: SExpr)
    ensures Notes(Canon(e)) == SNotes(e)
    decreases e, 1
  {
    hide Notes, Sum, CanonPipe;
    if e.SCall? || e.STuple? || e.SList? || e.SCon? {
      ListFormKept(e);
    } else if e.SIf? || e.SMatch? || e.SRecord? {
      BranchKept(e);
    } else if e.SBraces? {
      BlockKept(e.block);
    } else if e.SPipe? {
      AnnotationsKept(e.left);
      AnnotationsKept(e.right);
      PipeNotes(Canon(e.left), Canon(e.right));
    } else if e.STry? {
      AnnotationsKept(e.inner);
      TryNotes(Canon(e.inner));
    } else {
      FewKept(e);
    }
  }

  lemma {:induction false} FewKept(e: SExpr)
    requires e.SLit? || e.SVar? || e.SAccess? || e.SBinOp? || e.SUnaryOp? || e.SFun? || e.SAscription?
    ensures Notes(Canon(e)) == SNotes(e)
    decreases e, 0
  {
    hide Notes, Sum, Kids, Canon, SNotes;
    CanonFew(e);
    SNotesFew(e);
    match e {
      case SLit(_) => NoneIn(Canon(e));
      case SVar(name) => NameNotes(name);
      case SAccess(record, field) =>
        AnnotationsKept(record);
        OneKid(FieldAccess(Canon(record), field), Canon(record));
      case SUnaryOp(op, operand) =>
        AnnotationsKept(operand);
        OneKid(UnaryOp(op, Canon(operand)), Canon(operand));
      case SBinOp(op, lhs, rhs) =>
        AnnotationsKept(lhs);
        AnnotationsKept(rhs);
        BinaryNotes(op, Canon(lhs), Canon(rhs));
      case SFun(l) =>
        BlockKept(l.body);
        OneKid(Lambda(l.params, l.returnType, l.effects, l.rowVar, CanonBlock(l.body)), CanonBlock(l.body));
      case SAscription(value, ty) =>
        AnnotationsKept(value);
        LetNotes(ASCRIPTION, Some(ty), Canon(value), Var(ASCRIPTION));
        NoneIn(Var(ASCRIPTION));
    }
  }

  lemma CanonFew(e: SExpr)
    requires e.SLit? || e.SVar? || e.SAccess? || e.SBinOp? || e.SUnaryOp? || e.SFun? || e.SAscription?
    ensures match e
            case SLit(lit) => Canon(e) == Literal(lit)
            case SAccess(record, field) => Canon(e) == FieldAccess(Canon(record), field)
            case SBinOp(op, lhs, rhs) => Canon(e) == BinOp(op, Canon(lhs), Canon(rhs))
            case SUnaryOp(op, operand) => Canon(e) == UnaryOp(op, Canon(operand))
            case SFun(l) => Canon(e) == Lambda(l.params, l.returnType, l.effects, l.rowVar, CanonBlock(l.body))
            case SAscription(value, ty) => Canon(e) == Let(ASCRIPTION, Some(ty), Canon(value), Var(ASCRIPTION))
            case _ => true
  {
    hide CanonBlock;
  }

  lemma SNotesFew(e: SExpr)
    requires e.SLit? || e.SVar? || e.SAccess? || e.SBinOp? || e.SUnaryOp? || e.SFun? || e.SAscription?
    ensures match e
            case SAccess(record, _) => SNotes(e) == SNotes(record)
            case SBinOp(_, lhs, rhs) => SNotes(e) == SNotes(lhs) + SNotes(rhs)
            case SUnaryOp(_, operand) => SNotes(e) == SNotes(operand)
            case SFun(l) => SNotes(e) == multiset{FunNote(l.params, l.returnType, l.effects, l.rowVar)} + BlockNotes(l.body)
            case SAscription(value, ty) => SNotes(e) == multiset{LetNote(ASCRIPTION, Some(ty))} + SNotes(value)
            case _ => SNotes(e) == multiset{}
  {
    hide BlockNotes;
  }

  lemma NameNotes(name: string)
    ensures Notes(Canon(SVar(name))) == multiset{}
  {
  }

  lemma OneKid(c: CExpr, kid: CExpr)
    requires c.FieldAccess? || c.UnaryOp? || c.Lambda?
    requires kid == match c case FieldAccess(record, _) => record case UnaryOp(_, operand) => operand case Lambda(_, _, _, _, body) => body
    ensures Notes(c) == OwnNotes(c) + Notes(kid)
  {
    hide Notes, Sum;
    NotesAre(c);
    SumOne(kid);
  }

  lemma BinaryNotes(op: string, a: CExpr, b: CExpr)
    ensures Notes(BinOp(op, a, b)) == Notes(a) + Notes(b)
  {
    hide Notes, Sum;
    NotesAre(BinOp(op, a, b));
    TwoKids(BinOp(op, a, b), a, b);
  }

  lemma TwoKids(c: CExpr, a: CExpr, b: CExpr)
    requires Kids(c) == [a, b]
    ensures Sum(Kids(c)) == Notes(a) + Notes(b)
  {
    hide Notes, Kids;
    assert [a, b] == [a] + [b];
    SumAppend([a], [b]);
    SumOne(a);
    SumOne(b);
  }

  lemma {:induction false} ListFormKept(e: SExpr)
    requires e.SCall? || e.STuple? || e.SList? || e.SCon?
    ensures Notes(Canon(e)) == SNotes(e)
    decreases e, 0
  {
    hide Notes, Sum;
    var items := if e.STuple? || e.SList? then e.items else e.args;
    var cs := seq(|items|, i requires 0 <= i < |items| => Canon(items[i]));
    forall i | 0 <= i < |items| ensures Notes(cs[i]) == SNotes(items[i]) { AnnotationsKept(items[i]); }
    ListsMatch(items, cs);
    if e.SCall? {
      AnnotationsKept(e.callee);
      CallKept(e, cs);
    } else {
      NotesAre(Canon(e));
      assert Kids(Canon(e)) == cs;
    }
  }

  lemma CallKept(e: SExpr, cs: seq<CExpr>)
    requires e.SCall? && cs == seq(|e.args|, i requires 0 <= i < |e.args| => Canon(e.args[i]))
    requires Sum(cs) == ListNotes(e.args) && Notes(Canon(e.callee)) == SNotes(e.callee)
    ensures Notes(Canon(e)) == SNotes(e)
  {
    hide Notes, Sum, ListNotes;
    NotesAre(Canon(e));
    if NamesConstructor(e.callee) {
      assert Canon(e) == Constructor(Unqualified(e.callee.name), cs);
    } else {
      assert Canon(e) == Call(Canon(e.callee), cs);
      assert Kids(Canon(e)) == [Canon(e.callee)] + cs;
      SumAppend([Canon(e.callee)], cs);
      SumOne(Canon(e.callee));
    }
  }

  lemma {:induction false} BranchKept(e: SExpr)
    requires e.SIf? || e.SMatch? || e.SRecord?
    ensures Notes(Canon(e)) == SNotes(e)
    decreases e, 0
  {
    hide Notes, Sum;
    var c := Canon(e);
    NotesAre(c);
    match e {
      case SIf(cond, thenBlock, elseBlock) =>
        AnnotationsKept(cond);
        BlockKept(thenBlock);
        BlockKept(elseBlock);
        var a, b := CanonBlock(thenBlock), CanonBlock(elseBlock);
        assert Kids(c) == [Canon(cond)] + ([a] + [b]);
        SumAppend([Canon(cond)], [a] + [b]);
        SumAppend([a], [b]);
        SumOne(Canon(cond));
        SumOne(a);
        SumOne(b);
      case SMatch(scrutinee, arms) =>
        AnnotationsKept(scrutinee);
        var bodies := seq(|arms|, i requires 0 <= i < |arms| => Canon(arms[i].body));
        forall i | 0 <= i < |arms| ensures Notes(bodies[i]) == SNotes(arms[i].body) { AnnotationsKept(arms[i].body); }
        ArmsMatch(arms, bodies);
        assert Kids(c) == [Canon(scrutinee)] + bodies;
        SumAppend([Canon(scrutinee)], bodies);
        SumOne(Canon(scrutinee));
      case SRecord(fields) =>
        var named := seq(|fields|, i requires 0 <= i < |fields| => (fields[i].name, Canon(fields[i].value)));
        forall i | 0 <= i < |fields| ensures Notes(Values(named)[i]) == SNotes(fields[i].value) {
          AnnotationsKept(fields[i].value);
        }
        FieldsMatch(fields, Values(named));
        SumSorted(named);
        assert c == RecordLit(RecordFields(SortNamed(named)));
        assert Kids(c) == Values(SortNamed(named));
    }
  }

  lemma {:induction false} BlockKept(b: SBlock)
    ensures Notes(CanonBlock(b)) == BlockNotes(b)
    decreases b, 2
  {
    hide Notes;
    AnnotationsKept(b.result);
    var cs := CanonStatements(b);
    forall i | 0 <= i < |cs| ensures CNotes(cs[i]) == StatementNotes(b.statements[i]) {
      var s := b.statements[i];
      AnnotationsKept(if s.SLet? then s.value else s.e);
      assert cs[i] == CanonStatement(s);
    }
    NestMatches(b.statements, cs, Canon(b.result));
  }
}
