/** From the surface syntax to the canonical AST (crates/lex-ast/src/canonicalize.rs:150-450). */
module Canonicalize {
  import opened Options
  import opened Ast
  import opened Surface

  function CanonPattern(p: SPattern): Pattern {
    match p
    case SLitPattern(lit) => PLiteral(lit)
    case SVarPattern(name) => if IsConstructorName(name) then PConstructor(name, []) else PVar(name)
    case SWild => PWild
    case SConPattern(name, args) =>
      PConstructor(name, seq(|args|, i requires 0 <= i < |args| => CanonPattern(args[i])))
    case STupPattern(items) => PTuple(seq(|items|, i requires 0 <= i < |items| => CanonPattern(items[i])))
    case SRecPattern(fields) =>
      PRecord(PatternFields(SortNamed(seq(|fields|, i requires 0 <= i < |fields| =>
        (fields[i].name,
         match fields[i].pattern case Some(q) => CanonPattern(q) case None => PVar(fields[i].name))))))
  }

  function PatternFields(named: seq<(string, Pattern)>): seq<PatternField> {
    seq(|named|, i requires 0 <= i < |named| => PatternField(named[i].0, named[i].1))
  }

  function RecordFields(named: seq<(string, CExpr)>): seq<RecordField> {
    seq(|named|, i requires 0 <= i < |named| => RecordField(named[i].0, named[i].1))
  }

  // ---- blocks ----

  datatype CStatement = CLet(name: string, ty: Option<TypeExpr>, value: CExpr) | CDo(e: CExpr)

  /** Statements as nested lets, each run of bare expressions as one block: a right fold. */
  function Nest(ss: seq<CStatement>, result: CExpr): (e: CExpr)
    ensures ss != [] && ss[0].CDo? ==> e.Block?
  {
    if ss == [] then result else
      var inner := Nest(ss[1..], result);
      match ss[0]
      case CLet(name, ty, value) => Let(name, ty, value, inner)
      case CDo(e) =>
        if |ss| > 1 && ss[1].CDo? then Block([e] + inner.statements, inner.result) else Block([e], inner)
  }

  function Reverse<T>(xs: seq<T>): seq<T> {
    if xs == [] then [] else [xs[|xs| - 1]] + Reverse(xs[..|xs| - 1])
  }

  function Wrap(pending: seq<CExpr>, acc: CExpr): CExpr {
    if pending == [] then acc else Block(Reverse(pending), acc)
  }

  /** The loop of the original: from the last statement back, holding bare expressions until a let or the
      start is met. */
  method FoldBlock(ss: seq<CStatement>, result: CExpr) returns (acc: CExpr)
    ensures acc == Nest(ss, result)
  {
    acc := result;
    var pending: seq<CExpr> := [];
    for i := |ss| downto 0
      invariant Wrap(pending, acc) == Nest(ss[i..], result)
      invariant pending != [] <==> i < |ss| && ss[i].CDo?
    {
      assert ss[i..][0] == ss[i] && ss[i..][1..] == ss[i + 1..];
      match ss[i] {
        case CLet(name, ty, value) =>
          if pending != [] {
            acc := Block(Reverse(pending), acc);
            pending := [];
          }
          acc := Let(name, ty, value, acc);
        case CDo(e) =>
          assert (pending + [e])[..|pending|] == pending;
          assert Reverse(pending + [e]) == [e] + Reverse(pending);
          assert i + 1 < |ss| ==> ss[i..][1] == ss[i + 1];
          pending := pending + [e];
      }
    }
    assert ss[0..] == ss;
    if pending != [] {
      acc := Block(Reverse(pending), acc);
    }
  }

  // ---- expressions ----

  const TRY_ARMS: seq<Arm> := [
    Arm(PConstructor("Ok", [PVar("v")]), Var("v")),
    Arm(PConstructor("Err", [PVar("e")]), Return(Constructor("Err", [Var("e")])))]

  const ASCRIPTION := "__ascription"

  /** `x |> right`, given the canonical forms of both. */
  function CanonPipe(left: CExpr, right: CExpr): CExpr {
    match right
    case Call(callee, args) => Call(callee, [left] + args)
    case Constructor(name, args) => Constructor(name, [left] + args)
    case _ => Call(right, [left])
  }

  function Canon(e: SExpr): CExpr
    decreases e, 1
  {
    match e
    case SLit(lit) => Literal(lit)
    case SVar(name) =>
      if IsConstructorName(Unqualified(name)) then Constructor(Unqualified(name), []) else Var(name)
    case SBraces(block) => CanonBlock(block)
    case SCall(callee, args) =>
      var cs := seq(|args|, i requires 0 <= i < |args| => Canon(args[i]));
      if callee.SVar? && IsConstructorName(Unqualified(callee.name)) then Constructor(Unqualified(callee.name), cs)
      else Call(Canon(callee), cs)
    case SPipe(left, right) => CanonPipe(Canon(left), Canon(right))
    case STry(inner) => Match(Canon(inner), TRY_ARMS)
    case SAccess(record, field) => FieldAccess(Canon(record), field)
    case SBinOp(op, lhs, rhs) => BinOp(op, Canon(lhs), Canon(rhs))
    case SUnaryOp(op, operand) => UnaryOp(op, Canon(operand))
    case SIf(cond, thenBlock, elseBlock) =>
      Match(Canon(cond), [Arm(PLiteral(Bool(true)), CanonBlock(thenBlock)), Arm(PLiteral(Bool(false)), CanonBlock(elseBlock))])
    case SMatch(scrutinee, arms) =>
      Match(Canon(scrutinee),
            seq(|arms|, i requires 0 <= i < |arms| => Arm(CanonPattern(arms[i].pattern), Canon(arms[i].body))))
    case SRecord(fields) =>
      RecordLit(RecordFields(SortNamed(seq(|fields|, i requires 0 <= i < |fields| =>
        (fields[i].name, Canon(fields[i].value))))))
    case STuple(items) => TupleLit(seq(|items|, i requires 0 <= i < |items| => Canon(items[i])))
    case SList(items) => ListLit(seq(|items|, i requires 0 <= i < |items| => Canon(items[i])))
    case SCon(name, args) => Constructor(name, seq(|args|, i requires 0 <= i < |args| => Canon(args[i])))
    case SFun(l) => Lambda(l.params, l.returnType, l.effects, l.rowVar, CanonBlock(l.body))
    case SAscription(value, ty) => Let(ASCRIPTION, Some(ty), Canon(value), Var(ASCRIPTION))
  }

  function CanonStatement(s: SStatement): CStatement
    decreases s, 1
  {
    match s
    case SLet(name, ty, value) => CLet(name, ty, Canon(value))
    case SDo(e) => CDo(Canon(e))
  }

  function CanonStatements(b: SBlock): seq<CStatement>
    decreases b, 0
  {
    seq(|b.statements|, i requires 0 <= i < |b.statements| => CanonStatement(b.statements[i]))
  }

  function CanonBlock(b: SBlock): CExpr
    decreases b, 1
  {
    Nest(CanonStatements(b), Canon(b.result))
  }
}
