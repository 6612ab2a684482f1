/** The canonical AST (crates/lex-ast/src/canonical.rs). Documentation comments and signature
    examples, which no transform reads, are left out of `FnDecl`. */
module Ast {
  import opened Options

  datatype CLit =
    | Int(n: int) | Float(text: string) | Str(s: string) | Bytes(hex: string) | Bool(b: bool) | Unit

  datatype EffectArg = StrArg(s: string) | IntArg(n: int) | IdentArg(id: string)

  datatype Effect = Effect(name: string, arg: Option<EffectArg>)

  datatype Param = Param(name: string, ty: TypeExpr)

  datatype TypeField = TypeField(name: string, ty: TypeExpr)

  datatype UnionVariant = UnionVariant(name: string, payload: Option<TypeExpr>)

  datatype TypeExpr =
    | Named(name: string, args: seq<TypeExpr>)
    | RecordType(fields: seq<TypeField>)
    | TupleType(items: seq<TypeExpr>)
    | FunctionType(params: seq<TypeExpr>, effects: seq<Effect>, rowVar: Option<string>, ret: TypeExpr)
    | UnionType(variants: seq<UnionVariant>)
    | SpreadRecordType(spreads: seq<string>, fields: seq<TypeField>)
    | Refined(base: TypeExpr, binding: string, condition: CExpr)

  datatype PatternField = PatternField(name: string, pattern: Pattern)

  datatype Pattern =
    | PLiteral(value: CLit)
    | PVar(name: string)
    | PWild
    | PConstructor(name: string, args: seq<Pattern>)
    | PRecord(fields: seq<PatternField>)
    | PTuple(items: seq<Pattern>)

  datatype Arm = Arm(pattern: Pattern, body: CExpr)

  datatype RecordField = RecordField(name: string, value: CExpr)

  datatype CExpr =
    | Literal(value: CLit)
    | Var(name: string)
    | Call(callee: CExpr, args: seq<CExpr>)
    | Let(name: string, ty: Option<TypeExpr>, bound: CExpr, body: CExpr)
    | Match(scrutinee: CExpr, arms: seq<Arm>)
    | Block(statements: seq<CExpr>, result: CExpr)
    | Constructor(name: string, args: seq<CExpr>)
    | RecordLit(fields: seq<RecordField>)
    | TupleLit(items: seq<CExpr>)
    | ListLit(items: seq<CExpr>)
    | FieldAccess(record: CExpr, field: string)
    | Lambda(params: seq<Param>, returnType: TypeExpr, effects: seq<Effect>, rowVar: Option<string>, body: CExpr)
    | BinOp(op: string, lhs: CExpr, rhs: CExpr)
    | UnaryOp(op: string, operand: CExpr)
    | Return(result: CExpr)

  datatype FnDecl = FnDecl(
    name: string, typeParams: seq<string>, params: seq<Param>, effects: seq<Effect>,
    rowVar: Option<string>, returnType: TypeExpr, body: CExpr)

  datatype Stage =
    | FnStage(fd: FnDecl)
    | TypeStage(name: string, params: seq<string>, definition: TypeExpr)
    | ImportStage(reference: string, alias: string)

  function ParamNames(params: seq<Param>): set<string> {
    set i | 0 <= i < |params| :: params[i].name
  }

  /** Names a pattern binds. */
  function PatternNames(p: Pattern): set<string> {
    match p
    case PVar(x) => {x}
    case PLiteral(_) | PWild => {}
    case PConstructor(_, args) => set i, x | 0 <= i < |args| && x in PatternNames(args[i]) :: x
    case PRecord(fields) => set i, x | 0 <= i < |fields| && x in PatternNames(fields[i].pattern) :: x
    case PTuple(items) => set i, x | 0 <= i < |items| && x in PatternNames(items[i]) :: x
  }

  /** Variables free in an expression (transforms.rs:303-362). */
  function FreeVars(e: CExpr): set<string> {
    match e
    case Var(x) => {x}
    case Literal(_) => {}
    case Call(callee, args) => FreeVars(callee) + set i, x | 0 <= i < |args| && x in FreeVars(args[i]) :: x
    case Let(name, _, bound, body) => FreeVars(bound) + (FreeVars(body) - {name})
    case Match(scrutinee, arms) =>
      FreeVars(scrutinee)
      + set i, x | 0 <= i < |arms| && x in FreeVars(arms[i].body) && x !in PatternNames(arms[i].pattern) :: x
    case Block(statements, result) =>
      (set i, x | 0 <= i < |statements| && x in FreeVars(statements[i]) :: x) + FreeVars(result)
    case Constructor(_, args) => set i, x | 0 <= i < |args| && x in FreeVars(args[i]) :: x
    case RecordLit(fields) => set i, x | 0 <= i < |fields| && x in FreeVars(fields[i].value) :: x
    case TupleLit(items) => set i, x | 0 <= i < |items| && x in FreeVars(items[i]) :: x
    case ListLit(items) => set i, x | 0 <= i < |items| && x in FreeVars(items[i]) :: x
    case FieldAccess(record, _) => FreeVars(record)
    case Lambda(params, _, _, _, body) => FreeVars(body) - ParamNames(params)
    case BinOp(_, lhs, rhs) => FreeVars(lhs) + FreeVars(rhs)
    case UnaryOp(_, operand) => FreeVars(operand)
    case Return(result) => FreeVars(result)
  }

  /** Every name some binder of the expression introduces (transforms.rs:410-441). */
  function Binders(e: CExpr): set<string> {
    match e
    case Var(_) | Literal(_) => {}
    case Call(callee, args) => Binders(callee) + set i, x | 0 <= i < |args| && x in Binders(args[i]) :: x
    case Let(name, _, bound, body) => {name} + Binders(bound) + Binders(body)
    case Match(scrutinee, arms) =>
      Binders(scrutinee)
      + (set i, x | 0 <= i < |arms| && x in PatternNames(arms[i].pattern) :: x)
      + set i, x | 0 <= i < |arms| && x in Binders(arms[i].body) :: x
    case Block(statements, result) =>
      (set i, x | 0 <= i < |statements| && x in Binders(statements[i]) :: x) + Binders(result)
    case Constructor(_, args) => set i, x | 0 <= i < |args| && x in Binders(args[i]) :: x
    case RecordLit(fields) => set i, x | 0 <= i < |fields| && x in Binders(fields[i].value) :: x
    case TupleLit(items) => set i, x | 0 <= i < |items| && x in Binders(items[i]) :: x
    case ListLit(items) => set i, x | 0 <= i < |items| && x in Binders(items[i]) :: x
    case FieldAccess(record, _) => Binders(record)
    case Lambda(params, _, _, _, body) => ParamNames(params) + Binders(body)
    case BinOp(_, lhs, rhs) => Binders(lhs) + Binders(rhs)
    case UnaryOp(_, operand) => Binders(operand)
    case Return(result) => Binders(result)
  }
}
