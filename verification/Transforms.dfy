/** The typed AST transforms (crates/lex-ast/src/transforms.rs). */
module Transforms {
  import opened Options
  import opened Ast
  import opened NodePaths

  datatype TransformError =
    | UnknownNode | NotALet | BadNodeId | NonFnTarget | RenameNoOp | InlineRefused | ExtractRefused

  datatype Result<+T> = Ok(value: T) | Err(error: TransformError)

  /** What `inline_let` is willing to duplicate (transforms.rs:272-294). */
  predicate Inlinable(v: CExpr) {
    match v
    case Literal(_) | Var(_) => true
    case FieldAccess(record, _) => Inlinable(record)
    case BinOp(_, lhs, rhs) => Inlinable(lhs) && Inlinable(rhs)
    case UnaryOp(_, operand) => Inlinable(operand)
    case TupleLit(items) => forall i | 0 <= i < |items| :: Inlinable(items[i])
    case ListLit(items) => forall i | 0 <= i < |items| :: Inlinable(items[i])
    case _ => false
  }

  /** Substitution for the unshadowed occurrences of `x` (transforms.rs:447-501). */
  function Substitute(e: CExpr, x: string, v: CExpr): CExpr {
    match e
    case Var(y) => if y == x then v else e
    case Literal(_) => e
    case Call(callee, args) =>
      Call(Substitute(callee, x, v), seq(|args|, i requires 0 <= i < |args| => Substitute(args[i], x, v)))
    case Let(name, ty, bound, body) =>
      Let(name, ty, Substitute(bound, x, v), if name != x then Substitute(body, x, v) else body)
    case Match(scrutinee, arms) =>
      Match(Substitute(scrutinee, x, v),
            seq(|arms|, i requires 0 <= i < |arms| =>
              Arm(arms[i].pattern,
                  if x in PatternNames(arms[i].pattern) then arms[i].body else Substitute(arms[i].body, x, v))))
    case Block(statements, result) =>
      Block(seq(|statements|, i requires 0 <= i < |statements| => Substitute(statements[i], x, v)),
            Substitute(result, x, v))
    case Constructor(name, args) =>
      Constructor(name, seq(|args|, i requires 0 <= i < |args| => Substitute(args[i], x, v)))
    case RecordLit(fields) =>
      RecordLit(seq(|fields|, i requires 0 <= i < |fields| =>
        RecordField(fields[i].name, Substitute(fields[i].value, x, v))))
    case TupleLit(items) => TupleLit(seq(|items|, i requires 0 <= i < |items| => Substitute(items[i], x, v)))
    case ListLit(items) => ListLit(seq(|items|, i requires 0 <= i < |items| => Substitute(items[i], x, v)))
    case FieldAccess(record, field) => FieldAccess(Substitute(record, x, v), field)
    case Lambda(params, returnType, effects, rowVar, body) =>
      Lambda(params, returnType, effects, rowVar, if x in ParamNames(params) then body else Substitute(body, x, v))
    case BinOp(op, lhs, rhs) => BinOp(op, Substitute(lhs, x, v), Substitute(rhs, x, v))
    case UnaryOp(op, operand) => UnaryOp(op, Substitute(operand, x, v))
    case Return(result) => Return(Substitute(result, x, v))
  }

  /** Renaming of the unshadowed occurrences of `old` (transforms.rs:503-558). */
  function RewriteVar(e: CExpr, old0: string, new0: string): CExpr {
    match e
    case Var(y) => if y == old0 then Var(new0) else e
    case Literal(_) => e
    case Call(callee, args) =>
      Call(RewriteVar(callee, old0, new0), seq(|args|, i requires 0 <= i < |args| => RewriteVar(args[i], old0, new0)))
    case Let(name, ty, bound, body) =>
      Let(name, ty, RewriteVar(bound, old0, new0), if name != old0 then RewriteVar(body, old0, new0) else body)
    case Match(scrutinee, arms) =>
      Match(RewriteVar(scrutinee, old0, new0),
            seq(|arms|, i requires 0 <= i < |arms| =>
              Arm(arms[i].pattern,
                  if old0 in PatternNames(arms[i].pattern) then arms[i].body else RewriteVar(arms[i].body, old0, new0))))
    case Block(statements, result) =>
      Block(seq(|statements|, i requires 0 <= i < |statements| => RewriteVar(statements[i], old0, new0)),
            RewriteVar(result, old0, new0))
    case Constructor(name, args) =>
      Constructor(name, seq(|args|, i requires 0 <= i < |args| => RewriteVar(args[i], old0, new0)))
    case RecordLit(fields) =>
      RecordLit(seq(|fields|, i requires 0 <= i < |fields| =>
        RecordField(fields[i].name, RewriteVar(fields[i].value, old0, new0))))
    case TupleLit(items) => TupleLit(seq(|items|, i requires 0 <= i < |items| => RewriteVar(items[i], old0, new0)))
    case ListLit(items) => ListLit(seq(|items|, i requires 0 <= i < |items| => RewriteVar(items[i], old0, new0)))
    case FieldAccess(record, field) => FieldAccess(RewriteVar(record, old0, new0), field)
    case Lambda(params, returnType, effects, rowVar, body) =>
      Lambda(params, returnType, effects, rowVar, if old0 in ParamNames(params) then body else RewriteVar(body, old0, new0))
    case BinOp(op, lhs, rhs) => BinOp(op, RewriteVar(lhs, old0, new0), RewriteVar(rhs, old0, new0))
    case UnaryOp(op, operand) => UnaryOp(op, RewriteVar(operand, old0, new0))
    case Return(result) => Return(RewriteVar(result, old0, new0))
  }

  /** The path into the body that an id names (transforms.rs:157-175): the stage must be a function,
      the id well-formed, not the stage itself, and below the body's slot. */
  function BodyPath(stage: Stage, id: string, atRoot: TransformError): Result<Path> {
    if !stage.FnStage? then Err(NonFnTarget)
    else
      var path := ParseNodeId(id);
      if path.None? then Err(BadNodeId)
      else if path.value == [] then Err(atRoot)
      else if path.value[0] != |stage.fd.params| + 1 then Err(UnknownNode)
      else if Navigate(stage.fd.body, path.value[1..]).None? then Err(UnknownNode)
      else Ok(path.value[1..])
  }

  function WithBody(stage: Stage, body: CExpr): Stage
    requires stage.FnStage?
  {
    FnStage(stage.fd.(body := body))
  }

  function InlinedLet(e: CExpr): CExpr
    requires e.Let?
  {
    Substitute(e.body, e.name, e.bound)
  }

  predicate InlineAllowed(e: CExpr)
    requires e.Let?
  {
    Inlinable(e.bound) && FreeVars(e.bound) !! Binders(e.body)
  }

  /** `inline_let` (transforms.rs:213-266). The body root is the empty path, so the original's
      special case for it is this one. */
  function InlineLet(stage: Stage, id: string): Result<Stage> {
    var path := BodyPath(stage, id, NotALet);
    if path.Err? then Err(path.error) else
      var target := Navigate(stage.fd.body, path.value).value;
      if !target.Let? then Err(NotALet)
      else if !InlineAllowed(target) then Err(InlineRefused)
      else Ok(WithBody(stage, ReplaceAt(stage.fd.body, path.value, InlinedLet(target))))
  }

  function RenamedLet(e: CExpr, name: string): CExpr
    requires e.Let?
  {
    Let(name, e.ty, e.bound, RewriteVar(e.body, e.name, name))
  }

  /** `rename_local` (transforms.rs:152-191). */
  function RenameLocal(stage: Stage, id: string, name: string): Result<Stage> {
    var path := BodyPath(stage, id, NotALet);
    if path.Err? then Err(path.error) else
      var target := Navigate(stage.fd.body, path.value).value;
      if !target.Let? then Err(NotALet)
      else if target.name == name then Err(RenameNoOp)
      else Ok(WithBody(stage, ReplaceAt(stage.fd.body, path.value, RenamedLet(target, name))))
  }

  datatype ExtractSpec = ExtractSpec(
    name: string, typeParams: seq<string>, params: seq<Param>, returnType: TypeExpr, effects: seq<Effect>)

  function CallOf(spec: ExtractSpec): CExpr {
    Call(Var(spec.name), seq(|spec.params|, i requires 0 <= i < |spec.params| => Var(spec.params[i].name)))
  }

  /** `extract_function` (transforms.rs:584-658). */
  function ExtractFunction(stage: Stage, id: string, spec: ExtractSpec): Result<(Stage, Stage)> {
    var path := BodyPath(stage, id, UnknownNode);
    if path.Err? then Err(path.error) else
      var target := Navigate(stage.fd.body, path.value).value;
      if FreeVars(target) != ParamNames(spec.params) then Err(ExtractRefused)
      else Ok((WithBody(stage, ReplaceAt(stage.fd.body, path.value, CallOf(spec))),
               FnStage(FnDecl(spec.name, spec.typeParams, spec.params, spec.effects, None, spec.returnType, target))))
  }
}
