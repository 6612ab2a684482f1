/** The surface syntax (crates/lex-syntax/src/syntax.rs:131-260) and what it means, said without reference
    to its canonical form. Types are carried in canonical form: nothing here evaluates them. */
module Surface {
  import opened Options
  import opened Ast
  import opened Meaning
  import opened Utf8
  import Text

  datatype SPatternField = SPatternField(name: string, pattern: Option<SPattern>)

  datatype SPattern =
    | SLitPattern(value: CLit)
    | SVarPattern(name: string)
    | SWild
    | SConPattern(name: string, args: seq<SPattern>)
    | SRecPattern(fields: seq<SPatternField>)
    | STupPattern(items: seq<SPattern>)

  datatype SStatement =
    | SLet(name: string, ty: Option<TypeExpr>, value: SExpr)
    | SDo(e: SExpr)

  datatype SBlock = SBlock(statements: seq<SStatement>, result: SExpr)

  datatype SArm = SArm(pattern: SPattern, body: SExpr)

  datatype SField = SField(name: string, value: SExpr)

  datatype SLambda = SLambda(params: seq<Param>, returnType: TypeExpr, effects: seq<Effect>, rowVar: Option<string>, body: SBlock)

  datatype SExpr =
    | SLit(lit: CLit)
    | SVar(name: string)
    | SBraces(block: SBlock)
    | SCall(callee: SExpr, args: seq<SExpr>)
    | SPipe(left: SExpr, right: SExpr)
    | STry(inner: SExpr)
    | SAccess(record: SExpr, field: string)
    | SBinOp(op: string, lhs: SExpr, rhs: SExpr)
    | SUnaryOp(op: string, operand: SExpr)
    | SIf(cond: SExpr, thenBlock: SBlock, elseBlock: SBlock)
    | SMatch(scrutinee: SExpr, arms: seq<SArm>)
    | SRecord(fields: seq<SField>)
    | STuple(items: seq<SExpr>)
    | SList(items: seq<SExpr>)
    | SCon(name: string, args: seq<SExpr>)
    | SFun(lambda: SLambda)
    | SAscription(value: SExpr, ty: TypeExpr)

  // ---- names ----

  /** The last component of a dotted name. */
  function Unqualified(name: string): string {
    var parts := Text.Split(name, '.');
    parts[|parts| - 1]
  }

  predicate IsConstructorName(name: string) {
    name != "" && 'A' <= name[0] <= 'Z'
  }

  /** A name standing for a constructor, mangled or not. */
  predicate NamesConstructor(e: SExpr) {
    e.SVar? && IsConstructorName(Unqualified(e.name))
  }

  // ---- sorting by name, equal names keeping their order ----

  function InsertNamed<T>(x: (string, T), sorted: seq<(string, T)>): seq<(string, T)> {
    if sorted == [] || !Less(sorted[0].0, x.0) then [x] + sorted
    else [sorted[0]] + InsertNamed(x, sorted[1..])
  }

  function SortNamed<T>(xs: seq<(string, T)>): seq<(string, T)> {
    if xs == [] then [] else InsertNamed(xs[0], SortNamed(xs[1..]))
  }

  // ---- patterns ----

  function MatchSurface<W>(I: Interp<W>, p: SPattern, v: Value): Option<Env>
    decreases p
  {
    match p
    case SWild => Some(map[])
    case SVarPattern(name) =>
      if IsConstructorName(name) then (if v == VCon(name, []) then Some(map[]) else None)
      else Some(map[name := v])
    case SLitPattern(lit) => if v.VLit? && I.litEq(lit, v.lit) then Some(map[]) else None
    case SConPattern(name, args) =>
      if v.VCon? && v.name == name && |v.args| == |args| then MatchSurfaces(I, args, v.args) else None
    case STupPattern(items) =>
      if v.VTup? && |v.items| == |items| then MatchSurfaces(I, items, v.items) else None
    case SRecPattern(fields) => if v.VRec? then MatchSurfaceFields(I, fields, v.fields) else None
  }

  function MatchSurfaces<W>(I: Interp<W>, ps: seq<SPattern>, vs: seq<Value>): Option<Env>
    requires |ps| == |vs|
    decreases ps
  {
    if ps == [] then Some(map[]) else
      var first := MatchSurface(I, ps[0], vs[0]);
      var rest := MatchSurfaces(I, ps[1..], vs[1..]);
      if first.Some? && rest.Some? then Some(first.value + rest.value) else None
  }

  /** A field without a pattern binds its own name. */
  function MatchSurfaceFields<W>(I: Interp<W>, fs: seq<SPatternField>, vs: seq<(string, Value)>): Option<Env>
    decreases fs
  {
    if fs == [] then Some(map[]) else
      var v := FieldOf(vs, fs[0].name);
      var first := if v.None? then None
                   else match fs[0].pattern
                        case Some(p) => MatchSurface(I, p, v.value)
                        case None => Some(map[fs[0].name := v.value]);
      var rest := MatchSurfaceFields(I, fs[1..], vs);
      if first.Some? && rest.Some? then Some(first.value + rest.value) else None
  }

  function PickSurface<W>(I: Interp<W>, arms: seq<SArm>, v: Value): (r: Option<(nat, Env)>)
    ensures r.Some? ==> r.value.0 < |arms|
  {
    if arms == [] then None else
      var here := MatchSurface(I, arms[0].pattern, v);
      if here.Some? then Some((0, here.value)) else
        var later := PickSurface(I, arms[1..], v);
        if later.Some? then Some((later.value.0 + 1, later.value.1)) else None
  }

  // ---- expressions ----

  /** A record holds its fields by name, however they were written. */
  function RecordOf(fields: seq<SField>, vs: seq<Value>): Value
    requires |fields| == |vs|
  {
    VRec(SortNamed(seq(|fields|, i requires 0 <= i < |fields| => (fields[i].name, vs[i]))))
  }

  function Truth(v: Value): Option<bool> {
    if v.VLit? && v.lit.Bool? then Some(v.lit.b) else None
  }

  /** `e?`: the payload of `Ok`, or an early return with the error. */
  function TryOf(v: Value): Outcome {
    if v.VCon? && v.name == "Ok" && |v.args| == 1 then Val(v.args[0])
    else if v.VCon? && v.name == "Err" && |v.args| == 1 then Ret(v)
    else Fail
  }

  function Mean<W>(I: Interp<W>, e: SExpr, env: Env, w: W): (Outcome, W)
    decreases e, 1, 0
  {
    match e
    case SLit(lit) => (Val(VLit(lit)), w)
    case SVar(name) =>
      (if NamesConstructor(e) then Val(VCon(Unqualified(name), [])) else Lookup(I, env, name), w)
    case SBraces(block) => MeanBlock(I, block, 0, env, w)
    case SCall(callee, args) =>
      if NamesConstructor(callee) then
        var (r, w1) := MeanAll(I, args, env, w);
        (if r.Stop? then r.o else Val(VCon(Unqualified(callee.name), r.vs)), w1)
      else
        var (f, w1) := Mean(I, callee, env, w);
        if !f.Val? then (f, w1) else
          var (r, w2) := MeanAll(I, args, env, w1);
          CallWith(I, f.v, r, w2)
    case SPipe(_, _) => MeanPipe(I, e, env, w)
    case STry(inner) =>
      var (r, w1) := Mean(I, inner, env, w);
      (if r.Val? then TryOf(r.v) else r, w1)
    case SAccess(record, field) =>
      var (r, w1) := Mean(I, record, env, w);
      if !r.Val? then (r, w1)
      else if r.v.VRec? then (FromOption(FieldOf(r.v.fields, field)), w1)
      else (Fail, w1)
    case SBinOp(op, lhs, rhs) =>
      var (a, w1) := Mean(I, lhs, env, w);
      if !a.Val? then (a, w1) else
        var (b, w2) := Mean(I, rhs, env, w1);
        if !b.Val? then (b, w2) else (FromOption(I.binop(op, a.v, b.v)), w2)
    case SUnaryOp(op, operand) =>
      var (a, w1) := Mean(I, operand, env, w);
      if !a.Val? then (a, w1) else (FromOption(I.unop(op, a.v)), w1)
    case SIf(cond, thenBlock, elseBlock) =>
      var (c, w1) := Mean(I, cond, env, w);
      if !c.Val? then (c, w1) else
        (match Truth(c.v)
         case Some(true) => MeanBlock(I, thenBlock, 0, env, w1)
         case Some(false) => MeanBlock(I, elseBlock, 0, env, w1)
         case None => (Fail, w1))
    case SMatch(scrutinee, arms) =>
      var (s, w1) := Mean(I, scrutinee, env, w);
      if !s.Val? then (s, w1) else
        var pick := PickSurface(I, arms, s.v);
        if pick.None? then (Fail, w1) else Mean(I, arms[pick.value.0].body, env + pick.value.1, w1)
    case SRecord(fields) =>
      var (r, w1) := MeanFields(I, fields, env, w);
      (if r.Stop? then r.o else Val(RecordOf(fields, r.vs)), w1)
    case STuple(items) =>
      var (r, w1) := MeanAll(I, items, env, w);
      (if r.Stop? then r.o else Val(VTup(r.vs)), w1)
    case SList(items) =>
      var (r, w1) := MeanAll(I, items, env, w);
      (if r.Stop? then r.o else Val(VList(r.vs)), w1)
    case SCon(name, args) =>
      var (r, w1) := MeanAll(I, args, env, w);
      (if r.Stop? then r.o else Val(VCon(name, r.vs)), w1)
    case SFun(l) => (Val(VFun(I.close(MeanFun(I, l, env)))), w)
    case SAscription(value, _) => Mean(I, value, env, w)
  }

  function CallWith<W>(I: Interp<W>, f: Value, r: Outcomes, w: W): (Outcome, W) {
    if r.Stop? then (r.o, w) else
      var (v, w1) := I.apply(f, r.vs, w);
      (FromOption(v), w1)
  }

  function Cons(first: Outcome, rest: Outcomes): Outcomes {
    if !first.Val? then Stop(first) else if rest.Stop? then rest else Vals([first.v] + rest.vs)
  }

  /** `x |> f(args)` calls f with x before its arguments; `x |> C(args)` builds C so; otherwise the right
      side is a function, and x its one argument. */
  function MeanPipe<W>(I: Interp<W>, e: SExpr, env: Env, w: W): (Outcome, W)
    requires e.SPipe?
    decreases e, 0, 0
  {
    var right := e.right;
    var args := if right.SCall? || right.SCon? then right.args else [];
    if NamesConstructor(right) || right.SCon? || (right.SCall? && NamesConstructor(right.callee)) then
      var name := if right.SCon? then right.name
                  else Unqualified(if right.SVar? then right.name else right.callee.name);
      var (x, w1) := Mean(I, e.left, env, w);
      var (r, w2) := if x.Val? && args != [] then MeanAll(I, args, env, w1) else (Vals([]), w1);
      var all := Cons(x, r);
      (if all.Stop? then all.o else Val(VCon(name, all.vs)), w2)
    else
      var (f, w1) := Mean(I, if right.SCall? then right.callee else right, env, w);
      if !f.Val? then (f, w1) else
        var (x, w2) := Mean(I, e.left, env, w1);
        var (r, w3) := if x.Val? && args != [] then MeanAll(I, args, env, w2) else (Vals([]), w2);
        CallWith(I, f.v, Cons(x, r), w3)
  }

  function MeanAll<W>(I: Interp<W>, es: seq<SExpr>, env: Env, w: W): (r: (Outcomes, W))
    ensures r.0.Vals? ==> |r.0.vs| == |es|
    ensures r.0.Stop? ==> !r.0.o.Val?
    decreases es, 0, 0
  {
    if es == [] then (Vals([]), w) else
      var (first, w1) := Mean(I, es[0], env, w);
      if !first.Val? then (Stop(first), w1) else
        var (rest, w2) := MeanAll(I, es[1..], env, w1);
        if rest.Stop? then (rest, w2) else (Vals([first.v] + rest.vs), w2)
  }

  function MeanFields<W>(I: Interp<W>, fs: seq<SField>, env: Env, w: W): (r: (Outcomes, W))
    ensures r.0.Vals? ==> |r.0.vs| == |fs|
    ensures r.0.Stop? ==> !r.0.o.Val?
    decreases fs, 0, 0
  {
    if fs == [] then (Vals([]), w) else
      var (first, w1) := Mean(I, fs[0].value, env, w);
      if !first.Val? then (Stop(first), w1) else
        var (rest, w2) := MeanFields(I, fs[1..], env, w1);
        if rest.Stop? then (rest, w2) else (Vals([first.v] + rest.vs), w2)
  }

  /** Statements in order, from the `i`-th on, then the result; a let is in scope from the next
      statement on. */
  function MeanBlock<W>(I: Interp<W>, b: SBlock, i: nat, env: Env, w: W): (Outcome, W)
    requires i <= |b.statements|
    decreases b, 0, |b.statements| - i
  {
    if i == |b.statements| then Mean(I, b.result, env, w) else
      match b.statements[i]
      case SLet(name, _, value) =>
        var (v, w1) := Mean(I, value, env, w);
        if !v.Val? then (v, w1) else MeanBlock(I, b, i + 1, env[name := v.v], w1)
      case SDo(e) =>
        var (v, w1) := Mean(I, e, env, w);
        if !v.Val? then (v, w1) else MeanBlock(I, b, i + 1, env, w1)
  }

  function MeanFun<W>(I: Interp<W>, l: SLambda, env: Env): Behaviour<W>
    decreases l, 0, 0
  {
    (args, w) =>
      if |args| != |l.params| then (None, w) else
        var (o, w1) := MeanBlock(I, l.body, 0, env + Bind(l.params, args), w);
        (Enter(o), w1)
  }
}
