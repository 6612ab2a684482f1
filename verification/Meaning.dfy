/** Big-step meaning of canonical expressions, with early return.

    Calls, operators, closures and global functions are given by an arbitrary interpretation over an
    arbitrary world, so what is proved holds for every one of them, effects and recursion included. */
module Meaning {
  import opened Options
  import opened Ast

  datatype Value =
    | VLit(lit: CLit)
    | VCon(name: string, args: seq<Value>)
    | VRec(fields: seq<(string, Value)>)
    | VTup(items: seq<Value>)
    | VList(items: seq<Value>)
    | VFun(id: nat)

  /** A value, an early return on its way to the enclosing function, or a failed evaluation. */
  datatype Outcome = Val(v: Value) | Ret(v: Value) | Fail

  datatype Outcomes = Vals(vs: seq<Value>) | Stop(o: Outcome)

  type Env = map<string, Value>

  type Behaviour<!W> = (seq<Value>, W) -> (Option<Value>, W)

  datatype Interp<!W> = Interp(
    globals: Env,
    binop: (string, Value, Value) -> Option<Value>,
    unop: (string, Value) -> Option<Value>,
    litEq: (CLit, CLit) -> bool,
    apply: (Value, seq<Value>, W) -> (Option<Value>, W),
    close: Behaviour<W> -> nat)

  /** Closures are known by what they do: equal behaviour, equal closure. */
  ghost predicate Extensional<W(!new)>(I: Interp<W>) {
    forall f: Behaviour<W>, g: Behaviour<W> ::
      (forall args, w :: f(args, w) == g(args, w)) ==> I.close(f) == I.close(g)
  }

  function Lookup<W>(I: Interp<W>, env: Env, x: string): Outcome {
    if x in env then Val(env[x]) else if x in I.globals then Val(I.globals[x]) else Fail
  }

  function FieldOf(fields: seq<(string, Value)>, name: string): Option<Value> {
    if fields == [] then None
    else if fields[0].0 == name then Some(fields[0].1)
    else FieldOf(fields[1..], name)
  }

  // ---- patterns ----

  function MatchPattern<W>(I: Interp<W>, p: Pattern, v: Value): Option<Env>
    decreases p
  {
    match p
    case PWild => Some(map[])
    case PVar(x) => Some(map[x := v])
    case PLiteral(lit) => if v.VLit? && I.litEq(lit, v.lit) then Some(map[]) else None
    case PConstructor(name, args) =>
      if v.VCon? && v.name == name && |v.args| == |args| then MatchPatterns(I, args, v.args) else None
    case PTuple(items) =>
      if v.VTup? && |v.items| == |items| then MatchPatterns(I, items, v.items) else None
    case PRecord(fields) => if v.VRec? then MatchFields(I, fields, v.fields) else None
  }

  function MatchPatterns<W>(I: Interp<W>, ps: seq<Pattern>, vs: seq<Value>): Option<Env>
    requires |ps| == |vs|
    decreases ps
  {
    if ps == [] then Some(map[]) else
      var first := MatchPattern(I, ps[0], vs[0]);
      var rest := MatchPatterns(I, ps[1..], vs[1..]);
      if first.Some? && rest.Some? then Some(first.value + rest.value) else None
  }

  function MatchFields<W>(I: Interp<W>, fs: seq<PatternField>, vs: seq<(string, Value)>): Option<Env>
    decreases fs
  {
    if fs == [] then Some(map[]) else
      var v := FieldOf(vs, fs[0].name);
      var first := if v.Some? then MatchPattern(I, fs[0].pattern, v.value) else None;
      var rest := MatchFields(I, fs[1..], vs);
      if first.Some? && rest.Some? then Some(first.value + rest.value) else None
  }

  /** First arm whose pattern matches, with its bindings. */
  function Pick<W>(I: Interp<W>, arms: seq<Arm>, v: Value): Option<(nat, Env)>
    ensures Pick(I, arms, v).Some? ==> Pick(I, arms, v).value.0 < |arms|
  {
    if arms == [] then None else
      var here := MatchPattern(I, arms[0].pattern, v);
      if here.Some? then Some((0, here.value)) else
        var later := Pick(I, arms[1..], v);
        if later.Some? then Some((later.value.0 + 1, later.value.1)) else None
  }

  function Bind(params: seq<Param>, args: seq<Value>): Env
    requires |params| == |args|
  {
    if params == [] then map[] else map[params[0].name := args[0]] + Bind(params[1..], args[1..])
  }

  function NameFields(fields: seq<RecordField>, vs: seq<Value>): seq<(string, Value)>
    requires |fields| == |vs|
  {
    seq(|fields|, i requires 0 <= i < |fields| => (fields[i].name, vs[i]))
  }

  function FieldValues(fields: seq<RecordField>): seq<CExpr> {
    seq(|fields|, i requires 0 <= i < |fields| => fields[i].value)
  }

  // ---- expressions ----

  /** Call a body: an early return ends here. */
  function Enter(o: Outcome): Option<Value> {
    if o.Fail? then None else Some(o.v)
  }

  function FromOption(v: Option<Value>): Outcome {
    if v.Some? then Val(v.value) else Fail
  }

  function Eval<W>(I: Interp<W>, e: CExpr, env: Env, w: W): (Outcome, W)
    decreases e, 1
  {
    match e
    case Literal(lit) => (Val(VLit(lit)), w)
    case Var(x) => (Lookup(I, env, x), w)
    case Call(callee, args) =>
      var (f, w1) := Eval(I, callee, env, w);
      if !f.Val? then (f, w1) else
        var (r, w2) := EvalAll(I, args, env, w1);
        if r.Stop? then (r.o, w2) else
          var (v, w3) := I.apply(f.v, r.vs, w2);
          (FromOption(v), w3)
    case Let(name, _, bound, body) =>
      var (b, w1) := Eval(I, bound, env, w);
      if !b.Val? then (b, w1) else Eval(I, body, env[name := b.v], w1)
    case Match(scrutinee, arms) =>
      var (s, w1) := Eval(I, scrutinee, env, w);
      if !s.Val? then (s, w1) else
        var pick := Pick(I, arms, s.v);
        if pick.None? then (Fail, w1) else Eval(I, arms[pick.value.0].body, env + pick.value.1, w1)
    case Block(statements, result) =>
      var (r, w1) := EvalAll(I, statements, env, w);
      if r.Stop? then (r.o, w1) else Eval(I, result, env, w1)
    case Constructor(name, args) =>
      var (r, w1) := EvalAll(I, args, env, w);
      if r.Stop? then (r.o, w1) else (Val(VCon(name, r.vs)), w1)
    case RecordLit(fields) =>
      var (r, w1) := EvalFields(I, fields, env, w);
      if r.Stop? then (r.o, w1) else (Val(VRec(NameFields(fields, r.vs))), w1)
    case TupleLit(items) =>
      var (r, w1) := EvalAll(I, items, env, w);
      if r.Stop? then (r.o, w1) else (Val(VTup(r.vs)), w1)
    case ListLit(items) =>
      var (r, w1) := EvalAll(I, items, env, w);
      if r.Stop? then (r.o, w1) else (Val(VList(r.vs)), w1)
    case FieldAccess(record, field) =>
      var (r, w1) := Eval(I, record, env, w);
      if !r.Val? then (r, w1)
      else if r.v.VRec? then (FromOption(FieldOf(r.v.fields, field)), w1)
      else (Fail, w1)
    case Lambda(params, _, _, _, body) => (Val(VFun(I.close(Denote(I, params, body, env)))), w)
    case BinOp(op, lhs, rhs) =>
      var (a, w1) := Eval(I, lhs, env, w);
      if !a.Val? then (a, w1) else
        var (b, w2) := Eval(I, rhs, env, w1);
        if !b.Val? then (b, w2) else (FromOption(I.binop(op, a.v, b.v)), w2)
    case UnaryOp(op, operand) =>
      var (a, w1) := Eval(I, operand, env, w);
      if !a.Val? then (a, w1) else (FromOption(I.unop(op, a.v)), w1)
    case Return(result) =>
      var (r, w1) := Eval(I, result, env, w);
      (if r.Val? then Ret(r.v) else r, w1)
  }

  /** Left to right, stopping at the first failure or early return. */
  function EvalAll<W>(I: Interp<W>, es: seq<CExpr>, env: Env, w: W): (r: (Outcomes, W))
    ensures r.0.Vals? ==> |r.0.vs| == |es|
    ensures r.0.Stop? ==> !r.0.o.Val?
    decreases es, 0
  {
    if es == [] then (Vals([]), w) else
      var (first, w1) := Eval(I, es[0], env, w);
      if !first.Val? then (Stop(first), w1) else
        var (rest, w2) := EvalAll(I, es[1..], env, w1);
        if rest.Stop? then (rest, w2) else (Vals([first.v] + rest.vs), w2)
  }

  function EvalFields<W>(I: Interp<W>, fs: seq<RecordField>, env: Env, w: W): (r: (Outcomes, W))
    ensures r.0.Vals? ==> |r.0.vs| == |fs|
    ensures r.0.Stop? ==> !r.0.o.Val?
    decreases fs, 0
  {
    if fs == [] then (Vals([]), w) else
      var (first, w1) := Eval(I, fs[0].value, env, w);
      if !first.Val? then (Stop(first), w1) else
        var (rest, w2) := EvalFields(I, fs[1..], env, w1);
        if rest.Stop? then (rest, w2) else (Vals([first.v] + rest.vs), w2)
  }

  function Denote<W>(I: Interp<W>, params: seq<Param>, body: CExpr, env: Env): Behaviour<W>
    decreases body, 2
  {
    (args, w) =>
      if |args| != |params| then (None, w) else
        var (o, w1) := Eval(I, body, env + Bind(params, args), w);
        (Enter(o), w1)
  }
}
