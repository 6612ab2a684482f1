/** Why desugaring asks for orderly records and for pipes as written: for expressions that only call and build,
    it keeps the meaning under the interpretation that remembers every call exactly when they are. */
module CanonicalizeBounds {
  import opened Options
  import opened Ast
  import opened Meaning
  import opened Surface
  import opened Canonicalize
  import opened RecordOrder
  import opened CanonicalizeLaws
  import opened Utf8

  // ---- pipes that are not as written ----

  /** A pipe into what is itself desugared to a call or constructor is that call or constructor, with the left
      side in front of its arguments. */
  lemma PipeMerges(left: SExpr, right: SExpr)
    requires !PipesAsWritten(right)
    ensures var merged := Canon(right);
            if merged.Call? then Canon(SPipe(left, right)) == Call(merged.callee, [Canon(left)] + merged.args)
            else merged.Constructor? && Canon(SPipe(left, right)) == Constructor(merged.name, [Canon(left)] + merged.args)
    ensures right.SPipe? || right.SBraces?
  {
    CanonCallish(right);
  }

  // ---- the interpretation ----

  /** A call is numbered, and its value holds the function, the arguments and the number. */
  function Tracing(): Interp<nat> {
    Interp(map[], (op, a, b) => None, (op, a) => None, (a, b) => a == b,
           (f, args, n) => (Some(Traced(f, args, n + 1)), n + 1), f => 0)
  }

  function Traced(f: Value, args: seq<Value>, number: nat): Value {
    VTup([f, VList(args), VFun(number)])
  }

  lemma TracingAllowed()
    ensures Extensional(Tracing()) && BoolsDistinct(Tracing())
  {
  }

  /** How many calls a value remembers. */
  function Tags(v: Value): nat
    decreases v, 0
  {
    match v
    case VLit(_) => 0
    case VFun(_) => 1
    case VCon(_, args) => TagsAll(args)
    case VTup(items) => TagsAll(items)
    case VList(items) => TagsAll(items)
    case VRec(fields) => TagsNamed(fields)
  }

  function TagsAll(vs: seq<Value>): nat
    decreases vs, 0
  {
    if vs == [] then 0 else Tags(vs[0]) + TagsAll(vs[1..])
  }

  function TagsNamed(vs: seq<(string, Value)>): nat
    decreases vs, 0
  {
    if vs == [] then 0 else TagsOf(vs[0]) + TagsNamed(vs[1..])
  }

  function TagsOf(named: (string, Value)): nat
    decreases named, 1
  {
    Tags(named.1)
  }

  /** The number of the last of them. */
  function Top(v: Value): nat
    decreases v, 0
  {
    match v
    case VLit(_) => 0
    case VFun(id) => id
    case VCon(_, args) => TopAll(args)
    case VTup(items) => TopAll(items)
    case VList(items) => TopAll(items)
    case VRec(fields) => TopNamed(fields)
  }

  function Larger(a: nat, b: nat): nat {
    if a < b then b else a
  }

  function TopAll(vs: seq<Value>): nat
    decreases vs, 0
  {
    if vs == [] then 0 else Larger(Top(vs[0]), TopAll(vs[1..]))
  }

  function TopNamed(vs: seq<(string, Value)>): nat
    decreases vs, 0
  {
    if vs == [] then 0 else Larger(TopOf(vs[0]), TopNamed(vs[1..]))
  }

  function TopOf(named: (string, Value)): nat
    decreases named, 1
  {
    Top(named.1)
  }

  // ---- straight expressions ----

  /** Names in scope, literals, calls, pipes and what is built from them. */
  predicate Straight(e: SExpr, scope: set<string>) {
    match e
    case SLit(_) => true
    case SVar(name) => NamesConstructor(e) || name in scope
    case SBraces(block) => block.statements == [] && Straight(block.result, scope)
    case SCall(callee, args) => Straight(callee, scope) && forall i | 0 <= i < |args| :: Straight(args[i], scope)
    case SPipe(left, right) => Straight(left, scope) && Straight(right, scope)
    case SRecord(fields) => forall i | 0 <= i < |fields| :: Straight(fields[i].value, scope)
    case STuple(items) => forall i | 0 <= i < |items| :: Straight(items[i], scope)
    case SList(items) => forall i | 0 <= i < |items| :: Straight(items[i], scope)
    case SCon(_, args) => forall i | 0 <= i < |args| :: Straight(args[i], scope)
    case _ => false
  }

  /** How many calls it makes. */
  function Calls(e: SExpr): nat {
    match e
    case SBraces(block) => Calls(block.result)
    case SCall(callee, args) => CallsAll(args) + if NamesConstructor(callee) then 0 else Calls(callee) + 1
    case SPipe(left, right) => Calls(left) + Calls(right) + if PipeBuilt(right) || right.SCall? then 0 else 1
    case SRecord(fields) => CallsFields(fields)
    case STuple(items) => CallsAll(items)
    case SList(items) => CallsAll(items)
    case SCon(_, args) => CallsAll(args)
    case _ => 0
  }

  function CallsAll(es: seq<SExpr>): nat {
    if es == [] then 0 else Calls(es[0]) + CallsAll(es[1..])
  }

  function CallsFields(fs: seq<SField>): nat {
    if fs == [] then 0 else Calls(fs[0].value) + CallsFields(fs[1..])
  }

  // ---- sums and maxima do not depend on the order ----

  function SumNamed<T>(f: T -> nat, xs: seq<(string, T)>): nat {
    if xs == [] then 0 else f(xs[0].1) + SumNamed(f, xs[1..])
  }

  function MaxNamed<T>(f: T -> nat, xs: seq<(string, T)>): nat {
    if xs == [] then 0 else Larger(f(xs[0].1), MaxNamed(f, xs[1..]))
  }

  lemma {:induction false} InsertFolds<T>(f: T -> nat, x: (string, T), sorted: seq<(string, T)>)
    ensures SumNamed(f, InsertNamed(x, sorted)) == f(x.1) + SumNamed(f, sorted)
    ensures MaxNamed(f, InsertNamed(x, sorted)) == Larger(f(x.1), MaxNamed(f, sorted))
  {
    if sorted != [] && Less(sorted[0].0, x.0) {
      InsertFolds(f, x, sorted[1..]);
      assert InsertNamed(x, sorted)[1..] == InsertNamed(x, sorted[1..]);
    } else {
      assert ([x] + sorted)[1..] == sorted;
    }
  }

  lemma {:induction false} SortFolds<T>(f: T -> nat, xs: seq<(string, T)>)
    ensures SumNamed(f, SortNamed(xs)) == SumNamed(f, xs)
    ensures MaxNamed(f, SortNamed(xs)) == MaxNamed(f, xs)
  {
    if xs != [] {
      SortFolds(f, xs[1..]);
      InsertFolds(f, xs[0], SortNamed(xs[1..]));
    }
  }

  lemma {:induction false} NamedFolds(vs: seq<(string, Value)>)
    ensures TagsNamed(vs) == SumNamed(Tags, vs) && TopNamed(vs) == MaxNamed(Top, vs)
  {
    if vs != [] { NamedFolds(vs[1..]); }
  }

  lemma SortedTags(vs: seq<(string, Value)>)
    ensures TagsNamed(SortNamed(vs)) == TagsNamed(vs) && TopNamed(SortNamed(vs)) == TopNamed(vs)
  {
    NamedFolds(vs);
    NamedFolds(SortNamed(vs));
    SortFolds(Tags, vs);
    SortFolds(Top, vs);
  }

  lemma TagsCons(v: Value, vs: seq<Value>)
    ensures TagsAll([v] + vs) == Tags(v) + TagsAll(vs) && TopAll([v] + vs) == Larger(Top(v), TopAll(vs))
  {
    assert ([v] + vs)[1..] == vs;
  }

  lemma TracedTags(f: Value, args: seq<Value>, number: nat)
    ensures Tags(Traced(f, args, number)) == Tags(f) + TagsAll(args) + 1
    ensures Top(Traced(f, args, number)) == Larger(Top(f), Larger(TopAll(args), number))
  {
    var three := [f, VList(args), VFun(number)];
    assert three == [f] + ([VList(args)] + ([VFun(number)] + []));
    TagsCons(f, [VList(args)] + ([VFun(number)] + []));
    TagsCons(VList(args), [VFun(number)] + []);
    TagsCons(VFun(number), []);
  }

  // ---- what the surface expression leaves in its value ----

  ghost predicate Literals(env: Env) {
    forall x | x in env :: env[x].VLit?
  }

  /** From `n` calls to `m`: the value remembers `calls` of them, the last included. */
  ghost predicate Remembers(v: Value, n: nat, calls: nat, m: nat) {
    m == n + calls && Tags(v) == calls && Top(v) <= m && (calls > 0 ==> Top(v) == m)
  }

  ghost predicate RememberAll(vs: seq<Value>, n: nat, calls: nat, m: nat) {
    m == n + calls && TagsAll(vs) == calls && TopAll(vs) <= m && (calls > 0 ==> TopAll(vs) == m)
  }

  lemma {:induction false} TraceMean(e: SExpr, env: Env, n: nat)
    requires Straight(e, env.Keys) && Literals(env)
    ensures var (o, m) := Mean(Tracing(), e, env, n); o.Val? && Remembers(o.v, n, Calls(e), m)
    decreases e, 1
  {
    hide *;
    match e {
      case SLit(_) => TraceLeaf(e, env, n);
      case SVar(_) => TraceLeaf(e, env, n);
      case SBraces(block) => TraceBraces(block, env, n);
      case SCall(_, _) => TraceCall(e, env, n);
      case SPipe(_, _) => TracePipe(e, env, n);
      case SRecord(_) => TraceRecord(e, env, n);
      case STuple(_) => TraceList(e, env, n);
      case SList(_) => TraceList(e, env, n);
      case SCon(_, _) => TraceList(e, env, n);
      case _ => NotStraight(e, env.Keys);
    }
  }

  lemma NotStraight(e: SExpr, scope: set<string>)
    requires Straight(e, scope)
    ensures e.SLit? || e.SVar? || e.SBraces? || e.SCall? || e.SPipe? || e.SRecord? || e.STuple? || e.SList? || e.SCon?
  {
  }

  lemma TraceLeaf(e: SExpr, env: Env, n: nat)
    requires Straight(e, env.Keys) && Literals(env) && (e.SLit? || e.SVar?)
    ensures var (o, m) := Mean(Tracing(), e, env, n); o.Val? && Remembers(o.v, n, Calls(e), m)
  {
  }

  lemma {:induction false} TraceBraces(b: SBlock, env: Env, n: nat)
    requires Straight(SBraces(b), env.Keys) && Literals(env)
    ensures var (o, m) := Mean(Tracing(), SBraces(b), env, n); o.Val? && Remembers(o.v, n, Calls(SBraces(b)), m)
    decreases SBraces(b), 0
  {
    TraceMean(b.result, env, n);
    hide Remembers, Tracing, Literals, Straight;
    assert Mean(Tracing(), SBraces(b), env, n) == MeanBlock(Tracing(), b, 0, env, n);
  }

  lemma {:induction false} TraceAll(es: seq<SExpr>, env: Env, n: nat)
    requires Literals(env) && forall i | 0 <= i < |es| :: Straight(es[i], env.Keys)
    ensures var (r, m) := MeanAll(Tracing(), es, env, n); r.Vals? && RememberAll(r.vs, n, CallsAll(es), m)
    decreases es, 0
  {
    hide Mean, Straight, Calls, Tags, Top, Tracing;
    if es != [] {
      TraceMean(es[0], env, n);
      var (o, m) := Mean(Tracing(), es[0], env, n);
      TraceAll(es[1..], env, m);
      TagsCons(o.v, MeanAll(Tracing(), es[1..], env, m).0.vs);
    }
  }

  lemma {:induction false} TraceList(e: SExpr, env: Env, n: nat)
    requires Straight(e, env.Keys) && Literals(env) && (e.STuple? || e.SList? || e.SCon?)
    ensures var (o, m) := Mean(Tracing(), e, env, n); o.Val? && Remembers(o.v, n, Calls(e), m)
    decreases e, 0
  {
    var es := if e.SCon? then e.args else e.items;
    TraceAll(es, env, n);
    ListMeaning(Tracing(), e, es, env, n);
    hide MeanAll, Mean, Literals, Straight, Tracing;
  }

  /** From `n` calls on, the `i`-th field is evaluated after `starts[i]`, and its value is `vs[i]`. */
  ghost predicate RunsOf(fs: seq<SField>, env: Env, n: nat, vs: seq<Value>, starts: seq<nat>) {
    && |starts| == |vs| == |fs|
    && (forall i | 0 <= i < |fs| :: RunAt(fs[i], env, n, vs[i], starts[i]))
    && Spaced(FieldCalls(fs), starts)
  }

  function FieldCalls(fs: seq<SField>): seq<nat> {
    seq(|fs|, i requires 0 <= i < |fs| => Calls(fs[i].value))
  }

  ghost predicate RunAt(f: SField, env: Env, n: nat, v: Value, start: nat) {
    n <= start && Mean(Tracing(), f.value, env, start) == (Val(v), start + Calls(f.value))
  }

  /** Each starts after those before it have made their calls. */
  ghost predicate Spaced(calls: seq<nat>, starts: seq<nat>) {
    |starts| == |calls| && forall i, j | 0 <= i < j < |calls| :: starts[i] + calls[i] <= starts[j]
  }

  lemma {:induction false} TraceFields(fs: seq<SField>, env: Env, n: nat) returns (starts: seq<nat>)
    requires Literals(env) && forall i | 0 <= i < |fs| :: Straight(fs[i].value, env.Keys)
    ensures var (r, m) := MeanFields(Tracing(), fs, env, n);
            r.Vals? && RememberAll(r.vs, n, CallsFields(fs), m) && RunsOf(fs, env, n, r.vs, starts)
    decreases fs, 0
  {
    hide Mean, Straight, Calls, Tags, Top, Tracing;
    if fs == [] {
      starts := [];
    } else {
      TraceMean(fs[0].value, env, n);
      var (o, m) := Mean(Tracing(), fs[0].value, env, n);
      var rest := TraceFields(fs[1..], env, m);
      starts := [n] + rest;
      var vs := MeanFields(Tracing(), fs[1..], env, m).0.vs;
      TagsCons(o.v, vs);
      RunsCons(fs, env, n, o.v, vs, rest);
    }
  }

  lemma RunsCons(fs: seq<SField>, env: Env, n: nat, v: Value, vs: seq<Value>, starts: seq<nat>)
    requires fs != [] && Mean(Tracing(), fs[0].value, env, n) == (Val(v), n + Calls(fs[0].value))
    requires RunsOf(fs[1..], env, n + Calls(fs[0].value), vs, starts)
    ensures RunsOf(fs, env, n, [v] + vs, [n] + starts)
  {
    hide Mean, Calls, Tracing, Spaced;
    var m := n + Calls(fs[0].value);
    forall i | 0 <= i < |fs| ensures RunAt(fs[i], env, n, ([v] + vs)[i], ([n] + starts)[i]) {
      if i > 0 { assert RunAt(fs[1..][i - 1], env, m, vs[i - 1], starts[i - 1]); }
    }
    forall i | 0 <= i < |starts| ensures m <= starts[i] { assert RunAt(fs[1..][i], env, m, vs[i], starts[i]); }
    assert FieldCalls(fs) == [m - n] + FieldCalls(fs[1..]);
    SpacedCons(m - n, FieldCalls(fs[1..]), n, starts);
  }

  lemma SpacedCons(first: nat, calls: seq<nat>, n: nat, starts: seq<nat>)
    requires Spaced(calls, starts) && forall i | 0 <= i < |starts| :: n + first <= starts[i]
    ensures Spaced([first] + calls, [n] + starts)
  {
  }

  function NameValues(fs: seq<SField>, vs: seq<Value>): (named: seq<(string, Value)>)
    requires |fs| == |vs|
    ensures |named| == |fs|
  {
    seq(|fs|, i requires 0 <= i < |fs| => (fs[i].name, vs[i]))
  }

  lemma {:induction false} NamedTags(named: seq<(string, Value)>, vs: seq<Value>)
    requires |named| == |vs| && forall i | 0 <= i < |vs| :: named[i].1 == vs[i]
    ensures TagsNamed(named) == TagsAll(vs) && TopNamed(named) == TopAll(vs)
    decreases |vs|
  {
    if vs != [] { NamedTags(named[1..], vs[1..]); }
  }

  lemma {:induction false} TraceRecord(e: SExpr, env: Env, n: nat)
    requires Straight(e, env.Keys) && Literals(env) && e.SRecord?
    ensures var (o, m) := Mean(Tracing(), e, env, n); o.Val? && Remembers(o.v, n, Calls(e), m)
    decreases e, 0
  {
    var starts := TraceFields(e.fields, env, n);
    hide MeanFields, Literals, Straight, Tracing, RunsOf;
    var (r, m) := MeanFields(Tracing(), e.fields, env, n);
    var named := NameValues(e.fields, r.vs);
    NamedTags(named, r.vs);
    SortedTags(named);
    assert Mean(Tracing(), e, env, n) == (Val(VRec(SortNamed(named))), m);
    hide Mean, SortNamed;
  }

  lemma TracedCall(f: Value, args: seq<Value>, n: nat, a: nat, m: nat, b: nat, k: nat)
    requires Remembers(f, n, a, m) && RememberAll(args, m, b, k)
    ensures Remembers(Traced(f, args, k + 1), n, a + b + 1, k + 1)
  {
    TracedTags(f, args, k + 1);
  }

  lemma CallTraced(f: Value, r: Outcomes, n: nat)
    ensures r.Vals? ==> CallWith(Tracing(), f, r, n) == (Val(Traced(f, r.vs, n + 1)), n + 1)
  {
  }

  lemma {:induction false} TraceCall(e: SExpr, env: Env, n: nat)
    requires Straight(e, env.Keys) && Literals(env) && e.SCall?
    ensures var (o, m) := Mean(Tracing(), e, env, n); o.Val? && Remembers(o.v, n, Calls(e), m)
    decreases e, 0
  {
    hide Unqualified, IsConstructorName, Tracing;
    if NamesConstructor(e.callee) {
      TraceAll(e.args, env, n);
      hide Literals, Straight, MeanAll;
    } else {
      TraceMean(e.callee, env, n);
      var (f, m) := Mean(Tracing(), e.callee, env, n);
      TraceAll(e.args, env, m);
      var (r, k) := MeanAll(Tracing(), e.args, env, m);
      CallTraced(f.v, r, k);
      TracedCall(f.v, r.vs, n, Calls(e.callee), m, CallsAll(e.args), k);
      hide Literals, Straight, MeanAll, Remembers, RememberAll, CallWith;
    }
  }

  function PipeArgs(right: SExpr): seq<SExpr> {
    if right.SCall? || right.SCon? then right.args else []
  }

  function PipeCallee(right: SExpr): SExpr {
    if right.SCall? then right.callee else right
  }

  lemma PipeParts(e: SExpr, scope: set<string>)
    requires e.SPipe?
    ensures var right := e.right;
            Calls(e) == Calls(e.left) + CallsAll(PipeArgs(right)) + if PipeBuilt(right) then 0 else Calls(PipeCallee(right)) + 1
    ensures Straight(e, scope) ==>
              && Straight(e.left, scope) && Straight(PipeCallee(e.right), scope)
              && forall i | 0 <= i < |PipeArgs(e.right)| :: Straight(PipeArgs(e.right)[i], scope)
  {
    hide Unqualified, IsConstructorName;
    if Straight(e, scope) { assert Straight(e.right, scope); }
  }

  lemma {:induction false} TracePipe(e: SExpr, env: Env, n: nat)
    requires Straight(e, env.Keys) && Literals(env) && e.SPipe?
    ensures var (o, m) := Mean(Tracing(), e, env, n); o.Val? && Remembers(o.v, n, Calls(e), m)
    decreases e, 0
  {
    hide *;
    var left, right := e.left, e.right;
    var args := if right.SCall? || right.SCon? then right.args else [];
    PipeParts(e, env.Keys);
    PipeIs(right);
    if PipeBuilt(right) {
      TraceMean(left, env, n);
      var (x, w1) := Mean(Tracing(), left, env, n);
      if args == [] { TraceNone(args, env, w1); } else { TraceAll(args, env, w1); }
      PipeBuildsMeaning(Tracing(), e, args, env, n);
      var (r, w2) := MeanAll(Tracing(), args, env, w1);
      ConsValues(x.v, r, n, Calls(left), w1, CallsAll(args), w2);
      BuiltRemembers(PipeName(right), [x.v] + r.vs, n, Calls(left) + CallsAll(args), w2);
    } else {
      var callee := if right.SCall? then right.callee else right;
      TraceMean(callee, env, n);
      var (f, w1) := Mean(Tracing(), callee, env, n);
      TraceMean(left, env, w1);
      var (x, w2) := Mean(Tracing(), left, env, w1);
      if args == [] { TraceNone(args, env, w2); } else { TraceAll(args, env, w2); }
      PipeCallsMeaning(Tracing(), e, args, callee, env, n);
      var (r, w3) := MeanAll(Tracing(), args, env, w2);
      ConsValues(x.v, r, w1, Calls(left), w2, CallsAll(args), w3);
      CallTraced(f.v, Vals([x.v] + r.vs), w3);
      TracedCall(f.v, [x.v] + r.vs, n, Calls(callee), w1, Calls(left) + CallsAll(args), w3);
    }
  }

  lemma PipeIs(right: SExpr)
    ensures PipeArgs(right) == (if right.SCall? || right.SCon? then right.args else [])
    ensures PipeCallee(right) == if right.SCall? then right.callee else right
  {
  }

  lemma TraceNone(es: seq<SExpr>, env: Env, n: nat)
    requires es == []
    ensures var (r, m) := MeanAll(Tracing(), es, env, n); r.Vals? && RememberAll(r.vs, n, CallsAll(es), m)
  {
  }

  lemma ConsValues(x: Value, r: Outcomes, n: nat, a: nat, m: nat, b: nat, k: nat)
    requires r.Vals? && Remembers(x, n, a, m) && RememberAll(r.vs, m, b, k)
    ensures Surface.Cons(Val(x), r) == Vals([x] + r.vs) && RememberAll([x] + r.vs, n, a + b, k)
  {
    TagsCons(x, r.vs);
  }

  lemma BuiltRemembers(name: string, vs: seq<Value>, n: nat, calls: nat, m: nat)
    requires RememberAll(vs, n, calls, m)
    ensures Remembers(VCon(name, vs), n, calls, m)
  {
  }

  // ---- what the canonical form leaves in its value ----

  predicate Calling(c: CExpr, scope: set<string>) {
    match c
    case Literal(_) => true
    case Var(x) => x in scope
    case Call(callee, args) => Calling(callee, scope) && forall i | 0 <= i < |args| :: Calling(args[i], scope)
    case Constructor(_, args) => forall i | 0 <= i < |args| :: Calling(args[i], scope)
    case RecordLit(fields) => forall i | 0 <= i < |fields| :: Calling(fields[i].value, scope)
    case TupleLit(items) => forall i | 0 <= i < |items| :: Calling(items[i], scope)
    case ListLit(items) => forall i | 0 <= i < |items| :: Calling(items[i], scope)
    case _ => false
  }

  /** Its call nodes. */
  function Steps(c: CExpr): nat {
    match c
    case Call(callee, args) => Steps(callee) + StepsAll(args) + 1
    case Constructor(_, args) => StepsAll(args)
    case RecordLit(fields) => StepsFields(fields)
    case TupleLit(items) => StepsAll(items)
    case ListLit(items) => StepsAll(items)
    case _ => 0
  }

  function StepsAll(cs: seq<CExpr>): nat {
    if cs == [] then 0 else Steps(cs[0]) + StepsAll(cs[1..])
  }

  function StepsFields(fs: seq<RecordField>): nat {
    if fs == [] then 0 else Steps(fs[0].value) + StepsFields(fs[1..])
  }

  lemma {:induction false} EvalTags(c: CExpr, env: Env, n: nat)
    requires Calling(c, env.Keys) && Literals(env)
    ensures var (o, m) := Eval(Tracing(), c, env, n); o.Val? && m == n + Steps(c) && Tags(o.v) == Steps(c)
    decreases c, 1
  {
    if c.Call? {
      EvalTagsCall(c, env, n);
    } else if c.RecordLit? {
      EvalTagsRecord(c, env, n);
    } else {
      hide Tracing;
      match c
      case Constructor(_, args) => EvalTagsAll(args, env, n);
      case TupleLit(items) => EvalTagsAll(items, env, n);
      case ListLit(items) => EvalTagsAll(items, env, n);
      case _ =>
    }
  }

  lemma {:induction false} EvalTagsAll(cs: seq<CExpr>, env: Env, n: nat)
    requires Literals(env) && forall i | 0 <= i < |cs| :: Calling(cs[i], env.Keys)
    ensures var (r, m) := EvalAll(Tracing(), cs, env, n); r.Vals? && m == n + StepsAll(cs) && TagsAll(r.vs) == StepsAll(cs)
    decreases cs, 0
  {
    hide Eval, Calling, Steps, Tags, Tracing;
    if cs != [] {
      EvalTags(cs[0], env, n);
      var (o, m) := Eval(Tracing(), cs[0], env, n);
      EvalTagsAll(cs[1..], env, m);
      TagsCons(o.v, EvalAll(Tracing(), cs[1..], env, m).0.vs);
    }
  }

  lemma {:induction false} EvalTagsCall(c: CExpr, env: Env, n: nat)
    requires Calling(c, env.Keys) && Literals(env) && c.Call?
    ensures var (o, m) := Eval(Tracing(), c, env, n); o.Val? && m == n + Steps(c) && Tags(o.v) == Steps(c)
    decreases c, 0
  {
    EvalTags(c.callee, env, n);
    var (f, m) := Eval(Tracing(), c.callee, env, n);
    EvalTagsAll(c.args, env, m);
    CallEval(Tracing(), c.callee, c.args, env, n);
    hide Eval, EvalAll, Calling, Literals, Tags, Tracing, CallWith;
    var (r, k) := EvalAll(Tracing(), c.args, env, m);
    CallTraced(f.v, r, k);
    TracedTags(f.v, r.vs, k + 1);
  }

  lemma {:induction false} EvalTagsRecord(c: CExpr, env: Env, n: nat)
    requires Calling(c, env.Keys) && Literals(env) && c.RecordLit?
    ensures var (o, m) := Eval(Tracing(), c, env, n); o.Val? && m == n + Steps(c) && Tags(o.v) == Steps(c)
    decreases c, 0
  {
    var starts := EvalRow(c.fields, env, n);
    hide EvalFields, Calling, Literals, Tracing, RowOf;
    var r := EvalFields(Tracing(), c.fields, env, n).0;
    NamedTags(NameFields(c.fields, r.vs), r.vs);
  }

  function FieldSteps(fs: seq<RecordField>): seq<nat> {
    seq(|fs|, i requires 0 <= i < |fs| => Steps(fs[i].value))
  }

  /** As `RunsOf`, for the fields of a canonical record. */
  ghost predicate RowOf(fs: seq<RecordField>, env: Env, n: nat, vs: seq<Value>, starts: seq<nat>) {
    && |starts| == |vs| == |fs|
    && (forall i | 0 <= i < |fs| :: RowAt(fs[i], env, n, vs[i], starts[i]))
    && Spaced(FieldSteps(fs), starts)
  }

  ghost predicate RowAt(f: RecordField, env: Env, n: nat, v: Value, start: nat) {
    n <= start && Eval(Tracing(), f.value, env, start) == (Val(v), start + Steps(f.value))
  }

  lemma {:induction false} EvalRow(fs: seq<RecordField>, env: Env, n: nat) returns (starts: seq<nat>)
    requires Literals(env) && forall i | 0 <= i < |fs| :: Calling(fs[i].value, env.Keys)
    ensures var (r, m) := EvalFields(Tracing(), fs, env, n);
            && r.Vals? && m == n + StepsFields(fs) && TagsAll(r.vs) == StepsFields(fs)
            && RowOf(fs, env, n, r.vs, starts)
    decreases fs, 0
  {
    hide Eval, Calling, Steps, Tags, Tracing;
    if fs == [] {
      starts := [];
    } else {
      EvalTags(fs[0].value, env, n);
      var (o, m) := Eval(Tracing(), fs[0].value, env, n);
      var rest := EvalRow(fs[1..], env, m);
      starts := [n] + rest;
      var vs := EvalFields(Tracing(), fs[1..], env, m).0.vs;
      TagsCons(o.v, vs);
      RowCons(fs, env, n, o.v, vs, rest);
    }
  }

  lemma RowCons(fs: seq<RecordField>, env: Env, n: nat, v: Value, vs: seq<Value>, starts: seq<nat>)
    requires fs != [] && Eval(Tracing(), fs[0].value, env, n) == (Val(v), n + Steps(fs[0].value))
    requires RowOf(fs[1..], env, n + Steps(fs[0].value), vs, starts)
    ensures RowOf(fs, env, n, [v] + vs, [n] + starts)
  {
    hide Eval, Steps, Tracing, Spaced;
    var m := n + Steps(fs[0].value);
    forall i | 0 <= i < |fs| ensures RowAt(fs[i], env, n, ([v] + vs)[i], ([n] + starts)[i]) {
      if i > 0 { assert RowAt(fs[1..][i - 1], env, m, vs[i - 1], starts[i - 1]); }
    }
    forall i | 0 <= i < |starts| ensures m <= starts[i] { assert RowAt(fs[1..][i], env, m, vs[i], starts[i]); }
    assert FieldSteps(fs) == [m - n] + FieldSteps(fs[1..]);
    SpacedCons(m - n, FieldSteps(fs[1..]), n, starts);
  }

  // ---- pipes and calls ----

  /** Every pipe in it is as written. */
  predicate Piped(e: SExpr) {
    match e
    case SBraces(block) => Piped(block.result)
    case SCall(callee, args) => Piped(callee) && forall i | 0 <= i < |args| :: Piped(args[i])
    case SPipe(left, right) => Piped(left) && Piped(right) && PipesAsWritten(right)
    case SRecord(fields) => forall i | 0 <= i < |fields| :: Piped(fields[i].value)
    case STuple(items) => forall i | 0 <= i < |items| :: Piped(items[i])
    case SList(items) => forall i | 0 <= i < |items| :: Piped(items[i])
    case SCon(_, args) => forall i | 0 <= i < |args| :: Piped(args[i])
    case _ => true
  }

  /** The canonical form makes no more calls, and fewer when a pipe is not as written. */
  ghost predicate Keeps(e: SExpr, scope: set<string>) {
    Calling(Canon(e), scope) && Steps(Canon(e)) <= Calls(e) && (!Piped(e) ==> Steps(Canon(e)) < Calls(e))
  }

  lemma {:induction false} CanonKeeps(e: SExpr, scope: set<string>)
    requires Straight(e, scope)
    ensures Keeps(e, scope)
    decreases e, 1
  {
    hide *;
    match e {
      case SLit(_) => LeafKeeps(e, scope);
      case SVar(_) => LeafKeeps(e, scope);
      case SBraces(block) => BracesKeep(block, scope);
      case SCall(_, _) => CallKeeps(e, scope);
      case SPipe(_, _) => PipeKeeps(e, scope);
      case SRecord(_) => RecordKeeps(e, scope);
      case STuple(_) => ListKeeps(e, scope);
      case SList(_) => ListKeeps(e, scope);
      case SCon(_, _) => ListKeeps(e, scope);
      case _ => NotStraight(e, scope);
    }
  }

  lemma LeafKeeps(e: SExpr, scope: set<string>)
    requires Straight(e, scope) && (e.SLit? || e.SVar?)
    ensures Keeps(e, scope)
  {
  }

  lemma {:induction false} BracesKeep(b: SBlock, scope: set<string>)
    requires Straight(SBraces(b), scope)
    ensures Keeps(SBraces(b), scope)
    decreases SBraces(b), 0
  {
    CanonKeeps(b.result, scope);
    BracesForm(b);
    hide Canon, Steps, Calling;
  }

  lemma {:induction false} AllKeep(es: seq<SExpr>, scope: set<string>)
    requires forall i | 0 <= i < |es| :: Straight(es[i], scope)
    ensures var cs := CanonAll(es);
            && (forall i | 0 <= i < |cs| :: Calling(cs[i], scope)) && StepsAll(cs) <= CallsAll(es)
            && ((exists i | 0 <= i < |es| :: !Piped(es[i])) ==> StepsAll(cs) < CallsAll(es))
    decreases es, 0
  {
    hide Canon, Steps, Calling, Calls, Piped, Straight;
    if es != [] {
      CanonKeeps(es[0], scope);
      AllKeep(es[1..], scope);
      assert CanonAll(es)[1..] == CanonAll(es[1..]);
      if i :| 0 <= i < |es| && !Piped(es[i]) {
        if i > 0 { assert es[1..][i - 1] == es[i]; }
      }
    }
  }

  lemma {:induction false} ListKeeps(e: SExpr, scope: set<string>)
    requires Straight(e, scope) && (e.STuple? || e.SList? || e.SCon?)
    ensures Keeps(e, scope)
    decreases e, 0
  {
    var es := if e.SCon? then e.args else e.items;
    AllKeep(es, scope);
    assert Canon(e) == (if e.STuple? then TupleLit(CanonAll(es)) else if e.SList? then ListLit(CanonAll(es))
                        else Constructor(e.name, CanonAll(es)));
    hide Canon, Straight;
  }

  lemma {:induction false} CallKeeps(e: SExpr, scope: set<string>)
    requires Straight(e, scope) && e.SCall?
    ensures Keeps(e, scope)
    decreases e, 0
  {
    hide Unqualified, IsConstructorName;
    AllKeep(e.args, scope);
    CanonKeeps(e.callee, scope);
    assert Canon(e) == if NamesConstructor(e.callee) then Constructor(Unqualified(e.callee.name), CanonAll(e.args))
                       else Call(Canon(e.callee), CanonAll(e.args));
    hide Canon, Straight;
  }

  lemma {:induction false} PipeKeeps(e: SExpr, scope: set<string>)
    requires Straight(e, scope) && e.SPipe?
    ensures Keeps(e, scope)
    decreases e, 0
  {
    hide *;
    PipeParts(e, scope);
    StraightRight(e, scope);
    CanonKeeps(e.left, scope);
    if PipesAsWritten(e.right) {
      PipeIs(e.right);
      var args := if e.right.SCall? || e.right.SCon? then e.right.args else [];
      if args == [] { NoneKeep(args, scope); } else { AllKeep(args, scope); }
      CanonKeeps(if e.right.SCall? then e.right.callee else e.right, scope);
      PipeForm(e, args, CanonAll(args));
      WrittenKeeps(e, args, scope);
    } else {
      CanonKeeps(e.right, scope);
      PipeMerges(e.left, e.right);
      MergedKeeps(e, scope);
    }
  }

  lemma StraightRight(e: SExpr, scope: set<string>)
    requires Straight(e, scope) && e.SPipe?
    ensures Straight(e.right, scope)
  {
  }

  lemma NoneKeep(es: seq<SExpr>, scope: set<string>)
    requires es == []
    ensures var cs := CanonAll(es);
            && (forall i | 0 <= i < |cs| :: Calling(cs[i], scope)) && StepsAll(cs) <= CallsAll(es)
            && ((exists i | 0 <= i < |es| :: !Piped(es[i])) ==> StepsAll(cs) < CallsAll(es))
  {
  }

  lemma StepsCons(c: CExpr, cs: seq<CExpr>)
    ensures StepsAll([c] + cs) == Steps(c) + StepsAll(cs)
  {
    assert ([c] + cs)[1..] == cs;
  }

  lemma CallingCons(c: CExpr, cs: seq<CExpr>, scope: set<string>)
    requires Calling(c, scope) && forall i | 0 <= i < |cs| :: Calling(cs[i], scope)
    ensures forall i | 0 <= i <= |cs| :: Calling(([c] + cs)[i], scope)
  {
    hide Calling;
  }

  lemma PipedRight(right: SExpr)
    ensures Piped(right) <==> Piped(PipeCallee(right)) && forall i | 0 <= i < |PipeArgs(right)| :: Piped(PipeArgs(right)[i])
  {
    if right.SCall? || right.SCon? {
      var args := right.args;
      assert PipeArgs(right) == args;
      assert Piped(right) ==> forall i | 0 <= i < |args| :: Piped(args[i]);
    }
  }

  lemma WrittenKeeps(e: SExpr, args: seq<SExpr>, scope: set<string>)
    requires e.SPipe? && PipesAsWritten(e.right) && args == PipeArgs(e.right)
    requires Calls(e) == Calls(e.left) + CallsAll(args) + if PipeBuilt(e.right) then 0 else Calls(PipeCallee(e.right)) + 1
    requires Keeps(e.left, scope) && Keeps(PipeCallee(e.right), scope)
    requires var cs := CanonAll(args);
             && (forall i | 0 <= i < |cs| :: Calling(cs[i], scope)) && StepsAll(cs) <= CallsAll(args)
             && ((exists i | 0 <= i < |args| :: !Piped(args[i])) ==> StepsAll(cs) < CallsAll(args))
    requires Canon(e) == if PipeBuilt(e.right) then Constructor(PipeName(e.right), [Canon(e.left)] + CanonAll(args))
                         else Call(Canon(PipeCallee(e.right)), [Canon(e.left)] + CanonAll(args))
    ensures Keeps(e, scope)
  {
    StepsCons(Canon(e.left), CanonAll(args));
    CallingCons(Canon(e.left), CanonAll(args), scope);
    PipedRight(e.right);
    assert Piped(e) <==> Piped(e.left) && Piped(e.right);
    if PipeBuilt(e.right) { BuiltPiped(e.right); }
    hide Canon, Calls, Piped, PipesAsWritten, PipeName, PipeBuilt, PipeArgs, PipeCallee;
  }

  lemma BuiltPiped(right: SExpr)
    requires PipeBuilt(right)
    ensures Piped(PipeCallee(right)) || (right.SCon? && PipeCallee(right) == right)
    ensures right.SCon? ==> (Piped(right) <==> forall i | 0 <= i < |PipeArgs(right)| :: Piped(PipeArgs(right)[i]))
  {
    if right.SCon? {
      var args := right.args;
      assert PipeArgs(right) == args;
      assert Piped(right) <==> forall i | 0 <= i < |args| :: Piped(args[i]);
    }
  }

  lemma MergedKeeps(e: SExpr, scope: set<string>)
    requires e.SPipe? && !PipesAsWritten(e.right) && (e.right.SPipe? || e.right.SBraces?)
    requires Keeps(e.left, scope) && Keeps(e.right, scope)
    requires var merged := Canon(e.right);
             if merged.Call? then Canon(e) == Call(merged.callee, [Canon(e.left)] + merged.args)
             else merged.Constructor? && Canon(e) == Constructor(merged.name, [Canon(e.left)] + merged.args)
    ensures Keeps(e, scope)
  {
    StepsCons(Canon(e.left), Canon(e.right).args);
    CallingCons(Canon(e.left), Canon(e.right).args, scope);
    assert Calls(e) == Calls(e.left) + Calls(e.right) + 1;
    hide Canon, Calls, Piped, PipesAsWritten;
  }

  lemma {:induction false} FieldsKeep(fs: seq<SField>, scope: set<string>)
    requires forall i | 0 <= i < |fs| :: Straight(fs[i].value, scope)
    ensures var named := NamedFields(fs);
            && (forall i | 0 <= i < |named| :: Calling(named[i].1, scope)) && SumNamed(Steps, named) <= CallsFields(fs)
            && ((exists i | 0 <= i < |fs| :: !Piped(fs[i].value)) ==> SumNamed(Steps, named) < CallsFields(fs))
    decreases fs, 0
  {
    hide Canon, Steps, Calling, Calls, Piped, Straight;
    if fs != [] {
      CanonKeeps(fs[0].value, scope);
      FieldsKeep(fs[1..], scope);
      assert NamedFields(fs)[1..] == NamedFields(fs[1..]);
      if i :| 0 <= i < |fs| && !Piped(fs[i].value) {
        if i > 0 { assert fs[1..][i - 1] == fs[i]; }
      }
    }
  }

  lemma {:induction false} StepsNamed(named: seq<(string, CExpr)>)
    ensures StepsFields(RecordFields(named)) == SumNamed(Steps, named)
  {
    if named != [] {
      StepsNamed(named[1..]);
      assert RecordFields(named)[1..] == RecordFields(named[1..]);
    }
  }

  lemma {:induction false} RecordKeeps(e: SExpr, scope: set<string>)
    requires Straight(e, scope) && e.SRecord?
    ensures Keeps(e, scope)
    decreases e, 0
  {
    FieldsKeep(e.fields, scope);
    var named := NamedFields(e.fields);
    var sorted := SortNamed(named);
    assert Canon(e) == RecordLit(RecordFields(sorted));
    hide Canon, Straight, SortNamed;
    SortFolds(Steps, named);
    StepsNamed(sorted);
    var calling := c => Calling(c, scope);
    SortedIn(named, calling);
    forall i | 0 <= i < |sorted| ensures Calling(RecordFields(sorted)[i].value, scope) {
      assert RecordFields(sorted)[i].value == sorted[i].1 && calling(sorted[i].1);
    }
  }
}
