/** Record literals are canonicalized with their fields in key order (crates/lex-ast/src/canonicalize.rs:306-315):
    when that keeps the meaning of a record whose fields call, fail or return. */
module RecordOrder {
  import opened Ast
  import opened Meaning
  import opened AstKids
  import opened TransformLaws
  import opened Surface
  import opened Canonicalize
  import opened Utf8

  // ---- sorting ----

  lemma {:induction false} InsertMembers<T>(x: (string, T), sorted: seq<(string, T)>)
    ensures |InsertNamed(x, sorted)| == |sorted| + 1
    ensures multiset(InsertNamed(x, sorted)) == multiset(sorted) + multiset{x}
  {
    if sorted != [] && Less(sorted[0].0, x.0) {
      InsertMembers(x, sorted[1..]);
      assert sorted == [sorted[0]] + sorted[1..];
    }
  }

  lemma {:induction false} SortMembers<T>(xs: seq<(string, T)>)
    ensures |SortNamed(xs)| == |xs| && multiset(SortNamed(xs)) == multiset(xs)
  {
    if xs != [] {
      SortMembers(xs[1..]);
      InsertMembers(xs[0], SortNamed(xs[1..]));
      assert xs == [xs[0]] + xs[1..];
    }
  }

  /** What comes somewhere once sorted came from somewhere. */
  lemma {:induction false} SortedFrom<T>(xs: seq<(string, T)>, i: nat) returns (j: nat)
    requires i < |SortNamed(xs)|
    ensures j < |xs| && SortNamed(xs)[i] == xs[j]
  {
    SortMembers(xs);
    hide SortNamed;
    j := FoundIn(SortNamed(xs), xs, i);
  }

  lemma FoundIn<X>(as0: seq<X>, bs: seq<X>, i: nat) returns (j: nat)
    requires i < |as0| && multiset(as0) == multiset(bs)
    ensures j < |bs| && bs[j] == as0[i]
  {
    assert as0[i] in multiset(bs);
    j :| 0 <= j < |bs| && bs[j] == as0[i];
  }

  lemma SortKeepsMembers<T>(xs: seq<(string, T)>)
    ensures |SortNamed(xs)| == |xs|
    ensures forall x :: x in SortNamed(xs) <==> x in xs
  {
    SortMembers(xs);
    forall x ensures x in SortNamed(xs) <==> x in xs {
      assert x in SortNamed(xs) <==> x in multiset(SortNamed(xs));
    }
  }

  function MapSecond<T, U>(f: T -> U, xs: seq<(string, T)>): seq<(string, U)> {
    seq(|xs|, i requires 0 <= i < |xs| => (xs[i].0, f(xs[i].1)))
  }

  lemma {:induction false} InsertMap<T, U>(f: T -> U, x: (string, T), sorted: seq<(string, T)>)
    ensures InsertNamed((x.0, f(x.1)), MapSecond(f, sorted)) == MapSecond(f, InsertNamed(x, sorted))
  {
    if sorted != [] && Less(sorted[0].0, x.0) {
      InsertMap(f, x, sorted[1..]);
      assert MapSecond(f, sorted)[1..] == MapSecond(f, sorted[1..]);
    }
  }

  /** Sorting by name does not look at what is named. */
  lemma {:induction false} SortMap<T, U>(f: T -> U, xs: seq<(string, T)>)
    ensures SortNamed(MapSecond(f, xs)) == MapSecond(f, SortNamed(xs))
  {
    if xs != [] {
      SortMap(f, xs[1..]);
      assert MapSecond(f, xs)[1..] == MapSecond(f, xs[1..]);
      InsertMap(f, xs[0], SortNamed(xs[1..]));
    }
  }

  ghost predicate InKeyOrder<T>(xs: seq<(string, T)>) {
    forall i, j | 0 <= i < j < |xs| :: !Less(xs[j].0, xs[i].0)
  }

  lemma HeadInOrder<T>(first: (string, T), rest: seq<(string, T)>)
    requires InKeyOrder(rest) && forall t | t in rest :: !Less(t.0, first.0)
    ensures InKeyOrder([first] + rest)
  {
    hide Less;
    var all := [first] + rest;
    forall i, j | 0 <= i < j < |all| ensures !Less(all[j].0, all[i].0) {
      assert all[j] == rest[j - 1];
    }
  }

  lemma {:induction false} InsertInOrder<T>(x: (string, T), sorted: seq<(string, T)>)
    requires InKeyOrder(sorted)
    ensures InKeyOrder(InsertNamed(x, sorted))
    decreases |sorted|
  {
    hide Less;
    if sorted == [] {
    } else if Less(sorted[0].0, x.0) {
      var s, rest := sorted[0], sorted[1..];
      InsertInOrder(x, rest);
      InsertMembers(x, rest);
      forall t | t in InsertNamed(x, rest) ensures !Less(t.0, s.0) {
        assert t in multiset(InsertNamed(x, rest));
        LessTotal(s.0, x.0);
        if t != x {
          assert t in rest;
          var j :| 0 <= j < |rest| && rest[j] == t;
          assert sorted[j + 1] == t;
        }
      }
      HeadInOrder(s, InsertNamed(x, rest));
    } else {
      forall t | t in sorted ensures !Less(t.0, x.0) {
        var j :| 0 <= j < |sorted| && sorted[j] == t;
        NotLess(t.0, sorted[0].0, x.0);
        assert j > 0 ==> !Less(t.0, sorted[0].0);
      }
      HeadInOrder(x, sorted);
    }
  }

  lemma NotLess(a: string, b: string, c: string)
    requires !Less(b, c)
    ensures !Less(a, b) ==> !Less(a, c)
    ensures a == b ==> !Less(a, c)
  {
    hide Less;
    LessTotal(a, b);
    if Less(b, a) && Less(a, c) { LessTransitive(b, a, c); }
  }

  lemma {:induction false} SortInOrder<T>(xs: seq<(string, T)>)
    ensures InKeyOrder(SortNamed(xs))
  {
    if xs != [] {
      SortInOrder(xs[1..]);
      InsertInOrder(xs[0], SortNamed(xs[1..]));
    }
  }

  // ---- fields that may change places ----

  /** No call and no early return, lambdas aside: such an expression's outcome does not depend on the
      world, nor the world on it. */
  predicate Quiet(e: CExpr) {
    e.Lambda? || (!e.Call? && !e.Return? && forall i | 0 <= i < |Kids(e)| :: Quiet(Kids(e)[i]))
  }

  lemma {:induction false} FieldsSettle<W(!new)>(I: Interp<W>, fs: seq<RecordField>, env: Env) returns (r: Outcomes)
    requires forall i | 0 <= i < |fs| :: CanSettle(I, fs[i].value, env)
    ensures forall w: W :: EvalFields(I, fs, env, w) == (r, w)
    ensures if r.Stop? then r.o.Fail? else |r.vs| == |fs|
    decreases |fs|
  {
    hide Eval;
    if fs == [] {
      r := Vals([]);
    } else {
      assert CanSettle(I, fs[0].value, env);
      var o :| Settles(I, fs[0].value, env, o);
      var rest := FieldsSettle(I, fs[1..], env);
      r := if !o.Val? then Stop(o) else if rest.Stop? then rest else Vals([o.v] + rest.vs);
      forall w: W ensures EvalFields(I, fs, env, w) == (r, w) {
        assert Eval(I, fs[0].value, env, w) == (o, w);
      }
    }
  }

  lemma {:induction false} QuietSettles<W(!new)>(I: Interp<W>, e: CExpr, env: Env) returns (o: Outcome)
    requires Quiet(e)
    ensures Settles(I, e, env, o)
    decreases e, 1
  {
    if e.Constructor? || e.RecordLit? || e.TupleLit? || e.ListLit? || e.Block? {
      o := QuietListSettles(I, e, env);
    } else {
      match e
      case Literal(lit) => o := Val(VLit(lit));
      case Var(x) => o := Lookup(I, env, x);
      case Lambda(params, _, _, _, body) => o := Val(VFun(I.close(Denote(I, params, body, env))));
      case Let(name, _, bound, body) =>
        assert Kids(e)[0] == bound && Kids(e)[1] == body;
        var b := QuietSettles(I, bound, env);
        o := b;
        if b.Val? { o := QuietSettles(I, body, env[name := b.v]); }
        forall w: W ensures Eval(I, e, env, w) == (o, w) { assert Eval(I, bound, env, w) == (b, w); }
      case Match(scrutinee, arms) =>
        assert Kids(e)[0] == scrutinee;
        var s := QuietSettles(I, scrutinee, env);
        o := if s.Val? then Fail else s;
        if s.Val? {
          var pick := Pick(I, arms, s.v);
          if pick.Some? {
            assert Kids(e)[pick.value.0 + 1] == arms[pick.value.0].body;
            o := QuietSettles(I, arms[pick.value.0].body, env + pick.value.1);
          }
        }
        forall w: W ensures Eval(I, e, env, w) == (o, w) { assert Eval(I, scrutinee, env, w) == (s, w); }
      case FieldAccess(record, field) =>
        assert Kids(e)[0] == record;
        var r := QuietSettles(I, record, env);
        o := if !r.Val? then r else if r.v.VRec? then FromOption(FieldOf(r.v.fields, field)) else Fail;
      case BinOp(op, lhs, rhs) =>
        assert Kids(e)[0] == lhs && Kids(e)[1] == rhs;
        var a := QuietSettles(I, lhs, env);
        var b := QuietSettles(I, rhs, env);
        o := if !a.Val? then a else if !b.Val? then b else FromOption(I.binop(op, a.v, b.v));
        forall w: W ensures Eval(I, e, env, w) == (o, w) {
          assert Eval(I, lhs, env, w) == (a, w) && Eval(I, rhs, env, w) == (b, w);
        }
      case UnaryOp(op, operand) =>
        assert Kids(e)[0] == operand;
        var a := QuietSettles(I, operand, env);
        o := if !a.Val? then a else FromOption(I.unop(op, a.v));
    }
  }

  lemma {:induction false} QuietListSettles<W(!new)>(I: Interp<W>, e: CExpr, env: Env) returns (o: Outcome)
    requires Quiet(e) && (e.Constructor? || e.RecordLit? || e.TupleLit? || e.ListLit? || e.Block?)
    ensures Settles(I, e, env, o)
    decreases e, 0
  {
    forall i | 0 <= i < |Kids(e)| ensures CanSettle(I, Kids(e)[i], env) {
      var p := QuietSettles(I, Kids(e)[i], env);
    }
    var kids := Kids(e);
    assert forall i | 0 <= i < |kids| :: CanSettle(I, kids[i], env);
    match e
    case RecordLit(fields) =>
      forall i | 0 <= i < |fields| ensures CanSettle(I, fields[i].value, env) { assert kids[i] == fields[i].value; }
      var r := FieldsSettle(I, fields, env);
      o := if r.Stop? then r.o else Val(VRec(NameFields(fields, r.vs)));
    case Block(statements, result) =>
      forall i | 0 <= i < |statements| ensures CanSettle(I, statements[i], env) { assert kids[i] == statements[i]; }
      var r := ListSettles(I, statements, env);
      assert kids[|statements|] == result;
      assert CanSettle(I, result, env);
      var last :| Settles(I, result, env, last);
      o := if r.Stop? then r.o else last;
      forall w: W ensures Eval(I, e, env, w) == (o, w) {
        assert EvalAll(I, statements, env, w) == (r, w) && Eval(I, result, env, w) == (last, w);
      }
    case Constructor(name, args) =>
      assert kids == args;
      var r := ListSettles(I, args, env);
      o := if r.Stop? then r.o else Val(VCon(name, r.vs));
    case TupleLit(items) =>
      assert kids == items;
      var r := ListSettles(I, items, env);
      o := if r.Stop? then r.o else Val(VTup(r.vs));
    case ListLit(items) =>
      assert kids == items;
      var r := ListSettles(I, items, env);
      o := if r.Stop? then r.o else Val(VList(r.vs));
  }

  /** The names that can be looked up. */
  ghost function Scope<W>(I: Interp<W>, env: Env): set<string> {
    env.Keys + I.globals.Keys
  }

  /** It has a value in every world: literals, lambdas and names in scope, and what is built from them. */
  predicate Total(e: CExpr, scope: set<string>) {
    match e
    case Literal(_) | Lambda(_, _, _, _, _) => true
    case Var(x) => x in scope
    case Let(name, _, bound, body) => Total(bound, scope) && Total(body, scope + {name})
    case Constructor(_, args) => forall i | 0 <= i < |args| :: Total(args[i], scope)
    case RecordLit(fields) => forall i | 0 <= i < |fields| :: Total(fields[i].value, scope)
    case TupleLit(items) => forall i | 0 <= i < |items| :: Total(items[i], scope)
    case ListLit(items) => forall i | 0 <= i < |items| :: Total(items[i], scope)
    case _ => false
  }

  lemma {:induction false} TotalQuiet(e: CExpr, scope: set<string>)
    requires Total(e, scope)
    ensures Quiet(e)
    decreases e
  {
    match e
    case Let(name, _, bound, body) =>
      TotalQuiet(bound, scope);
      TotalQuiet(body, scope + {name});
    case Constructor(_, args) => forall i | 0 <= i < |args| { TotalQuiet(args[i], scope); }
    case RecordLit(fields) => forall i | 0 <= i < |fields| { TotalQuiet(fields[i].value, scope); }
    case TupleLit(items) => forall i | 0 <= i < |items| { TotalQuiet(items[i], scope); }
    case ListLit(items) => forall i | 0 <= i < |items| { TotalQuiet(items[i], scope); }
    case _ =>
  }

  lemma {:induction false} TotalHasValue<W>(I: Interp<W>, e: CExpr, env: Env, w: W)
    requires Total(e, Scope(I, env))
    ensures Eval(I, e, env, w).0.Val?
    decreases e, 1
  {
    match e
    case Let(name, _, bound, body) =>
      TotalHasValue(I, bound, env, w);
      var (b, w1) := Eval(I, bound, env, w);
      assert Scope(I, env[name := b.v]) == Scope(I, env) + {name};
      TotalHasValue(I, body, env[name := b.v], w1);
    case Constructor(_, args) => TotalsHaveValues(I, args, env, w);
    case RecordLit(fields) => TotalFieldsHaveValues(I, fields, env, w);
    case TupleLit(items) => TotalsHaveValues(I, items, env, w);
    case ListLit(items) => TotalsHaveValues(I, items, env, w);
    case _ =>
  }

  lemma {:induction false} TotalsHaveValues<W>(I: Interp<W>, es: seq<CExpr>, env: Env, w: W)
    requires forall i | 0 <= i < |es| :: Total(es[i], Scope(I, env))
    ensures EvalAll(I, es, env, w).0.Vals?
    decreases es, 0
  {
    if es != [] {
      TotalHasValue(I, es[0], env, w);
      TotalsHaveValues(I, es[1..], env, Eval(I, es[0], env, w).1);
    }
  }

  lemma {:induction false} TotalFieldsHaveValues<W>(I: Interp<W>, fs: seq<RecordField>, env: Env, w: W)
    requires forall i | 0 <= i < |fs| :: Total(fs[i].value, Scope(I, env))
    ensures EvalFields(I, fs, env, w).0.Vals?
    decreases fs, 0
  {
    if fs != [] {
      TotalHasValue(I, fs[0].value, env, w);
      TotalFieldsHaveValues(I, fs[1..], env, Eval(I, fs[0].value, env, w).1);
    }
  }

  lemma TotalSettles<W(!new)>(I: Interp<W>, e: CExpr, env: Env, w: W) returns (o: Outcome)
    requires Total(e, Scope(I, env))
    ensures Settles(I, e, env, o) && o.Val?
  {
    hide Total, Quiet, Eval;
    TotalQuiet(e, Scope(I, env));
    o := QuietSettles(I, e, env);
    TotalHasValue(I, e, env, w);
    assert Eval(I, e, env, w) == (o, w);
  }

  /** Neither can tell which of the two was evaluated first: neither touches the world or returns, or one
      of them always has the same value. */
  predicate Commute(a: CExpr, b: CExpr, scope: set<string>) {
    (Quiet(a) && Quiet(b)) || Total(a, scope) || Total(b, scope)
  }

  /** Every two fields that sorting makes change places commute. */
  predicate Sortable(named: seq<(string, CExpr)>, scope: set<string>) {
    forall i, j | 0 <= i < j < |named| && Less(named[j].0, named[i].0) :: Commute(named[i].1, named[j].1, scope)
  }

  // ---- fields in a row ----

  datatype NamedOutcomes = All(vs: seq<(string, Value)>) | Halt(o: Outcome)

  function Push(v: (string, Value), rest: NamedOutcomes): NamedOutcomes {
    if rest.Halt? then rest else All([v] + rest.vs)
  }

  function RunNamed<W>(I: Interp<W>, xs: seq<(string, CExpr)>, env: Env, w: W): (r: (NamedOutcomes, W))
    ensures r.0.All? ==> |r.0.vs| == |xs| && forall i | 0 <= i < |xs| :: r.0.vs[i].0 == xs[i].0
  {
    if xs == [] then (All([]), w) else
      var (first, w1) := Eval(I, xs[0].1, env, w);
      if !first.Val? then (Halt(first), w1) else
        var (rest, w2) := RunNamed(I, xs[1..], env, w1);
        (Push((xs[0].0, first.v), rest), w2)
  }

  lemma RunCons<W>(I: Interp<W>, x: (string, CExpr), xs: seq<(string, CExpr)>, env: Env, w: W)
    ensures var (first, w1) := Eval(I, x.1, env, w);
            RunNamed(I, [x] + xs, env, w) ==
            if !first.Val? then (Halt(first), w1)
            else (Push((x.0, first.v), RunNamed(I, xs, env, w1).0), RunNamed(I, xs, env, w1).1)
  {
    assert ([x] + xs)[1..] == xs;
  }

  function Swapped(r: NamedOutcomes): NamedOutcomes {
    if r.Halt? || |r.vs| < 2 then r else All([r.vs[1], r.vs[0]] + r.vs[2..])
  }

  lemma {:induction false} SwapPush(x: (string, Value), y: (string, Value), r: NamedOutcomes)
    ensures Swapped(Push(y, Push(x, r))) == Push(x, Push(y, r))
  {
    if r.All? {
      var all := [y] + ([x] + r.vs);
      assert all[2..] == r.vs && all[0] == y && all[1] == x;
      assert [x, y] + r.vs == [x] + ([y] + r.vs);
    }
  }

  lemma {:induction false} SwapPushes(x: string, y: string)
    ensures forall a: Value, b: Value, r: NamedOutcomes :: Swapped(Push((y, b), Push((x, a), r))) == Push((x, a), Push((y, b), r))
    ensures forall o :: Swapped(Halt(o)) == Halt(o)
    ensures forall a: (string, Value), o :: Push(a, Halt(o)) == Halt(o)
  {
    forall a: Value, b: Value, r: NamedOutcomes ensures Swapped(Push((y, b), Push((x, a), r))) == Push((x, a), Push((y, b), r)) {
      SwapPush((x, a), (y, b), r);
    }
  }

  /** Two fields that commute, evaluated the other way round. */
  lemma SwapRun<W(!new)>(I: Interp<W>, x: (string, CExpr), y: (string, CExpr), rest: seq<(string, CExpr)>, env: Env, w: W)
    requires Commute(x.1, y.1, Scope(I, env))
    ensures var (r, w1) := RunNamed(I, [y] + ([x] + rest), env, w);
            RunNamed(I, [x] + ([y] + rest), env, w) == (Swapped(r), w1)
  {
    RunCons(I, x, [y] + rest, env, w);
    RunCons(I, y, [x] + rest, env, w);
    RunCons(I, y, rest, env, Eval(I, x.1, env, w).1);
    RunCons(I, x, rest, env, Eval(I, y.1, env, w).1);
    hide Quiet, Total, Eval, RunNamed;
    SwapPushes(x.0, y.0);
    hide Push, Swapped;
    if Quiet(x.1) && Quiet(y.1) {
      var a := QuietSettles(I, x.1, env);
      var b := QuietSettles(I, y.1, env);
      assert forall v: W :: Eval(I, x.1, env, v) == (a, v) && Eval(I, y.1, env, v) == (b, v);
    } else if Total(x.1, Scope(I, env)) {
      var a := TotalSettles(I, x.1, env, w);
      assert forall v: W :: Eval(I, x.1, env, v) == (a, v);
    } else {
      var b := TotalSettles(I, y.1, env, w);
      assert forall v: W :: Eval(I, y.1, env, v) == (b, v);
    }
  }

  function Placed(r: NamedOutcomes): NamedOutcomes {
    if r.Halt? || r.vs == [] then r else All(InsertNamed(r.vs[0], r.vs[1..]))
  }

  lemma {:induction false} InsertRun<W(!new)>(I: Interp<W>, x: (string, CExpr), sorted: seq<(string, CExpr)>, env: Env, w: W)
    requires forall s | s in sorted && Less(s.0, x.0) :: Commute(x.1, s.1, Scope(I, env))
    ensures var (r, w1) := RunNamed(I, [x] + sorted, env, w);
            RunNamed(I, InsertNamed(x, sorted), env, w) == (Placed(r), w1)
    decreases |sorted|
  {
    hide Eval, Commute;
    RunCons(I, x, sorted, env, w);
    if sorted != [] && Less(sorted[0].0, x.0) {
      var s, rest := sorted[0], sorted[1..];
      assert s in sorted && forall t | t in rest :: t in sorted;
      assert sorted == [s] + rest;
      var w1 := Eval(I, s.1, env, w).1;
      InsertRun(I, x, rest, env, w1);
      RunCons(I, s, InsertNamed(x, rest), env, w);
      RunCons(I, s, [x] + rest, env, w);
      SwapRun(I, x, s, rest, env, w);
      PlacedPast(s.0, x.0, RunNamed(I, [x] + rest, env, w1).0, Eval(I, s.1, env, w).0, rest);
    }
  }

  /** Placing the first value behind a smaller name. */
  lemma PlacedPast(s: string, x: string, r: NamedOutcomes, o: Outcome, rest: seq<(string, CExpr)>)
    requires Less(s, x) && (r.All? ==> r.vs != [] && r.vs[0].0 == x)
    ensures o.Val? ==> Placed(Swapped(Push((s, o.v), r))) == Push((s, o.v), Placed(r))
  {
    if o.Val? && r.All? {
      var both := [(s, o.v)] + r.vs;
      assert both[2..] == r.vs[1..];
      var swapped := [r.vs[0], (s, o.v)] + r.vs[1..];
      assert swapped[1..] == [(s, o.v)] + r.vs[1..] && swapped[1..][1..] == r.vs[1..];
    }
  }

  function SortedOutcomes(r: NamedOutcomes): NamedOutcomes {
    if r.Halt? then r else All(SortNamed(r.vs))
  }

  /** Evaluating sortable fields in key order gives what evaluating them as written does, sorted. */
  lemma {:induction false} SortRun<W(!new)>(I: Interp<W>, xs: seq<(string, CExpr)>, env: Env, w: W)
    requires Sortable(xs, Scope(I, env))
    ensures var (r, w1) := RunNamed(I, xs, env, w);
            RunNamed(I, SortNamed(xs), env, w) == (SortedOutcomes(r), w1)
    decreases |xs|
  {
    hide Eval, Commute;
    if xs != [] {
      var x, rest := xs[0], xs[1..];
      SortRun(I, rest, env, Eval(I, x.1, env, w).1);
      SortKeepsMembers(rest);
      forall s | s in SortNamed(rest) && Less(s.0, x.0) ensures Commute(x.1, s.1, Scope(I, env)) {
        var j :| 0 <= j < |rest| && rest[j] == s;
        assert xs[j + 1] == s;
      }
      assert xs == [x] + rest;
      SortRunCons(I, x, rest, env, w);
    }
  }

  lemma SortRunCons<W(!new)>(I: Interp<W>, x: (string, CExpr), rest: seq<(string, CExpr)>, env: Env, w: W)
    requires forall s | s in SortNamed(rest) && Less(s.0, x.0) :: Commute(x.1, s.1, Scope(I, env))
    requires var (r, w1) := RunNamed(I, rest, env, Eval(I, x.1, env, w).1);
             RunNamed(I, SortNamed(rest), env, Eval(I, x.1, env, w).1) == (SortedOutcomes(r), w1)
    ensures var (r, w1) := RunNamed(I, [x] + rest, env, w);
            RunNamed(I, SortNamed([x] + rest), env, w) == (SortedOutcomes(r), w1)
  {
    hide *;
    SortCons(x, rest);
    InsertRun(I, x, SortNamed(rest), env, w);
    RunCons(I, x, SortNamed(rest), env, w);
    RunCons(I, x, rest, env, w);
    var (o, w1) := Eval(I, x.1, env, w);
    var r := RunNamed(I, rest, env, w1).0;
    SortedHalt(o);
    if o.Val? { PlacedSorted((x.0, o.v), r); }
  }

  lemma SortCons<T>(x: (string, T), rest: seq<(string, T)>)
    ensures SortNamed([x] + rest) == InsertNamed(x, SortNamed(rest))
  {
    assert ([x] + rest)[1..] == rest;
  }

  lemma SortedHalt(o: Outcome)
    ensures SortedOutcomes(Halt(o)) == Halt(o) && Placed(Halt(o)) == Halt(o)
  {
  }

  lemma PlacedSorted(v: (string, Value), r: NamedOutcomes)
    ensures Placed(Push(v, SortedOutcomes(r))) == SortedOutcomes(Push(v, r))
  {
    if r.All? {
      SortCons(v, r.vs);
      assert ([v] + SortNamed(r.vs))[1..] == SortNamed(r.vs);
    }
  }

  lemma {:induction false} FieldsRun<W>(I: Interp<W>, xs: seq<(string, CExpr)>, env: Env, w: W)
    ensures var (r, w1) := EvalFields(I, RecordFields(xs), env, w);
            RunNamed(I, xs, env, w) == (if r.Stop? then Halt(r.o) else All(NameFields(RecordFields(xs), r.vs)), w1)
    decreases |xs|
  {
    hide Eval;
    if xs == [] {
      assert NameFields(RecordFields(xs), []) == [];
    } else {
      var fs := RecordFields(xs);
      assert fs[1..] == RecordFields(xs[1..]) && fs[0].value == xs[0].1;
      var (first, w1) := Eval(I, xs[0].1, env, w);
      FieldsRun(I, xs[1..], env, w1);
      assert xs == [xs[0]] + xs[1..];
      RunCons(I, xs[0], xs[1..], env, w);
      if first.Val? {
        var (r, w2) := EvalFields(I, fs[1..], env, w1);
        NamePushed(xs, first.v, r);
      }
    }
  }

  lemma NamePushed(xs: seq<(string, CExpr)>, v: Value, r: Outcomes)
    requires xs != [] && (r.Vals? ==> |r.vs| + 1 == |xs|)
    ensures r.Vals? ==>
              NameFields(RecordFields(xs), [v] + r.vs) == [(xs[0].0, v)] + NameFields(RecordFields(xs[1..]), r.vs)
  {
  }

  /** A record of sortable fields is the record of their values, evaluated in written order. */
  lemma SortedRecord<W(!new)>(I: Interp<W>, named: seq<(string, CExpr)>, env: Env, w: W)
    requires Sortable(named, Scope(I, env))
    ensures var (r, w1) := EvalFields(I, RecordFields(named), env, w);
            Eval(I, RecordLit(RecordFields(SortNamed(named))), env, w) ==
            (if r.Stop? then r.o else Val(VRec(SortNamed(NameFields(RecordFields(named), r.vs)))), w1)
  {
    hide Sortable, SortNamed, RunNamed, EvalFields;
    SortRun(I, named, env, w);
    FieldsRun(I, named, env, w);
    FieldsRun(I, SortNamed(named), env, w);
    RecordEval(I, RecordFields(SortNamed(named)), env, w);
    hide Eval;
  }

  lemma RecordEval<W>(I: Interp<W>, fields: seq<RecordField>, env: Env, w: W)
    ensures var (r, w1) := EvalFields(I, fields, env, w);
            Eval(I, RecordLit(fields), env, w) == (if r.Stop? then r.o else Val(VRec(NameFields(fields, r.vs))), w1)
  {
  }
}
