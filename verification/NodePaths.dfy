/** Node ids, and moving to the expression one names
    (crates/lex-ast/src/ids.rs, crates/lex-ast/src/transforms.rs:665-742). */
module NodePaths {
  import opened Options
  import opened Ast
  import Text

  type Path = seq<nat>

  /** `n_0`, then a dot and a child index for each step. */
  function IdText(p: Path): string {
    "n_" + Text.Join(["0"] + Steps(p), '.')
  }

  function Steps(p: Path): seq<string> {
    seq(|p|, i requires 0 <= i < |p| => Text.Show(p[i]))
  }

  function ParseSteps(parts: seq<string>): Option<Path> {
    if parts == [] then Some([]) else
      var n := Text.ParseUsize(parts[0]);
      var rest := ParseSteps(parts[1..]);
      if n.Some? && rest.Some? then Some([n.value] + rest.value) else None
  }

  function ParseNodeId(id: string): Option<Path> {
    if |id| < 2 || id[..2] != "n_" then None
    else
      var parts := Text.Split(id[2..], '.');
      if parts[0] != "0" then None else ParseSteps(parts[1..])
  }

  lemma {:induction false} ParseStepsBack(p: Path)
    requires forall i | 0 <= i < |p| :: p[i] < Text.USIZE_LIMIT
    ensures ParseSteps(Steps(p)) == Some(p)
  {
    if p != [] {
      StepsCons(p);
      Text.ParseShow(p[0]);
      hide Steps, Text.ParseUsize, Text.Show;
      ParseStepsBack(p[1..]);
      assert p == [p[0]] + p[1..];
    }
  }

  lemma StepsCons(p: Path)
    requires p != []
    ensures Steps(p) == [Text.Show(p[0])] + Steps(p[1..])
    ensures Steps(p)[1..] == Steps(p[1..])
  {
    hide Text.Show;
  }

  /** Every printed id reads back as its path. */
  lemma IdRoundTrip(p: Path)
    requires forall i | 0 <= i < |p| :: p[i] < Text.USIZE_LIMIT
    ensures ParseNodeId(IdText(p)) == Some(p)
  {
    var parts := ["0"] + Steps(p);
    forall i | 0 <= i < |parts| ensures '.' !in parts[i] {
      if i > 0 {
        Text.NoSeparatorInDigits(parts[i], '.');
      }
    }
    Text.SplitJoin(parts, '.');
    assert IdText(p)[2..] == Text.Join(parts, '.');
    assert parts[1..] == Steps(p);
    ParseStepsBack(p);
  }

  /** The pieces of an id's text after the first. */
  function StepTexts(id: string): seq<string> {
    if |id| < 2 then [] else Text.Split(id[2..], '.')[1..]
  }

  /** No step is written with a plus sign or a zero in front. */
  predicate PlainSteps(id: string) {
    AllPlain(StepTexts(id))
  }

  predicate AllPlain(parts: seq<string>) {
    forall i | 0 <= i < |parts| :: '+' !in parts[i] && !(|parts[i]| > 1 && parts[i][0] == '0')
  }

  lemma {:induction false} PlainStepsPrint(parts: seq<string>)
    requires ParseSteps(parts).Some? && AllPlain(parts)
    ensures parts == Steps(ParseSteps(parts).value)
    ensures forall i | 0 <= i < |parts| :: ParseSteps(parts).value[i] < Text.USIZE_LIMIT
    decreases |parts|
  {
    if parts != [] {
      var p := ParseSteps(parts).value;
      PlainStepsPrint(parts[1..]);
      Text.ValueShow(parts[0]);
      assert p == [Text.DigitsValue(parts[0])] + p[1..] && p[1..] == ParseSteps(parts[1..]).value;
      StepsCons(p);
      assert parts == [parts[0]] + parts[1..];
    }
  }

  /** Reading is laxer than printing by exactly the steps that are not plain: an id is read as a path and has
      no step with a plus sign or a leading zero exactly when it is the id printed for that path. */
  lemma PlainIdsExact(id: string, p: Path)
    ensures ParseNodeId(id) == Some(p) && PlainSteps(id)
       <==> id == IdText(p) && forall i | 0 <= i < |p| :: p[i] < Text.USIZE_LIMIT
  {
    if ParseNodeId(id) == Some(p) && PlainSteps(id) {
      PlainIdPrinted(id, p);
    }
    if id == IdText(p) && forall i | 0 <= i < |p| :: p[i] < Text.USIZE_LIMIT {
      IdRoundTrip(p);
      PrintedIsPlain(p);
    }
  }

  lemma PlainIdPrinted(id: string, p: Path)
    requires ParseNodeId(id) == Some(p) && PlainSteps(id)
    ensures id == IdText(p) && forall i | 0 <= i < |p| :: p[i] < Text.USIZE_LIMIT
  {
    hide Text.ParseUsize, Text.Show, Text.Split, Text.Join, Steps, ParseSteps, AllPlain;
    var parts := Text.Split(id[2..], '.');
    assert StepTexts(id) == parts[1..];
    PlainStepsPrint(parts[1..]);
    Text.JoinSplit(id[2..], '.');
    assert parts == ["0"] + parts[1..];
    assert |parts[1..]| == |p| by { StepCount(p); }
    assert id == id[..2] + id[2..];
  }

  lemma StepCount(p: Path)
    ensures |Steps(p)| == |p|
  {
  }

  lemma PrintedIsPlain(p: Path)
    ensures PlainSteps(IdText(p))
  {
    var parts := ["0"] + Steps(p);
    forall i | 0 <= i < |parts| ensures '.' !in parts[i] && '+' !in parts[i] && Text.PlainNumeral(parts[i]) {
      if i > 0 {
        Text.ShowPlain(p[i - 1]);
        Text.NoSeparatorInDigits(parts[i], '.');
        Text.NoSeparatorInDigits(parts[i], '+');
      }
    }
    Text.SplitJoin(parts, '.');
    assert IdText(p)[2..] == Text.Join(parts, '.');
    assert StepTexts(IdText(p)) == parts[1..];
  }

  // ---- one step, and the write it allows ----

  function At<T>(xs: seq<T>, i: int): Option<T> {
    if 0 <= i < |xs| then Some(xs[i]) else None
  }

  /** The `idx`-th child, when it is an expression (transforms.rs:697-742). */
  function StepExpr(e: CExpr, idx: nat): (r: Option<CExpr>)
    ensures r.Some? ==> r.value < e
  {
    match e
    case Call(callee, args) => if idx == 0 then Some(callee) else At(args, idx - 1)
    case Let(_, _, bound, body) => if idx == 0 then Some(bound) else if idx == 1 then Some(body) else None
    case Match(scrutinee, arms) =>
      if idx == 0 then Some(scrutinee)
      else if (idx - 1) % 2 != 1 then None
      else if (idx - 1) / 2 < |arms| then Some(arms[(idx - 1) / 2].body) else None
    case Block(statements, result) =>
      if idx < |statements| then Some(statements[idx])
      else if idx == |statements| then Some(result) else None
    case Constructor(_, args) => At(args, idx)
    case TupleLit(items) => At(items, idx)
    case ListLit(items) => At(items, idx)
    case RecordLit(fields) => if idx < |fields| then Some(fields[idx].value) else None
    case FieldAccess(record, _) => if idx == 0 then Some(record) else None
    case Lambda(_, _, _, _, body) => if idx == 0 then Some(body) else None
    case BinOp(_, lhs, rhs) => if idx == 0 then Some(lhs) else if idx == 1 then Some(rhs) else None
    case UnaryOp(_, operand) => if idx == 0 then Some(operand) else None
    case Return(result) => if idx == 0 then Some(result) else None
    case Literal(_) | Var(_) => None
  }

  /** Overwriting the child a step leads to. */
  function SetChild(e: CExpr, idx: nat, c: CExpr): CExpr
    requires StepExpr(e, idx).Some?
  {
    match e
    case Call(callee, args) => if idx == 0 then Call(c, args) else Call(callee, args[idx - 1 := c])
    case Let(name, ty, bound, body) => if idx == 0 then Let(name, ty, c, body) else Let(name, ty, bound, c)
    case Match(scrutinee, arms) =>
      if idx == 0 then Match(c, arms)
      else Match(scrutinee, arms[(idx - 1) / 2 := Arm(arms[(idx - 1) / 2].pattern, c)])
    case Block(statements, _) =>
      if idx < |statements| then e.(statements := statements[idx := c]) else Block(statements, c)
    case Constructor(name, args) => Constructor(name, args[idx := c])
    case TupleLit(items) => TupleLit(items[idx := c])
    case ListLit(items) => ListLit(items[idx := c])
    case RecordLit(fields) => RecordLit(fields[idx := RecordField(fields[idx].name, c)])
    case FieldAccess(_, field) => FieldAccess(c, field)
    case Lambda(params, returnType, effects, rowVar, _) => Lambda(params, returnType, effects, rowVar, c)
    case BinOp(op, lhs, rhs) => if idx == 0 then BinOp(op, c, rhs) else BinOp(op, lhs, c)
    case UnaryOp(op, _) => UnaryOp(op, c)
    case Return(_) => Return(c)
  }

  function Navigate(e: CExpr, path: Path): Option<CExpr> {
    if path == [] then Some(e) else
      var next := StepExpr(e, path[0]);
      if next.Some? then Navigate(next.value, path[1..]) else None
  }

  function ReplaceAt(e: CExpr, path: Path, c: CExpr): CExpr
    requires Navigate(e, path).Some?
  {
    if path == [] then c
    else SetChild(e, path[0], ReplaceAt(StepExpr(e, path[0]).value, path[1..], c))
  }

  lemma SetThenStep(e: CExpr, idx: nat, c: CExpr, other: nat)
    requires StepExpr(e, idx).Some?
    ensures StepExpr(SetChild(e, idx, c), other) == if other == idx then Some(c) else StepExpr(e, other)
  {
    if e.Match? && other > 0 && idx > 0 && other != idx && (other - 1) % 2 == 1 {
      assert (idx - 1) % 2 == 1 && (idx - 1) / 2 != (other - 1) / 2;
    }
  }

  lemma SetSame(e: CExpr, idx: nat)
    requires StepExpr(e, idx).Some?
    ensures SetChild(e, idx, StepExpr(e, idx).value) == e
  {
    match e
    case Match(_, arms) => assert idx > 0 ==> arms[(idx - 1) / 2 := arms[(idx - 1) / 2]] == arms;
    case RecordLit(fields) => assert fields[idx := fields[idx]] == fields;
    case Call(_, args) => assert idx > 0 ==> args[idx - 1 := args[idx - 1]] == args;
    case Block(statements, _) => assert idx < |statements| ==> statements[idx := statements[idx]] == statements;
    case Constructor(_, args) => assert args[idx := args[idx]] == args;
    case TupleLit(items) => assert items[idx := items[idx]] == items;
    case ListLit(items) => assert items[idx := items[idx]] == items;
    case _ =>
  }

  lemma SetTwice(e: CExpr, idx: nat, c: CExpr, d: CExpr)
    requires StepExpr(e, idx).Some? && StepExpr(SetChild(e, idx, c), idx).Some?
    ensures SetChild(SetChild(e, idx, c), idx, d) == SetChild(e, idx, d)
  {
    match e
    case Match(_, arms) =>
      assert idx > 0 ==> var k := (idx - 1) / 2;
        arms[k := Arm(arms[k].pattern, c)][k := Arm(arms[k].pattern, d)] == arms[k := Arm(arms[k].pattern, d)];
    case _ =>
  }

  /** After a replacement the path leads to the new expression, paths that part ways with it are
      untouched, and putting the old expression back restores the tree. */
  lemma {:induction false} ReplaceThenNavigate(e: CExpr, path: Path, c: CExpr)
    requires Navigate(e, path).Some?
    ensures Navigate(ReplaceAt(e, path, c), path) == Some(c)
    ensures ReplaceAt(ReplaceAt(e, path, c), path, Navigate(e, path).value) == e
    decreases |path|
  {
    if path != [] {
      var child := StepExpr(e, path[0]).value;
      ReplaceThenNavigate(child, path[1..], c);
      var inner := ReplaceAt(child, path[1..], c);
      SetThenStep(e, path[0], inner, path[0]);
      SetTwice(e, path[0], inner, child);
      SetSame(e, path[0]);
    }
  }

  predicate Incomparable(p: Path, q: Path) {
    !(p <= q) && !(q <= p)
  }

  lemma {:induction false} ReplaceElsewhere(e: CExpr, path: Path, c: CExpr, other: Path)
    requires Navigate(e, path).Some? && Incomparable(path, other)
    ensures Navigate(ReplaceAt(e, path, c), other) == Navigate(e, other)
    decreases |path|
  {
    hide StepExpr, SetChild;
    var child := StepExpr(e, path[0]).value;
    var inner := ReplaceAt(child, path[1..], c);
    SetThenStep(e, path[0], inner, other[0]);
    if path[0] == other[0] {
      IncomparableTails(path, other);
      ReplaceElsewhere(child, path[1..], c, other[1..]);
    }
  }

  lemma IncomparableTails(p: Path, q: Path)
    requires p != [] && q != [] && Incomparable(p, q) && p[0] == q[0]
    ensures Incomparable(p[1..], q[1..])
  {
    assert p == [p[0]] + p[1..] && q == [q[0]] + q[1..];
  }
}
