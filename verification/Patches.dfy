/** Canonical-AST patches (crates/lex-ast/src/patch.rs), and the agreement of the three ways to follow a
    node id: the walk that mints it, the transforms' navigation, and the patches' descent. */
module Patches {
  import opened Options
  import opened Ast
  import opened NodePaths
  import opened NodeIds
  import opened AstKids
  import Text
  import Transforms

  datatype Patch =
    | Replace(target: string, with: CExpr)
    | Delete(target: string)
    | WrapWith(target: string, wrapper: CExpr)

  datatype PatchError = UnknownNode | NonExprTarget | DeleteNotInList | WrapWithMissingHole | BadNodeId

  datatype Result<+T> = Ok(value: T) | Err(error: PatchError)

  const HOLE := "_HOLE_"

  // ---- the hole ----

  function HolesAmong(e: CExpr, n: nat): nat
    requires n <= |Kids(e)|
    decreases e, 0, n
  {
    if n == 0 then 0 else HolesAmong(e, n - 1) + HoleCount(Kids(e)[n - 1])
  }

  function HoleCount(e: CExpr): nat
    decreases e, 1, 0
  {
    if e == Var(HOLE) then 1 else HolesAmong(e, |Kids(e)|)
  }

  function Filled(e: CExpr, target: CExpr): seq<CExpr>
    decreases e, 0
  {
    seq(|Kids(e)|, i requires 0 <= i < |Kids(e)| => FillHoles(Kids(e)[i], target))
  }

  function FillHoles(e: CExpr, target: CExpr): CExpr
    decreases e, 1
  {
    if e == Var(HOLE) then target else WithKids(e, Filled(e, target))
  }

  // ---- applying a patch ----

  function ApplyHere(e: CExpr, patch: Patch): Result<CExpr> {
    match patch
    case Replace(_, with) => Ok(with)
    case Delete(_) => Err(DeleteNotInList)
    case WrapWith(_, wrapper) =>
      if HoleCount(wrapper) == 1 then Ok(FillHoles(wrapper, e)) else Err(WrapWithMissingHole)
  }

  function ApplyInside(e: CExpr, path: Path, patch: Patch): Result<CExpr>
    decreases |path|, 1
  {
    if path == [] then ApplyHere(e, patch) else Descend(e, path[0], path[1..], patch)
  }

  /** The write back into the child slot a step went through. */
  function PutBack(e: CExpr, i: nat, r: Result<CExpr>): Result<CExpr>
    requires StepExpr(e, i).Some?
  {
    if r.Ok? then Ok(SetChild(e, i, r.value)) else r
  }

  function Remove<T>(xs: seq<T>, i: nat): seq<T>
    requires i < |xs|
  {
    xs[..i] + xs[i + 1..]
  }

  /** One step of descent (patch.rs:132-248). */
  function Descend(e: CExpr, i: nat, rest: Path, patch: Patch): Result<CExpr>
    decreases |rest|, 2
  {
    match e
    case Call(callee, args) =>
      if i == 0 then PutBack(e, i, ApplyInside(callee, rest, patch))
      else if i - 1 < |args| then PutBack(e, i, ApplyInside(args[i - 1], rest, patch)) else Err(UnknownNode)
    case Let(_, _, bound, body) =>
      if i == 0 then PutBack(e, i, ApplyInside(bound, rest, patch))
      else if i == 1 then PutBack(e, i, ApplyInside(body, rest, patch)) else Err(UnknownNode)
    case Match(scrutinee, arms) =>
      if i == 0 then PutBack(e, i, ApplyInside(scrutinee, rest, patch))
      else if (i - 1) / 2 >= |arms| then Err(UnknownNode)
      else if (i - 1) % 2 == 0 then Err(NonExprTarget)
      else PutBack(e, i, ApplyInside(arms[(i - 1) / 2].body, rest, patch))
    case Block(statements, result) =>
      if i < |statements| then
        if rest == [] && patch.Delete? then Ok(Block(Remove(statements, i), result))
        else PutBack(e, i, ApplyInside(statements[i], rest, patch))
      else if i == |statements| then
        if patch.Delete? then Err(DeleteNotInList) else PutBack(e, i, ApplyInside(result, rest, patch))
      else Err(UnknownNode)
    case Constructor(_, args) =>
      if i < |args| then PutBack(e, i, ApplyInside(args[i], rest, patch)) else Err(UnknownNode)
    case RecordLit(fields) =>
      if i < |fields| then PutBack(e, i, ApplyInside(fields[i].value, rest, patch)) else Err(UnknownNode)
    case TupleLit(items) =>
      if i >= |items| then Err(UnknownNode)
      else if rest == [] && patch.Delete? then Ok(TupleLit(Remove(items, i)))
      else PutBack(e, i, ApplyInside(items[i], rest, patch))
    case ListLit(items) =>
      if i >= |items| then Err(UnknownNode)
      else if rest == [] && patch.Delete? then Ok(ListLit(Remove(items, i)))
      else PutBack(e, i, ApplyInside(items[i], rest, patch))
    case FieldAccess(record, _) =>
      if i == 0 then PutBack(e, i, ApplyInside(record, rest, patch)) else Err(UnknownNode)
    case Lambda(_, _, _, _, body) =>
      if i == 0 then PutBack(e, i, ApplyInside(body, rest, patch)) else Err(UnknownNode)
    case BinOp(_, lhs, rhs) =>
      if i == 0 then PutBack(e, i, ApplyInside(lhs, rest, patch))
      else if i == 1 then PutBack(e, i, ApplyInside(rhs, rest, patch)) else Err(UnknownNode)
    case UnaryOp(_, operand) =>
      if i == 0 then PutBack(e, i, ApplyInside(operand, rest, patch)) else Err(UnknownNode)
    case Return(result) =>
      if i == 0 then PutBack(e, i, ApplyInside(result, rest, patch)) else Err(UnknownNode)
    case Literal(_) | Var(_) => Err(UnknownNode)
  }

  function ApplyPatch(stage: Stage, patch: Patch): Result<Stage> {
    var path := ParseNodeId(patch.target);
    if path.None? then Err(BadNodeId)
    else if !stage.FnStage? then Err(NonExprTarget)
    else if path.value == [] then Err(NonExprTarget)
    else
      var r := ApplyInside(stage.fd.body, path.value[1..], patch);
      if r.Ok? then Ok(Transforms.WithBody(stage, r.value)) else Err(r.error)
  }

  // ---- the walk and the navigation agree ----

  lemma StepIsSlot(e: CExpr, i: nat)
    ensures StepExpr(e, i).Some? <==> i < |SlotsOfExpr(e)| && SlotsOfExpr(e)[i].Some? && SlotsOfExpr(e)[i].value.ExprNode?
    ensures StepExpr(e, i).Some? ==> SlotsOfExpr(e)[i].value == ExprNode(StepExpr(e, i).value)
    ensures i < |SlotsOfExpr(e)| ==> SlotsOfExpr(e)[i].Some? && (SlotsOfExpr(e)[i].value.ExprNode? || SlotsOfExpr(e)[i].value.PatternNode?)
  {
    var slots := SlotsOfExpr(e);
    match e
    case Match(scrutinee, arms) => MatchStepIsSlot(e, i);
    case Call(callee, args) => assert i > 0 ==> (i < |slots| <==> i - 1 < |args|);
    case Block(statements, result) => assert |slots| == |statements| + 1;
    case _ =>
  }

  lemma MatchStepIsSlot(e: CExpr, i: nat)
    requires e.Match?
    ensures StepExpr(e, i).Some? <==> i < |SlotsOfExpr(e)| && SlotsOfExpr(e)[i].Some? && SlotsOfExpr(e)[i].value.ExprNode?
    ensures StepExpr(e, i).Some? ==> SlotsOfExpr(e)[i].value == ExprNode(StepExpr(e, i).value)
    ensures i < |SlotsOfExpr(e)| ==> SlotsOfExpr(e)[i].Some? && (SlotsOfExpr(e)[i].value.ExprNode? || SlotsOfExpr(e)[i].value.PatternNode?)
  {
    var slots := SlotsOfExpr(e);
    assert |slots| == 1 + 2 * |e.arms|;
    if 0 < i < |slots| {
      var k := i - 1;
      assert slots[i] == if k % 2 == 0 then Some(PatternNode(e.arms[k / 2].pattern)) else Some(ExprNode(e.arms[k / 2].body));
    }
  }

  /** Below a pattern there are only patterns. */
  lemma {:induction false} PatternsOnly(p: Pattern, path: Path)
    ensures var r := Reach(PatternNode(p), path); r.Some? ==> r.value.PatternNode?
    decreases |path|
  {
    if path != [] && path[0] < |SlotsOfPattern(p)| {
      PatternsOnly(SlotsOfPattern(p)[path[0]].value.p, path[1..]);
    }
  }

  predicate IsExpr(r: Option<Node>) {
    r.Some? && r.value.ExprNode?
  }

  /** Navigation reaches exactly the expressions the walk emits. */
  lemma {:induction false} NavigateIsReach(e: CExpr, path: Path)
    ensures Navigate(e, path).Some? <==> IsExpr(Reach(ExprNode(e), path))
    ensures Navigate(e, path).Some? ==> Reach(ExprNode(e), path) == Some(ExprNode(Navigate(e, path).value))
    decreases |path|
  {
    if path != [] {
      StepIsSlot(e, path[0]);
      hide StepExpr, SlotsOfExpr;
      assert Slots(ExprNode(e)) == SlotsOfExpr(e);
      if StepExpr(e, path[0]).Some? {
        NavigateIsReach(StepExpr(e, path[0]).value, path[1..]);
      } else if path[0] < |SlotsOfExpr(e)| {
        PatternsOnly(SlotsOfExpr(e)[path[0]].value.p, path[1..]);
      }
    }
  }

  /** The transforms accept exactly the ids the walk gives to expressions of the body. */
  lemma BodyPathExact(stage: Stage, p: Path, atRoot: Transforms.TransformError)
    requires stage.FnStage? && forall i | 0 <= i < |p| :: p[i] < Text.USIZE_LIMIT
    ensures var r := Transforms.BodyPath(stage, IdText(p), atRoot);
            && (r.Ok? <==> p != [] && p[0] == |stage.fd.params| + 1 && IsExpr(Reach(StageNode(stage), p)))
            && (r.Ok? ==> r.value == p[1..]
                          && Reach(StageNode(stage), p) == Some(ExprNode(Navigate(stage.fd.body, r.value).value)))
  {
    IdRoundTrip(p);
    hide IdText, ParseNodeId;
    if p != [] && p[0] == |stage.fd.params| + 1 {
      assert Slots(StageNode(stage))[p[0]] == Some(ExprNode(stage.fd.body));
      NavigateIsReach(stage.fd.body, p[1..]);
    }
  }

  // ---- replace and wrap ----

  /** Some step of the path leads to a pattern. */
  predicate HitsPattern(e: CExpr, path: Path)
    decreases |path|
  {
    path != [] && path[0] < |SlotsOfExpr(e)|
    && match SlotsOfExpr(e)[path[0]]
       case Some(PatternNode(_)) => true
       case Some(ExprNode(child)) => HitsPattern(child, path[1..])
       case _ => false
  }

  function EditSpec(e: CExpr, path: Path, patch: Patch): Result<CExpr> {
    if Navigate(e, path).Some? then
      var r := ApplyHere(Navigate(e, path).value, patch);
      if r.Ok? then Ok(ReplaceAt(e, path, r.value)) else r
    else Err(if HitsPattern(e, path) then NonExprTarget else UnknownNode)
  }

  lemma EditSpecStep(e: CExpr, path: Path, patch: Patch)
    requires path != [] && StepExpr(e, path[0]).Some?
    ensures EditSpec(e, path, patch) == PutBack(e, path[0], EditSpec(StepExpr(e, path[0]).value, path[1..], patch))
  {
    StepIsSlot(e, path[0]);
    hide StepExpr, SetChild, SlotsOfExpr, ApplyHere;
  }

  /** A replacement or a wrap edits exactly the node that navigation reaches; a path the walk never
      minted, or minted for a pattern, is refused. */
  lemma {:induction false} EditExact(e: CExpr, path: Path, patch: Patch)
    requires !patch.Delete?
    ensures ApplyInside(e, path, patch) == EditSpec(e, path, patch)
    decreases |path|
  {
    if path != [] {
      var i, rest := path[0], path[1..];
      if StepExpr(e, i).Some? {
        EditExact(StepExpr(e, i).value, rest, patch);
        EditSpecStep(e, path, patch);
        DescendSteps(e, i, rest, patch);
      } else {
        NoStep(e, i, rest, patch);
        StepIsSlot(e, i);
        hide StepExpr, SlotsOfExpr, ApplyHere, Descend;
      }
    }
  }

  lemma DescendSteps(e: CExpr, i: nat, rest: Path, patch: Patch)
    requires StepExpr(e, i).Some?
    ensures Descend(e, i, rest, patch) ==
            if patch.Delete? && rest == [] && Listed(e, i) then Ok(Without(e, i))
            else if patch.Delete? && e.Block? && i == |e.statements| then Err(DeleteNotInList)
            else PutBack(e, i, ApplyInside(StepExpr(e, i).value, rest, patch))
  {
    hide ApplyInside, SetChild;
  }

  lemma NoStep(e: CExpr, i: nat, rest: Path, patch: Patch)
    requires StepExpr(e, i).None?
    ensures Descend(e, i, rest, patch) == Err(if i < |SlotsOfExpr(e)| then NonExprTarget else UnknownNode)
  {
    hide ApplyInside, SetChild;
  }

  /** Replacing under an id the walk gave a body expression: that expression is the new one, and every
      node whose path parts ways with it is as before. */
  lemma ReplacePatch(stage: Stage, q: Path, with: CExpr, other: Path)
    requires stage.FnStage? && forall i | 0 <= i < |q| :: q[i] < Text.USIZE_LIMIT
    requires |stage.fd.params| + 1 < Text.USIZE_LIMIT
    ensures var p := [|stage.fd.params| + 1] + q;
            var r := ApplyPatch(stage, Replace(IdText(p), with));
            && (r.Ok? <==> IsExpr(Reach(StageNode(stage), p)))
            && (r.Ok? ==>
                  && r.value == Transforms.WithBody(stage, r.value.fd.body)
                  && Navigate(r.value.fd.body, q) == Some(with)
                  && (Incomparable(q, other) ==> Navigate(r.value.fd.body, other) == Navigate(stage.fd.body, other)))
            && (r.Err? ==> r.error == if HitsPattern(stage.fd.body, q) then NonExprTarget else UnknownNode)
  {
    var n := |stage.fd.params| + 1;
    var p := [n] + q;
    IdRoundTrip(p);
    hide IdText, ParseNodeId, HitsPattern;
    assert p[1..] == q;
    EditExact(stage.fd.body, q, Replace(IdText(p), with));
    assert Slots(StageNode(stage))[n] == Some(ExprNode(stage.fd.body));
    assert Reach(StageNode(stage), p) == Reach(ExprNode(stage.fd.body), q);
    NavigateIsReach(stage.fd.body, q);
    hide ApplyInside, Reach, Slots;
    if Navigate(stage.fd.body, q).Some? {
      ReplaceThenNavigate(stage.fd.body, q, with);
      if Incomparable(q, other) { ReplaceElsewhere(stage.fd.body, q, with, other); }
    }
  }

  /** The first step of a patch's path is never looked at: an id minted below a parameter's type edits
      the body as well. */
  lemma HeadIgnored(stage: Stage, k: nat, q: Path, with: CExpr)
    requires stage.FnStage? && k < Text.USIZE_LIMIT && forall i | 0 <= i < |q| :: q[i] < Text.USIZE_LIMIT
    ensures var r := ApplyPatch(stage, Replace(IdText([k] + q), with));
            && (r.Ok? <==> Navigate(stage.fd.body, q).Some?)
            && (r.Ok? ==> r.value == Transforms.WithBody(stage, ReplaceAt(stage.fd.body, q, with)))
  {
    var p := [k] + q;
    IdRoundTrip(p);
    assert p[1..] == q;
    EditExact(stage.fd.body, q, Replace(IdText(p), with));
    hide IdText, ParseNodeId, HitsPattern, ApplyInside, Navigate, ReplaceAt;
  }

  /** The transforms do look at it. */
  lemma HeadChecked(stage: Stage, k: nat, q: Path)
    requires stage.FnStage? && k < Text.USIZE_LIMIT && forall i | 0 <= i < |q| :: q[i] < Text.USIZE_LIMIT
    requires k != |stage.fd.params| + 1
    ensures Transforms.BodyPath(stage, IdText([k] + q), Transforms.NotALet) == Transforms.Err(Transforms.UnknownNode)
  {
    IdRoundTrip([k] + q);
    hide IdText, ParseNodeId;
  }

  /** Reading is laxer than printing: a leading zero or plus sign names the same node. */
  lemma LaxIds()
    ensures ParseNodeId("n_0." + "1") == ParseNodeId("n_0." + "01") == ParseNodeId("n_0." + "+1") == Some([1])
    ensures IdText([1]) == "n_0." + "1"
  {
    ReadsDigits();
    hide ParseNodeId, Text.ParseUsize;
    ReadsChild("1");
    ReadsChild("01");
    ReadsChild("+1");
    hide *;
    PrintsOne();
  }

  lemma PrintsOne()
    ensures IdText([1]) == "n_0." + "1"
  {
    assert Text.Show(1) == "1";
    assert Steps([1]) == ["1"];
    assert ["0"] + ["1"] == ["0", "1"] && ["0", "1"][1..] == ["1"];
    assert Text.Join(["0", "1"], '.') == "0" + ['.'] + "1";
  }

  lemma ReadsDigits()
    ensures Text.ParseUsize("1") == Text.ParseUsize("01") == Text.ParseUsize("+1") == Some(1)
  {
    assert "+1"[1..] == "1";
    assert "1"[..0] == "" && "01"[..1] == "0" && "0"[..0] == "";
    assert Text.DigitsValue("0") == 0;
  }

  lemma ReadsChild(digits: string)
    requires '.' !in digits && Text.ParseUsize(digits).Some?
    ensures ParseNodeId("n_0." + digits) == Some([Text.ParseUsize(digits).value])
  {
    var id := "n_0." + digits;
    hide Text.ParseUsize;
    assert id[2..] == "0" + ['.'] + digits;
    Text.SplitFirst("0", '.', digits);
    Text.SplitOne(digits, '.');
    assert id[..2] == "n_";
    assert (["0"] + [digits])[1..] == [digits] && [digits][1..] == [];
    assert ParseSteps([]) == Some([]);
    assert [Text.ParseUsize(digits).value] + [] == [Text.ParseUsize(digits).value];
    assert ParseSteps([digits]) == Some([Text.ParseUsize(digits).value]);
  }

  // ---- the hole of a wrapper ----

  /** The step to the `k`-th expression below. */
  function StepTo(e: CExpr, k: nat): nat {
    if e.Match? then 2 * k else k
  }

  lemma StepToKid(e: CExpr, k: nat, c: CExpr)
    requires k < |Kids(e)|
    ensures StepExpr(e, StepTo(e, k)) == Some(Kids(e)[k])
    ensures SetChild(e, StepTo(e, k), c) == WithKids(e, Kids(e)[k := c])
  {
    var ks := Kids(e)[k := c];
    match e
    case Call(_, args) => assert k > 0 ==> ks[1..] == args[k - 1 := c]; assert k == 0 ==> ks[1..] == args;
    case Match(_, arms) => StepToArm(e, k, c);
    case Block(statements, _) =>
      assert ks[..|statements|] == if k < |statements| then statements[k := c] else statements;
    case RecordLit(fields) => assert WithKids(e, ks).fields == fields[k := RecordField(fields[k].name, c)];
    case _ =>
  }

  lemma StepToArm(e: CExpr, k: nat, c: CExpr)
    requires e.Match? && k < |Kids(e)|
    ensures StepExpr(e, StepTo(e, k)) == Some(Kids(e)[k])
    ensures SetChild(e, StepTo(e, k), c) == WithKids(e, Kids(e)[k := c])
  {
    var arms, ks := e.arms, Kids(e)[k := c];
    if k > 0 {
      assert (2 * k - 1) % 2 == 1 && (2 * k - 1) / 2 == k - 1;
      assert WithKids(e, ks).arms == arms[k - 1 := Arm(arms[k - 1].pattern, c)];
    } else {
      assert WithKids(e, ks).arms == arms;
    }
  }

  lemma {:induction false} NoHoles(e: CExpr, n: nat)
    requires n <= |Kids(e)| && HolesAmong(e, n) == 0
    ensures forall i | 0 <= i < n :: HoleCount(Kids(e)[i]) == 0
    decreases n
  {
    hide Kids, HoleCount;
    if n > 0 { NoHoles(e, n - 1); }
  }

  lemma {:induction false} NothingToFill(e: CExpr, target: CExpr)
    requires HoleCount(e) == 0
    ensures FillHoles(e, target) == e
  {
    var ks := Filled(e, target);
    NoHoles(e, |Kids(e)|);
    forall i | 0 <= i < |ks| ensures ks[i] == Kids(e)[i] {
      NothingToFill(Kids(e)[i], target);
    }
    assert ks == Kids(e);
    WithSameKids(e);
  }

  lemma {:induction false} OneHole(e: CExpr, n: nat) returns (k: nat)
    requires n <= |Kids(e)| && HolesAmong(e, n) == 1
    ensures k < n && HoleCount(Kids(e)[k]) == 1
    ensures forall i | 0 <= i < n && i != k :: HoleCount(Kids(e)[i]) == 0
    decreases n
  {
    hide Kids, HoleCount;
    if HolesAmong(e, n - 1) == 1 {
      k := OneHole(e, n - 1);
    } else {
      NoHoles(e, n - 1);
      k := n - 1;
    }
  }

  lemma OthersUnfilled(e: CExpr, k: nat, target: CExpr)
    requires k < |Kids(e)| && e != Var(HOLE)
    requires forall i | 0 <= i < |Kids(e)| && i != k :: HoleCount(Kids(e)[i]) == 0
    ensures FillHoles(e, target) == WithKids(e, Kids(e)[k := FillHoles(Kids(e)[k], target)])
  {
    hide Kids, WithKids, HoleCount;
    forall i | 0 <= i < |Kids(e)| && i != k ensures FillHoles(Kids(e)[i], target) == Kids(e)[i] {
      NothingToFill(Kids(e)[i], target);
    }
    assert Filled(e, target) == Kids(e)[k := FillHoles(Kids(e)[k], target)];
  }

  /** A wrapper with one hole gets the wrapped expression exactly there, and is otherwise unchanged. */
  lemma {:induction false} WrapFillsTheHole(wrapper: CExpr, target: CExpr) returns (hole: Path)
    requires HoleCount(wrapper) == 1
    ensures Navigate(wrapper, hole) == Some(Var(HOLE))
    ensures FillHoles(wrapper, target) == ReplaceAt(wrapper, hole, target)
  {
    if wrapper == Var(HOLE) {
      hole := [];
    } else {
      assert HolesAmong(wrapper, |Kids(wrapper)|) == 1;
      var k := OneHole(wrapper, |Kids(wrapper)|);
      OthersUnfilled(wrapper, k, target);
      hide *;
      var inner := WrapFillsTheHole(Kids(wrapper)[k], target);
      hole := FillBelow(wrapper, k, inner, FillHoles(Kids(wrapper)[k], target), target);
    }
  }

  lemma FillBelow(e: CExpr, k: nat, inner: Path, filled: CExpr, target: CExpr) returns (path: Path)
    requires k < |Kids(e)| && Navigate(Kids(e)[k], inner).Some? && filled == ReplaceAt(Kids(e)[k], inner, target)
    ensures Navigate(e, path) == Navigate(Kids(e)[k], inner)
    ensures WithKids(e, Kids(e)[k := filled]) == ReplaceAt(e, path, target)
  {
    hide StepExpr, SetChild, WithKids, Kids;
    StepToKid(e, k, filled);
    path := [StepTo(e, k)] + inner;
    assert path[1..] == inner;
  }

  // ---- delete ----

  /** A child that can be removed from a list. */
  predicate Listed(e: CExpr, i: nat) {
    match e
    case Block(statements, _) => i < |statements|
    case TupleLit(items) => i < |items|
    case ListLit(items) => i < |items|
    case _ => false
  }

  function Without(e: CExpr, i: nat): CExpr
    requires Listed(e, i)
  {
    match e
    case Block(statements, result) => Block(Remove(statements, i), result)
    case TupleLit(items) => TupleLit(Remove(items, i))
    case ListLit(items) => ListLit(Remove(items, i))
  }

  /** No step enters the result of a block. */
  predicate AvoidsResults(e: CExpr, path: Path)
    requires Navigate(e, path).Some?
    decreases |path|
  {
    path == [] ||
    (!(e.Block? && path[0] == |e.statements|) && AvoidsResults(StepExpr(e, path[0]).value, path[1..]))
  }

  predicate Deletable(e: CExpr, path: Path) {
    path != []
    && var front := path[..|path| - 1];
       Navigate(e, front).Some? && Listed(Navigate(e, front).value, path[|path| - 1]) && AvoidsResults(e, front)
  }

  lemma DeletableStep(e: CExpr, path: Path)
    requires |path| > 1
    ensures Deletable(e, path) <==>
            StepExpr(e, path[0]).Some? && !(e.Block? && path[0] == |e.statements|)
            && Deletable(StepExpr(e, path[0]).value, path[1..])
    ensures path[..|path| - 1][1..] == path[1..][..|path| - 2]
  {
    hide StepExpr, Listed;
    var front, rest := path[..|path| - 1], path[1..];
    assert front[1..] == rest[..|rest| - 1] && front[0] == path[0];
    assert path[|path| - 1] == rest[|rest| - 1];
  }

  /** A deletion succeeds exactly on an element of a tuple, a list or a block's statements that is not
      inside some block's result, and removes just that element. */
  lemma {:induction false} DeleteExact(e: CExpr, path: Path, target: string)
    ensures var r := ApplyInside(e, path, Delete(target));
            && (r.Ok? <==> Deletable(e, path))
            && (r.Ok? ==> var front := path[..|path| - 1];
                          r.value == ReplaceAt(e, front, Without(Navigate(e, front).value, path[|path| - 1])))
    decreases |path|
  {
    if path != [] {
      var i, rest := path[0], path[1..];
      if StepExpr(e, i).Some? {
        DescendSteps(e, i, rest, Delete(target));
        var child := StepExpr(e, i).value;
        DeleteExact(child, rest, target);
        DeleteStep(e, path, target);
      } else {
        NoStep(e, i, rest, Delete(target));
        NotDeletable(e, path);
      }
    }
  }

  lemma NotDeletable(e: CExpr, path: Path)
    requires path != [] && StepExpr(e, path[0]).None?
    ensures !Deletable(e, path)
  {
    if |path| > 1 { DeletableStep(e, path); }
  }

  lemma DeleteStep(e: CExpr, path: Path, target: string)
    requires path != [] && StepExpr(e, path[0]).Some?
    requires var i, rest, child := path[0], path[1..], StepExpr(e, path[0]).value;
             && Descend(e, i, rest, Delete(target)) ==
                (if rest == [] && Listed(e, i) then Ok(Without(e, i))
                 else if e.Block? && i == |e.statements| then Err(DeleteNotInList)
                 else PutBack(e, i, ApplyInside(child, rest, Delete(target))))
             && (ApplyInside(child, rest, Delete(target)).Ok? <==> Deletable(child, rest))
             && (Deletable(child, rest) ==>
                   var front := rest[..|rest| - 1];
                   ApplyInside(child, rest, Delete(target)).value
                   == ReplaceAt(child, front, Without(Navigate(child, front).value, rest[|rest| - 1])))
    ensures var r := Descend(e, path[0], path[1..], Delete(target));
            && (r.Ok? <==> Deletable(e, path))
            && (r.Ok? ==> var front := path[..|path| - 1];
                          r.value == ReplaceAt(e, front, Without(Navigate(e, front).value, path[|path| - 1])))
  {
    hide Descend, ApplyInside, Without, SetChild;
    if |path| > 1 {
      DeletableStep(e, path);
      hide StepExpr, Listed;
      var front := path[..|path| - 1];
      assert front[0] == path[0];
    } else {
      assert path[..|path| - 1] == [];
    }
  }

  /** Elements under a block's result cannot be deleted, though the walk mints their ids. */
  lemma ResultElementsKept(stage: Stage)
    requires stage.FnStage? && stage.fd.params == []
             && stage.fd.body == Block([], ListLit([Literal(Unit)]))
    ensures Reach(StageNode(stage), [1, 0, 0]) == Some(ExprNode(Literal(Unit)))
    ensures ApplyInside(stage.fd.body, [0, 0], Delete("n_0.1.0.0")) == Err(DeleteNotInList)
  {
    var body := stage.fd.body;
    assert [1, 0, 0][1..] == [0, 0] && [0, 0][1..] == [0] && [0][1..] == [];
    assert Slots(StageNode(stage))[1] == Some(ExprNode(body));
    assert Slots(ExprNode(body))[0] == Some(ExprNode(body.result));
    assert Slots(ExprNode(body.result))[0] == Some(ExprNode(Literal(Unit)));
  }
}
