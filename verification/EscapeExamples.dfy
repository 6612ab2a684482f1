/** Two functions at the edge of the escape analysis: one in which a record read back out of another one leaves
    unreported, and one that reads a scalar out of a nested tuple, which is sound. */
module EscapeExamples {
  import opened Options
  import Bytecode
  import opened Bodies
  import opened Lowering
  import opened EscapeDomain
  import opened EscapeStep
  import opened EscapePaths
  import opened FrameMachine
  import opened EscapeSoundness
  import opened EscapeOrigins
  import opened EscapeLeaves
  import opened Arena

  // ---- a part that is read back and returned ----

  /** Two nested records; the inner one is read back out of the outer one and returned. */
  function DeepSource(): Bytecode.Function {
    Bytecode.Function("deep", 0, 0,
                      [Bytecode.PushConst(0), Bytecode.MakeRecord(0, 1), Bytecode.MakeRecord(1, 1), Bytecode.GetField(0, 0),
                       Bytecode.Return],
                      [[1], [0]])
  }

  function DeepRead(): Body {
    Body(0, 0, [Produces, Builds(1), Builds(1), Projects(Field(0)), Returns], [NoParts, Named([1]), Named([0]), NoParts, NoParts])
  }

  lemma DeepReadIs()
    ensures Bytecode.Unfused(DeepSource().code) && Lowered(DeepSource()) == DeepRead()
  {
    DeepBehaves();
    DeepLays();
    hide BehaviourOf, LayoutOf;
    assert Lowered(DeepSource()).code == DeepRead().code && Lowered(DeepSource()).layouts == DeepRead().layouts;
  }

  lemma OpsBehave()
    ensures BehaviourOf(Bytecode.PushConst(0)) == BehaviourOf(Bytecode.PushConst(1)) == Produces
    ensures BehaviourOf(Bytecode.MakeRecord(0, 1)) == BehaviourOf(Bytecode.MakeRecord(1, 1)) == BehaviourOf(Bytecode.MakeTuple(1))
            == Builds(1)
    ensures BehaviourOf(Bytecode.MakeTuple(2)) == Builds(2) && BehaviourOf(Bytecode.Return) == Returns
    ensures BehaviourOf(Bytecode.GetField(0, 0)) == Projects(Field(0)) && BehaviourOf(Bytecode.GetElem(0)) == Projects(Element(0))
  {
  }

  lemma DeepBehaves()
    ensures Bytecode.Unfused(DeepSource().code) && |DeepSource().code| == |DeepRead().code|
    ensures forall pc | 0 <= pc < |DeepSource().code| :: BehaviourOf(DeepSource().code[pc]) == DeepRead().code[pc]
  {
    OpsBehave();
    hide BehaviourOf;
  }

  lemma DeepLays()
    ensures |DeepSource().code| == |DeepRead().layouts|
    ensures forall pc | 0 <= pc < |DeepSource().code| ::
              LayoutOf(DeepSource().code[pc], DeepSource().shapes) == DeepRead().layouts[pc]
  {
    hide BehaviourOf;
  }

  function DeepReadRun(): seq<Frame> {
    var inner := [Obj(1, [Plain])];
    var both := inner + [Obj(2, [Ref(0)])];
    [Frame(0, [], [], [], {}),
     Frame(1, [Plain], [], [], {}),
     Frame(2, [Ref(0)], [], inner, {}),
     Frame(3, [Ref(1)], [], both, {}),
     Frame(4, [Ref(0)], [], both, {})]
  }

  lemma {:induction false} DeepReadStraight(p: Path)
    requires IsPath(DeepRead().code, p)
    ensures |p| <= 5 && forall k | 0 <= k < |p| :: p[k] == k
    decreases |p|
  {
    if |p| > 1 {
      PathPrefix(DeepRead().code, p);
      var q := p[..|p| - 1];
      DeepReadStraight(q);
      assert Last(q) == |q| - 1;
    }
  }

  lemma DeepReadActions()
    ensures var f := DeepRead();
            |f.code| == 5
            && ActionAt(f, 0) == Push && ActionAt(f, 1) == Build(1) && ActionAt(f, 2) == Build(1)
            && ActionAt(f, 3) == Drop(1) && ActionAt(f, 4) == Ret
  {
  }

  /** The abstract stack after `n` instructions. */
  function DeepReadStack(n: nat): seq<Slot> {
    if n == 1 then [Other] else if n == 2 then [Agg(1)] else if n == 3 then [Agg(2)]
    else if n == 4 then [Other] else []
  }

  lemma DeepReadAbstractStep(a: Action, n: nat, s: State)
    requires n < 4 && s.stack == DeepReadStack(n)
    requires a == if n == 0 then Push else if n == 3 then Drop(1) else Build(1)
    ensures StepOut(a, n, s).stack == DeepReadStack(n + 1)
  {
    assert n > 0 ==> Rest(s.stack, 1) == [];
  }

  lemma {:induction false} DeepReadState(p: Path)
    requires IsPath(DeepRead().code, p)
    ensures 1 <= |p| <= 5 && Last(p) == |p| - 1 && PathState(DeepRead(), p).stack == DeepReadStack(|p| - 1)
    decreases |p|
  {
    DeepReadStraight(p);
    DeepReadActions();
    hide DeepRead, ActionAt, StepOut;
    if |p| > 1 {
      PathPrefix(DeepRead().code, p);
      var q := p[..|p| - 1];
      DeepReadState(q);
      DeepReadAbstractStep(ActionAt(DeepRead(), |q| - 1), |q| - 1, PathState(DeepRead(), q));
    }
  }

  lemma DeepReadStepLeaks(a: Action, n: nat, s: State)
    requires n < 5 && s.stack == DeepReadStack(n)
    requires a == if n == 0 then Push else if n == 3 then Drop(1) else if n == 4 then Ret else Build(1)
    ensures Leaked(a, s, FrameScope) == {}
  {
    assert if n == 4 then s.stack == [Other] else LeakCount(a, FrameScope) == 0;
    hide *;
    if n == 4 { ReturnLeaksNothing(s); } else { NothingLeaks(a, s); }
  }

  lemma ReturnLeaksNothing(s: State)
    requires s.stack == [Other]
    ensures Leaked(Ret, s, FrameScope) == {}
  {
    assert Popped(s.stack, 1) == [Other] && SitesOf([Other]) == {};
  }

  lemma NothingLeaks(a: Action, s: State)
    requires LeakCount(a, FrameScope) == 0
    ensures Leaked(a, s, FrameScope) == {}
  {
    hide LeakCount;
    assert Popped(s.stack, 0) == [];
  }

  lemma DeepReadLeaksNothing(site: nat)
    ensures !LeakedBy(DeepRead(), FrameScope, site)
  {
    DeepReadActions();
    forall p ensures !LeaksAlong(DeepRead(), FrameScope, p, site) {
      if IsPath(DeepRead().code, p) {
        DeepReadState(p);
        hide DeepRead, ActionAt, PathState, Leaked, DeepReadStack;
        DeepReadStepLeaks(ActionAt(DeepRead(), |p| - 1), |p| - 1, PathState(DeepRead(), p));
      }
    }
  }

  lemma BuildsOne(f: Body, pc: nat, v: Val, heap: seq<Obj>)
    ensures Does(f, Builds(1), FrameScope, Frame(pc, [v], [], heap, {}),
                 Frame(pc + 1, [Ref(|heap|)], [], heap + [Obj(pc, [v])], {}))
  {
    NothingHanded(Builds(1), FrameScope, Frame(pc, [v], [], heap, {}));
    hide Leaving, PartOf, Loose;
    assert Top([v], 1) == [v] && Under([v], 1) == [];
  }

  lemma DeepReadPicks()
    ensures Picked(DeepRead(), 2, Field(0)) == Some(0)
  {
  }

  lemma DeepReadReads()
    ensures var s, t := DeepReadRun()[3], DeepReadRun()[4];
            Does(DeepRead(), Projects(Field(0)), FrameScope, s, t) && !Loose(t.stack[0], t.gone)
  {
    var s, t := DeepReadRun()[3], DeepReadRun()[4];
    assert Top(s.stack, 0) == [];
    assert DeepAll(s.heap, [], |s.heap|) == {};
    assert Under(s.stack, 1) == [];
    DeepReadPicks();
    assert PartOf(DeepRead(), s, s.stack[0], Field(0), Ref(0));
  }

  lemma DeepReadPushes()
    ensures Does(DeepRead(), Produces, FrameScope, DeepReadRun()[0], DeepReadRun()[1])
  {
    var s := DeepReadRun()[0];
    assert Top(s.stack, 0) == [];
    assert DeepAll(s.heap, [], |s.heap|) == {};
  }

  lemma ReturnHands(s: Frame, id: nat)
    requires s.stack == [Ref(id)] && id < |s.heap|
    ensures id in Leaving(Returns, FrameScope, s)
  {
    assert Top(s.stack, 1) == [Ref(id)];
    assert id in Deep(s.heap, id);
  }

  lemma DeepReadEnds()
    ensures |DeepReadRun()| == 5 && DeepReadRun()[4].stack == [Ref(0)] && |DeepReadRun()[4].heap| == 2
  {
  }

  lemma DeepReadReturns()
    ensures 0 in Leaving(Returns, FrameScope, DeepReadRun()[4])
  {
    hide *;
    DeepReadEnds();
    ReturnHands(DeepReadRun()[4], 0);
  }

  lemma DeepReadCode()
    ensures var f := DeepRead();
            |f.code| == 5
            && BehaviourAt(f, 0) == Produces && BehaviourAt(f, 1) == Builds(1) && BehaviourAt(f, 2) == Builds(1)
            && BehaviourAt(f, 3) == Projects(Field(0)) && BehaviourAt(f, 4) == Returns
  {
  }

  lemma DeepReadFrames()
    ensures var run := DeepReadRun();
            |run| == 5 && Start(DeepRead(), run[0]) && (forall k | 0 <= k < 5 :: run[k].pc == k)
            && |run[4].stack| == 1 && |run[4].heap| == 2 && run[4].heap[0].site == 1
  {
  }

  lemma FourSteps(f: Body, policy: Policy, run: seq<Frame>)
    requires f.code != [] && |run| == 5 && Start(f, run[0])
    requires forall k | 0 <= k < 5 :: run[k].pc < |f.code|
    requires Step(f, policy, run[0], run[1]) && Step(f, policy, run[1], run[2])
    requires Step(f, policy, run[2], run[3]) && Step(f, policy, run[3], run[4])
    requires BehaviourAt(f, run[3].pc).Projects? && |run[4].stack| > 0
    requires !Loose(run[4].stack[|run[4].stack| - 1], run[4].gone)
    ensures IsRun(f, policy, run) && !FlatReads(f, run)
  {
    hide Step, Loose;
  }

  lemma DeepReadRuns()
    ensures IsRun(DeepRead(), FrameScope, DeepReadRun())
    ensures !FlatReads(DeepRead(), DeepReadRun())
  {
    var f, run := DeepRead(), DeepReadRun();
    DeepReadCode();
    DeepReadFrames();
    DeepReadPushes();
    BuildsOne(f, 1, Plain, []);
    BuildsOne(f, 2, Ref(0), [Obj(1, [Plain])]);
    assert [] + [Obj(1, [Plain])] == [Obj(1, [Plain])];
    DeepReadReads();
    hide DeepRead, DeepReadRun, BehaviourAt, Does, Loose, Start;
    FourSteps(f, FrameScope, run);
  }

  /** A path that runs straight through the code. */
  lemma DeepReadPath(n: nat)
    requires n < 5
    ensures IsPath(DeepRead().code, [0, 1, 2, 3, 4][..n + 1])
    ensures PathState(DeepRead(), [0, 1, 2, 3, 4][..n + 1]).stack == DeepReadStack(n)
  {
    DeepReadActions();
    var p := [0, 1, 2, 3, 4][..n + 1];
    assert IsPath(DeepRead().code, p);
    DeepReadState(p);
  }

  /** The field read peels the inner record off the outer one. */
  lemma DeepReadPeels()
    ensures Peels(DeepRead(), FrameScope)
  {
    hide *;
    DeepReadActions();
    DeepReadRead();
    DeepReadPath(3);
    DeepReadPath(2);
    DeepReadStacks();
    DeepReadCleared();
    var f := DeepRead();
    var p, p2 := [0, 1, 2, 3, 4][..3 + 1], [0, 1, 2, 3, 4][..2 + 1];
    StraightEnds();
    DeepReadPicks();
    ReadsOne(f, p, 2, 0);
    BuildsOfOne(f, p2, 2, 1);
    PeelsOne(f, FrameScope, p, 2, p2, 1);
  }

  lemma StraightEnds()
    ensures Last([0, 1, 2, 3, 4][..3 + 1]) == 3 && Last([0, 1, 2, 3, 4][..2 + 1]) == 2
  {
  }

  lemma DeepReadRead()
    ensures |DeepRead().code| == 5 && DeepRead().code[3].Projects? && DeepRead().code[3].sel == Field(0)
  {
  }

  lemma DeepReadStacks()
    ensures DeepReadStack(3) == [Agg(2)] && DeepReadStack(2) == [Agg(1)]
  {
  }

  lemma ReadsOne(f: Body, p: Path, site: nat, i: nat)
    requires IsPath(f.code, p) && f.code[Last(p)].Projects? && Last(p) + 1 < |f.code|
    requires PathState(f, p).stack == [Agg(site)] && Picked(f, site, f.code[Last(p)].sel) == Some(i)
    ensures ReadsAlong(f, p, site, i)
  {
    hide PathState, IsPath, Picked;
    assert site in Sites(Agg(site));
  }

  lemma BuildsOfOne(f: Body, p: Path, parent: nat, child: nat)
    requires IsPath(f.code, p) && Last(p) == parent < |f.code| && ActionAt(f, parent) == Build(1)
    requires PathState(f, p).stack == [Agg(child)]
    ensures BuiltFrom(f, p, parent, 0, child)
  {
    hide PathState, IsPath, Abstracts;
    assert Get([Agg(child)], 0) == Agg(child) && child in Sites(Agg(child));
  }

  lemma PeelsOne(f: Body, policy: Policy, p: Path, parent: nat, p2: Path, child: nat)
    requires ReadsAlong(f, p, parent, 0) && BuiltFrom(f, p2, parent, 0, child) && !Escapes(f, policy, child)
    ensures Peels(f, policy)
  {
    hide ReadsAlong, BuiltFrom, Escapes;
    assert MadeFrom(f, parent, 0, child);
  }

  /** The condition is needed: here the run returns the inner record, yet its site is cleared, because a
      field read is tracked as an untracked value. */
  lemma DeepReadEscapesUnreported()
    ensures Bytecode.Unfused(DeepSource().code) && Lowered(DeepSource()) == DeepRead()
    ensures var f, run := DeepRead(), DeepReadRun();
            && Peels(f, FrameScope) && LetsGo(f, FrameScope)
            && IsRun(f, FrameScope, run) && !FlatReads(f, run)
            && (var s := run[|run| - 1];
                0 in Leaving(BehaviourAt(f, s.pc), FrameScope, s) && |s.heap| > 0 && s.heap[0].site == 1)
            && !Escapes(f, FrameScope, 1)
  {
    DeepReadIs();
    DeepReadCode();
    DeepReadFrames();
    DeepReadRuns();
    DeepReadReturns();
    DeepReadCleared();
    DeepReadPeels();
    hide *;
    DeepReadEnds();
    MakeHands(DeepRead(), FrameScope, DeepReadRun(), 0);
    HandsOverExactly(DeepRead(), FrameScope);
  }

  lemma DeepReadCleared()
    ensures !Escapes(DeepRead(), FrameScope, 1)
  {
    hide LeakedBy, Holds;
    forall c ensures !Chain(DeepRead(), FrameScope, c) {
      if |c| > 0 { DeepReadLeaksNothing(c[0]); }
    }
  }

  // ---- a scalar read out of a nested tuple ----

  /** `(1, (2,)).0` */
  function ScalarSource(): Bytecode.Function {
    Bytecode.Function("scalar", 0, 0,
                      [Bytecode.PushConst(0), Bytecode.PushConst(1), Bytecode.MakeTuple(1), Bytecode.MakeTuple(2), Bytecode.GetElem(0),
                       Bytecode.Return],
                      [])
  }

  function ScalarRead(): Body {
    Body(0, 0, [Produces, Produces, Builds(1), Builds(2), Projects(Element(0)), Returns],
         [NoParts, NoParts, Numbered, Numbered, NoParts, NoParts])
  }

  lemma ScalarReadIs()
    ensures Bytecode.Unfused(ScalarSource().code) && Lowered(ScalarSource()) == ScalarRead()
  {
    ScalarBehaves();
    ScalarLays();
    hide BehaviourOf, LayoutOf;
    assert Lowered(ScalarSource()).code == ScalarRead().code && Lowered(ScalarSource()).layouts == ScalarRead().layouts;
  }

  lemma ScalarBehaves()
    ensures Bytecode.Unfused(ScalarSource().code) && |ScalarSource().code| == |ScalarRead().code|
    ensures forall pc | 0 <= pc < |ScalarSource().code| :: BehaviourOf(ScalarSource().code[pc]) == ScalarRead().code[pc]
  {
    OpsBehave();
    hide BehaviourOf;
  }

  lemma ScalarLays()
    ensures |ScalarSource().code| == |ScalarRead().layouts|
    ensures forall pc | 0 <= pc < |ScalarSource().code| ::
              LayoutOf(ScalarSource().code[pc], ScalarSource().shapes) == ScalarRead().layouts[pc]
  {
    hide BehaviourOf;
  }

  lemma ScalarReadActions()
    ensures var f := ScalarRead();
            |f.code| == 6
            && ActionAt(f, 0) == Push && ActionAt(f, 1) == Push && ActionAt(f, 2) == Build(1)
            && ActionAt(f, 3) == Build(2) && ActionAt(f, 4) == Drop(1) && ActionAt(f, 5) == Ret
  {
  }

  lemma {:induction false} ScalarReadStraight(p: Path)
    requires IsPath(ScalarRead().code, p)
    ensures |p| <= 6 && forall k | 0 <= k < |p| :: p[k] == k
    decreases |p|
  {
    if |p| > 1 {
      PathPrefix(ScalarRead().code, p);
      var q := p[..|p| - 1];
      ScalarReadStraight(q);
      assert Last(q) == |q| - 1;
    }
  }

  function ScalarReadStack(n: nat): seq<Slot> {
    if n == 1 then [Other] else if n == 2 then [Other, Other] else if n == 3 then [Other, Agg(2)]
    else if n == 4 then [Agg(3)] else if n == 5 then [Other] else []
  }

  lemma ScalarReadAbstractStep(a: Action, n: nat, s: State)
    requires n < 5 && s.stack == ScalarReadStack(n)
    requires a == if n < 2 then Push else if n == 2 then Build(1) else if n == 3 then Build(2) else Drop(1)
    ensures StepOut(a, n, s).stack == ScalarReadStack(n + 1)
  {
    assert n == 2 ==> Rest(s.stack, 1) == [Other];
    assert n > 2 ==> Rest(s.stack, Operands(a)) == [];
  }

  lemma {:induction false} ScalarReadState(p: Path)
    requires IsPath(ScalarRead().code, p)
    ensures 1 <= |p| <= 6 && Last(p) == |p| - 1 && PathState(ScalarRead(), p).stack == ScalarReadStack(|p| - 1)
    decreases |p|
  {
    ScalarReadStraight(p);
    ScalarReadActions();
    hide ScalarRead, ActionAt, StepOut;
    if |p| > 1 {
      PathPrefix(ScalarRead().code, p);
      var q := p[..|p| - 1];
      ScalarReadState(q);
      ScalarReadAbstractStep(ActionAt(ScalarRead(), |q| - 1), |q| - 1, PathState(ScalarRead(), q));
    }
  }

  /** The read there is selects the first element of the outer tuple. */
  lemma ScalarReadReads(p: Path, parent: nat, i: nat)
    requires ReadsAlong(ScalarRead(), p, parent, i)
    ensures parent == 3 && i == 0
  {
    ScalarReadState(p);
    ScalarReadCode(Last(p));
    hide ScalarRead, PathState, Picked;
    assert Sites(Agg(3)) == {3};
  }

  lemma ScalarReadCode(pc: nat)
    requires pc < |ScalarRead().code| && ScalarRead().code[pc].Projects?
    ensures pc == 4 && Picked(ScalarRead(), 3, ScalarRead().code[pc].sel) == Some(0)
  {
  }

  /** Which holds no aggregate of the function. */
  lemma ScalarReadHolds(child: nat)
    ensures !MadeFrom(ScalarRead(), 3, 0, child)
  {
    hide ScalarRead, BuiltFrom;
    forall p ensures !BuiltFrom(ScalarRead(), p, 3, 0, child) { ScalarReadBuilds(p, child); }
  }

  lemma ScalarReadBuilds(p: Path, child: nat)
    ensures !BuiltFrom(ScalarRead(), p, 3, 0, child)
  {
    ScalarReadActions();
    hide ScalarRead, PathState, Abstracts, ActionAt, IsPath;
    if IsPath(ScalarRead().code, p) {
      ScalarReadState(p);
      assert ScalarReadStack(3) == [Other, Agg(2)] && Get([Other, Agg(2)], 0) == Other && Sites(Other) == {};
    }
    hide ScalarReadStack;
  }

  /** It holds an aggregate at the other place, but peels nothing, so nothing leaves unreported in any of its runs. */
  lemma ScalarReadSound(policy: Policy)
    ensures Bytecode.Unfused(ScalarSource().code) && Lowered(ScalarSource()) == ScalarRead()
    ensures !Peels(ScalarRead(), policy) && !LetsGo(ScalarRead(), policy)
    ensures MadeFrom(ScalarRead(), 3, 1, 2)
  {
    ScalarReadIs();
    ScalarReadActions();
    ScalarReadNests();
    hide ScalarRead, ReadsAlong, MadeFrom, Escapes, LetsGo;
    var f := ScalarRead();
    forall p, parent, i, child | ReadsAlong(f, p, parent, i) ensures !MadeFrom(f, parent, i, child) {
      ScalarReadReads(p, parent, i);
      ScalarReadHolds(child);
    }
    UnpeeledLetsNothingGo(f, policy);
  }

  lemma ScalarReadNests()
    ensures MadeFrom(ScalarRead(), 3, 1, 2)
  {
    var p := [0, 1, 2, 3];
    assert IsPath(ScalarRead().code, p);
    ScalarReadState(p);
    ScalarReadActions();
    hide ScalarRead, PathState, Abstracts, ActionAt, IsPath;
    assert 2 in Sites(Agg(2)) && Get([Other, Agg(2)], 1) == Agg(2);
    assert BuiltFrom(ScalarRead(), p, 3, 1, 2);
  }
}
