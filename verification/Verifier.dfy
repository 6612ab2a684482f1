/** The stack-depth verifier (crates/lex-bytecode/src/verify.rs). */
module Verifier {
  import opened Options
  import opened Bytecode
  import opened Cfg

  datatype StackError = StackError(fnName: string, pc: nat, depthA: int, depthB: int)

  /** Some path from the entry reaches `pc` with `depth` values on the stack. */
  ghost predicate Arrives(code: Code, pc: nat, depth: int) {
    exists p :: PathTo(code, p, pc) && PathDepth(code, p) == depth
  }

  /** An error is genuine when two paths reach its pc with its two different depths. */
  ghost predicate Genuine(f: Function, e: StackError) {
    e.fnName == f.name && e.depthA != e.depthB
    && Arrives(f.code, e.pc, e.depthA) && Arrives(f.code, e.pc, e.depthB)
  }

  /** The depth is the one recorded for the pc, or the difference has been reported. */
  ghost predicate Settled(f: Function, depths: seq<Option<int>>, errors: seq<StackError>, pc: nat, depth: int)
    requires pc < |depths|
  {
    depths[pc].Some? && (depths[pc].value == depth || StackError(f.name, pc, depths[pc].value, depth) in errors)
  }

  /** Every edge out of the expanded `pc` is either still pending or already accounted for. */
  ghost predicate ClosedAt(f: Function, depths: seq<Option<int>>, work: seq<(int, int)>, errors: seq<StackError>, pc: nat)
    requires |depths| == |f.code| && pc < |f.code| && depths[pc].Some?
  {
    forall s: nat | s in Successors(f.code[pc], pc) && InCode(f.code, s) ::
      (s, depths[pc].value + StackDelta(f.code[pc])) in work
      || Settled(f, depths, errors, s, depths[pc].value + StackDelta(f.code[pc]))
  }

  ghost predicate Closed(f: Function, depths: seq<Option<int>>, work: seq<(int, int)>, errors: seq<StackError>)
    requires |depths| == |f.code|
  {
    && (|f.code| > 0 ==> (0, 0) in work || Settled(f, depths, errors, 0, 0))
    && forall pc: nat | pc < |f.code| && depths[pc].Some? :: ClosedAt(f, depths, work, errors, pc)
  }

  /** The entry with depth 0, or an edge from a recorded pc, leads to `pc` with `depth`. */
  ghost predicate Reason(code: Code, depths: seq<Option<int>>, pc: nat, depth: int)
    requires |depths| == |code|
  {
    (pc == 0 && depth == 0)
    || exists u: nat | u < |code| && depths[u].Some? ::
         pc in Successors(code[u], u) && depths[u].value + StackDelta(code[u]) == depth
  }

  /** Whatever is recorded, pending or reported has a reason; a report is of a depth other than the recorded one. */
  ghost predicate Reasoned(f: Function, depths: seq<Option<int>>, work: seq<(int, int)>, errors: seq<StackError>)
    requires |depths| == |f.code|
  {
    && (forall pc: nat | pc < |f.code| && depths[pc].Some? :: Reason(f.code, depths, pc, depths[pc].value))
    && (forall w | w in work && InCode(f.code, w.0) :: Reason(f.code, depths, w.0, w.1))
    && (forall e | e in errors ::
          e.pc < |f.code| && depths[e.pc] == Some(e.depthA) && e.depthA != e.depthB && Reason(f.code, depths, e.pc, e.depthB))
  }

  /** Everything recorded or pending is realised by a path. */
  ghost predicate Realised(f: Function, depths: seq<Option<int>>, work: seq<(int, int)>, errors: seq<StackError>)
    requires |depths| == |f.code|
  {
    && (forall pc: nat | pc < |f.code| && depths[pc].Some? :: Arrives(f.code, pc, depths[pc].value))
    && (forall w | w in work && InCode(f.code, w.0) :: Arrives(f.code, w.0, w.1))
    && (forall e | e in errors :: Genuine(f, e))
  }

  /** `expanded` lists the visited pcs, each once. */
  ghost predicate Lists(depths: seq<Option<int>>, expanded: seq<nat>) {
    && (forall pc: nat :: pc in expanded <==> pc < |depths| && depths[pc].Some?)
    && (forall i, j | 0 <= i < j < |expanded| :: expanded[i] != expanded[j])
  }

  /** Number of pcs not visited yet. */
  ghost function Unvisited(depths: seq<Option<int>>): nat {
    if depths == [] then 0 else (if depths[0].None? then 1 else 0) + Unvisited(depths[1..])
  }

  lemma {:induction false} VisitShrinks(depths: seq<Option<int>>, pc: nat, d: int)
    requires pc < |depths| && depths[pc].None?
    ensures Unvisited(depths[pc := Some(d)]) < Unvisited(depths)
  {
    if pc > 0 {
      VisitShrinks(depths[1..], pc - 1, d);
      assert depths[pc := Some(d)][1..] == depths[1..][pc - 1 := Some(d)];
    } else {
      assert depths[pc := Some(d)][1..] == depths[1..];
    }
  }

  lemma ArrivesNext(code: Code, pc: nat, depth: int, next: nat)
    requires InCode(code, pc) && Arrives(code, pc, depth) && Edge(code, pc, next)
    ensures Arrives(code, next, depth + StackDelta(code[pc]))
  {
    var p :| PathTo(code, p, pc) && PathDepth(code, p) == depth;
    ExtendPath(code, p, next);
    assert PathTo(code, p + [next], next);
  }

  lemma ArrivesEntry(code: Code)
    requires |code| > 0
    ensures Arrives(code, 0, 0)
  {
    assert PathTo(code, [0], 0) && PathDepth(code, [0]) == 0;
  }

  lemma NoPaths(f: Function)
    requires f.code == []
    ensures Consistent(f.code) && forall pc: nat :: !Reachable(f.code, pc)
  {
  }

  lemma StartHolds(f: Function)
    requires |f.code| > 0
    ensures var depths: seq<Option<int>> := seq(|f.code|, _ => None);
            Lists(depths, []) && Realised(f, depths, [(0, 0)], []) && Closed(f, depths, [(0, 0)], [])
            && Reasoned(f, depths, [(0, 0)], [])
  {
    ArrivesEntry(f.code);
  }

  /** With no pending work, the recorded depth is the depth of every path that meets no error. */
  lemma {:induction false} DepthsExact(f: Function, depths: seq<Option<int>>, errors: seq<StackError>, p: Path)
    requires |depths| == |f.code| > 0 && IsPath(f.code, p)
    requires Closed(f, depths, [], errors)
    ensures depths[Last(p)].Some?
    ensures (forall e | e in errors :: e.pc !in p) ==> depths[Last(p)].value == PathDepth(f.code, p)
    decreases |p|
  {
    hide Successors, StackDelta;
    if |p| > 1 {
      var q := p[..|p| - 1];
      PathPrefix(f.code, p);
      DepthsExact(f, depths, errors, q);
      assert ClosedAt(f, depths, [], errors, Last(q));
      assert Settled(f, depths, errors, Last(p), depths[Last(q)].value + StackDelta(f.code[Last(q)]));
      assert forall pc | pc in q :: pc in p;
      assert Last(p) in p;
    } else {
      assert 0 in p;
    }
  }

  /** The entries pushed for one expanded pc. */
  function Pushed(succs: seq<int>, depth: int): seq<(int, int)> {
    seq(|succs|, k requires 0 <= k < |succs| => (succs[k], depth))
  }

  lemma ExpandKeepsClosed(f: Function, depths: seq<Option<int>>, work: seq<(int, int)>, errors: seq<StackError>,
                          pc: nat, depth: int)
    requires |depths| == |f.code| && pc < |f.code| && depths[pc].None?
    requires Closed(f, depths, work + [(pc, depth)], errors)
    ensures var next := Pushed(Successors(f.code[pc], pc), depth + StackDelta(f.code[pc]));
            Closed(f, depths[pc := Some(depth)], work + next, errors)
  {
    hide Successors, StackDelta;
    var next := Pushed(Successors(f.code[pc], pc), depth + StackDelta(f.code[pc]));
    var depths' := depths[pc := Some(depth)];
    forall q: nat | q < |f.code| && depths'[q].Some?
      ensures ClosedAt(f, depths', work + next, errors, q)
    {
      if q == pc {
        forall s: nat | s in Successors(f.code[pc], pc) && InCode(f.code, s)
          ensures (s, depth + StackDelta(f.code[pc])) in next
        {
          var k :| 0 <= k < |Successors(f.code[pc], pc)| && Successors(f.code[pc], pc)[k] == s;
          assert next[k] == (s, depth + StackDelta(f.code[pc]));
        }
      } else {
        assert ClosedAt(f, depths, work + [(pc, depth)], errors, q);
      }
    }
  }

  lemma RevisitKeepsClosed(f: Function, depths: seq<Option<int>>, work: seq<(int, int)>, errors: seq<StackError>,
                           pc: int, depth: int)
    requires |depths| == |f.code|
    requires Closed(f, depths, work + [(pc, depth)], errors)
    requires 0 <= pc < |f.code| ==> depths[pc].Some?
    ensures !(0 <= pc < |f.code|) || depths[pc].value == depth ==> Closed(f, depths, work, errors)
    ensures 0 <= pc < |f.code| ==> Closed(f, depths, work, errors + [StackError(f.name, pc, depths[pc].value, depth)])
  {
    hide Successors, StackDelta;
    if !(0 <= pc < |f.code|) || depths[pc].value == depth {
      forall q: nat | q < |f.code| && depths[q].Some? ensures ClosedAt(f, depths, work, errors, q) {
        assert ClosedAt(f, depths, work + [(pc, depth)], errors, q);
      }
    }
    if 0 <= pc < |f.code| {
      var more := errors + [StackError(f.name, pc, depths[pc].value, depth)];
      assert forall e | e in errors :: e in more;
      assert StackError(f.name, pc, depths[pc].value, depth) in more;
      forall q: nat | q < |f.code| && depths[q].Some? ensures ClosedAt(f, depths, work, more, q) {
        assert ClosedAt(f, depths, work + [(pc, depth)], errors, q);
      }
    }
  }

  lemma ReasonStays(code: Code, depths: seq<Option<int>>, at: nat, visited: int, pc: nat, depth: int)
    requires |depths| == |code| && at < |code| && depths[at].None? && Reason(code, depths, pc, depth)
    ensures Reason(code, depths[at := Some(visited)], pc, depth)
  {
    hide Successors, StackDelta;
    if !(pc == 0 && depth == 0) {
      var u: nat :| u < |code| && depths[u].Some?
                    && pc in Successors(code[u], u) && depths[u].value + StackDelta(code[u]) == depth;
      assert depths[at := Some(visited)][u] == depths[u];
    }
  }

  lemma ExpandKeepsReasoned(f: Function, depths: seq<Option<int>>, work: seq<(int, int)>, errors: seq<StackError>,
                            pc: nat, depth: int)
    requires |depths| == |f.code| && pc < |f.code| && depths[pc].None?
    requires Reasoned(f, depths, work + [(pc, depth)], errors)
    ensures var next := Pushed(Successors(f.code[pc], pc), depth + StackDelta(f.code[pc]));
            Reasoned(f, depths[pc := Some(depth)], work + next, errors)
  {
    var next := Pushed(Successors(f.code[pc], pc), depth + StackDelta(f.code[pc]));
    var after := depths[pc := Some(depth)];
    hide Successors, StackDelta, Reason;
    assert (pc, depth) in work + [(pc, depth)];
    ReasonStays(f.code, depths, pc, depth, pc, depth);
    forall q: nat | q < |f.code| && after[q].Some? ensures Reason(f.code, after, q, after[q].value) {
      if q != pc { ReasonStays(f.code, depths, pc, depth, q, depths[q].value); }
    }
    forall w | w in work + next && InCode(f.code, w.0) ensures Reason(f.code, after, w.0, w.1) {
      if w in work {
        assert w in work + [(pc, depth)];
        ReasonStays(f.code, depths, pc, depth, w.0, w.1);
      } else {
        PushedReason(f.code, after, pc, w.0);
      }
    }
    forall e | e in errors ensures after[e.pc] == Some(e.depthA) && Reason(f.code, after, e.pc, e.depthB) {
      ReasonStays(f.code, depths, pc, depth, e.pc, e.depthB);
    }
  }

  lemma PushedReason(code: Code, depths: seq<Option<int>>, u: nat, pc: nat)
    requires |depths| == |code| && u < |code| && depths[u].Some? && pc in Successors(code[u], u)
    ensures Reason(code, depths, pc, depths[u].value + StackDelta(code[u]))
  {
    hide Successors, StackDelta;
  }

  lemma RevisitKeepsReasoned(f: Function, depths: seq<Option<int>>, work: seq<(int, int)>, errors: seq<StackError>,
                             pc: int, depth: int)
    requires |depths| == |f.code|
    requires Reasoned(f, depths, work + [(pc, depth)], errors)
    ensures Reasoned(f, depths, work, errors)
    ensures 0 <= pc < |f.code| && depths[pc].Some? && depths[pc].value != depth ==>
      Reasoned(f, depths, work, errors + [StackError(f.name, pc, depths[pc].value, depth)])
  {
    hide Successors, StackDelta, Reason;
    assert (pc, depth) in work + [(pc, depth)];
    assert forall w | w in work :: w in work + [(pc, depth)];
  }

  lemma ExpandKeepsRealised(f: Function, depths: seq<Option<int>>, work: seq<(int, int)>,
                            errors: seq<StackError>, pc: nat, depth: int)
    requires |depths| == |f.code| && pc < |f.code|
    requires Realised(f, depths, work + [(pc, depth)], errors)
    ensures var next := Pushed(Successors(f.code[pc], pc), depth + StackDelta(f.code[pc]));
            Realised(f, depths[pc := Some(depth)], work + next, errors)
  {
    var next := Pushed(Successors(f.code[pc], pc), depth + StackDelta(f.code[pc]));
    assert Arrives(f.code, pc, depth) by { assert (pc, depth) in work + [(pc, depth)]; }
    forall w | w in work + next && InCode(f.code, w.0)
      ensures Arrives(f.code, w.0, w.1)
    {
      if w in work {
        assert w in work + [(pc, depth)];
      } else {
        assert Edge(f.code, pc, w.0);
        ArrivesNext(f.code, pc, depth, w.0);
      }
    }
  }

  lemma RevisitKeepsRealised(f: Function, depths: seq<Option<int>>, work: seq<(int, int)>,
                             errors: seq<StackError>, pc: int, depth: int)
    requires |depths| == |f.code|
    requires Realised(f, depths, work + [(pc, depth)], errors)
    ensures Realised(f, depths, work, errors)
    ensures 0 <= pc < |f.code| && depths[pc].Some? && depths[pc].value != depth ==>
      Genuine(f, StackError(f.name, pc, depths[pc].value, depth))
      && Realised(f, depths, work, errors + [StackError(f.name, pc, depths[pc].value, depth)])
  {
    assert (pc, depth) in work + [(pc, depth)];
    assert forall w | w in work :: w in work + [(pc, depth)];
  }

  lemma ListsVisit(depths: seq<Option<int>>, expanded: seq<nat>, pc: nat, depth: int)
    requires Lists(depths, expanded) && pc < |depths| && depths[pc].None?
    ensures Lists(depths[pc := Some(depth)], expanded + [pc])
  {
  }

  /** The recorded depths and the errors: exactly the reachable pcs have one, each with a reason; and for every edge
      between them the depths agree along it or the difference is reported, and nothing else is. */
  ghost predicate Reports(f: Function, depths: seq<Option<int>>, errors: seq<StackError>) {
    && |depths| == |f.code|
    && (forall pc: nat :: pc < |f.code| && depths[pc].Some? <==> Reachable(f.code, pc))
    && (|f.code| > 0 ==> Settled(f, depths, errors, 0, 0))
    && (forall u: nat, s: nat | u < |f.code| && depths[u].Some? && s in Successors(f.code[u], u) && s < |f.code| ::
          Settled(f, depths, errors, s, depths[u].value + StackDelta(f.code[u])))
    && Reasoned(f, depths, [], errors)
  }

  /** Sound and complete: the error list is empty exactly when every two paths to one pc carry one
      depth; each reported pair of depths is realised; every reachable pc is expanded, once; and of two paths that
      reach one pc with different depths one passes a pc with an error. */
  method VerifyFunction(f: Function) returns (errors: seq<StackError>, ghost expanded: seq<nat>, ghost depths: seq<Option<int>>)
    ensures errors == [] <==> Consistent(f.code)
    ensures forall e | e in errors :: Genuine(f, e)
    ensures forall i, j | 0 <= i < j < |expanded| :: expanded[i] != expanded[j]
    ensures forall pc: nat :: pc in expanded <==> Reachable(f.code, pc)
    ensures Reports(f, depths, errors)
    ensures forall p, q | IsPath(f.code, p) && IsPath(f.code, q) && Last(p) == Last(q) && PathDepth(f.code, p) != PathDepth(f.code, q) ::
              exists e | e in errors :: e.pc in p || e.pc in q
  {
    hide *;
    errors := [];
    expanded := [];
    var code := f.code;
    var n := |code|;
    var recorded: seq<Option<int>> := seq(n, _ => None);
    if n == 0 {
      NoPaths(f);
      depths := recorded;
      EmptyReports(f);
      return;
    }
    var work: seq<(int, int)> := [(0, 0)];
    StartHolds(f);
    while work != []
      invariant |recorded| == n
      invariant Lists(recorded, expanded)
      invariant Realised(f, recorded, work, errors)
      invariant Closed(f, recorded, work, errors)
      invariant Reasoned(f, recorded, work, errors)
      decreases Unvisited(recorded), |work|
    {
      var (pc, depth) := work[|work| - 1];
      assert work == work[..|work| - 1] + [(pc, depth)];
      work := work[..|work| - 1];
      if pc < 0 || pc >= n {
        RevisitKeepsRealised(f, recorded, work, errors, pc, depth);
        RevisitKeepsClosed(f, recorded, work, errors, pc, depth);
        RevisitKeepsReasoned(f, recorded, work, errors, pc, depth);
        continue;
      }
      if recorded[pc].Some? {
        RevisitKeepsClosed(f, recorded, work, errors, pc, depth);
        RevisitKeepsRealised(f, recorded, work, errors, pc, depth);
        RevisitKeepsReasoned(f, recorded, work, errors, pc, depth);
        if recorded[pc].value != depth {
          errors := errors + [StackError(f.name, pc, recorded[pc].value, depth)];
        }
        continue;
      }
      ExpandKeepsClosed(f, recorded, work, errors, pc, depth);
      ExpandKeepsRealised(f, recorded, work, errors, pc, depth);
      ExpandKeepsReasoned(f, recorded, work, errors, pc, depth);
      VisitShrinks(recorded, pc, depth);
      ListsVisit(recorded, expanded, pc, depth);
      recorded := recorded[pc := Some(depth)];
      expanded := expanded + [pc];
      work := work + Pushed(Successors(code[pc], pc), depth + StackDelta(code[pc]));
    }
    depths := recorded;
    VerdictFollows(f, depths, errors, expanded);
    LoopReports(f, depths, errors, expanded);
    ConflictsMeetErrors(f, depths, errors);
  }

  lemma EmptyReports(f: Function)
    requires f.code == []
    ensures Reports(f, seq(0, _ => None), [])
  {
  }

  lemma LoopReports(f: Function, depths: seq<Option<int>>, errors: seq<StackError>, expanded: seq<nat>)
    requires |depths| == |f.code| > 0 && Lists(depths, expanded) && forall pc: nat :: pc in expanded <==> Reachable(f.code, pc)
    requires Closed(f, depths, [], errors) && Reasoned(f, depths, [], errors)
    ensures Reports(f, depths, errors)
  {
    hide Successors, StackDelta, Reasoned, Reachable, Settled;
    forall u: nat, s: nat | u < |f.code| && depths[u].Some? && s in Successors(f.code[u], u) && s < |f.code|
      ensures Settled(f, depths, errors, s, depths[u].value + StackDelta(f.code[u]))
    {
      assert ClosedAt(f, depths, [], errors, u);
    }
  }

  /** Where two depths meet, a pc on one of the paths has been reported. */
  lemma ConflictsMeetErrors(f: Function, depths: seq<Option<int>>, errors: seq<StackError>)
    requires |depths| == |f.code| > 0 && Closed(f, depths, [], errors)
    ensures forall p, q | IsPath(f.code, p) && IsPath(f.code, q) && Last(p) == Last(q) && PathDepth(f.code, p) != PathDepth(f.code, q) ::
              exists e | e in errors :: e.pc in p || e.pc in q
  {
    hide Closed, Edge, PathDepth, Successors, StackDelta;
    forall p, q | IsPath(f.code, p) && IsPath(f.code, q) && Last(p) == Last(q) && PathDepth(f.code, p) != PathDepth(f.code, q)
      ensures exists e | e in errors :: e.pc in p || e.pc in q
    {
      DepthsExact(f, depths, errors, p);
      DepthsExact(f, depths, errors, q);
    }
  }

  /** What the loop leaves behind decides the verdict. */
  lemma VerdictFollows(f: Function, depths: seq<Option<int>>, errors: seq<StackError>, expanded: seq<nat>)
    requires |depths| == |f.code| > 0 && Lists(depths, expanded)
    requires Realised(f, depths, [], errors) && Closed(f, depths, [], errors)
    ensures errors == [] <==> Consistent(f.code)
    ensures forall e | e in errors :: Genuine(f, e)
    ensures forall i, j | 0 <= i < j < |expanded| :: expanded[i] != expanded[j]
    ensures forall pc: nat :: pc in expanded <==> Reachable(f.code, pc)
  {
    var code := f.code;
    forall p | IsPath(code, p)
      ensures depths[Last(p)].Some?
      ensures errors == [] ==> depths[Last(p)].value == PathDepth(code, p)
    {
      DepthsExact(f, depths, errors, p);
    }
    if errors != [] {
      GenuineRefutes(f, errors[0]);
    }
    forall pc: nat ensures pc in expanded <==> Reachable(code, pc) {
      if pc in expanded {
        assert Arrives(code, pc, depths[pc].value);
      }
      if Reachable(code, pc) {
        var p :| PathTo(code, p, pc);
        assert depths[Last(p)].Some?;
      }
    }
  }

  lemma GenuineRefutes(f: Function, e: StackError)
    requires Genuine(f, e)
    ensures !Consistent(f.code)
  {
    var p :| PathTo(f.code, p, e.pc) && PathDepth(f.code, p) == e.depthA;
    var q :| PathTo(f.code, q, e.pc) && PathDepth(f.code, q) == e.depthB;
  }

  /** An error belongs to one of the functions, and every inconsistent one has one (verify.rs:42-48). */
  method VerifyProgram(functions: seq<Function>) returns (errors: seq<StackError>)
    ensures errors == [] <==> forall f | f in functions :: Consistent(f.code)
    ensures forall e | e in errors :: exists f :: f in functions && Genuine(f, e)
    ensures forall f | f in functions && !Consistent(f.code) :: exists e :: e in errors && Genuine(f, e)
  {
    hide *;
    errors := [];
    for i := 0 to |functions|
      invariant errors == [] <==> forall k | 0 <= k < i :: Consistent(functions[k].code)
      invariant forall e | e in errors :: exists f :: f in functions && Genuine(f, e)
      invariant forall k | 0 <= k < i && !Consistent(functions[k].code) :: exists e :: e in errors && Genuine(functions[k], e)
    {
      var more, _, _ := VerifyFunction(functions[i]);
      assert functions[i] in functions;
      assert forall e | e in errors || e in more :: e in errors + more;
      assert more != [] ==> more[0] in more && Genuine(functions[i], more[0]);
      errors := errors + more;
    }
  }

  // ---- what is not reported ----

  /** Not every pc that two depths reach has an error: behind the first disagreement only one of them is followed. */
  function Twice(): Function {
    Function("twice", 0, 0, [PushConst(0), JumpIf(1), PushConst(0), PushConst(0), Return], [])
  }

  lemma ConflictBehindUnreported(depths: seq<Option<int>>, errors: seq<StackError>)
    requires Reports(Twice(), depths, errors)
    ensures Arrives(Twice().code, 4, 1) && Arrives(Twice().code, 4, 2)
    ensures forall e | e in errors :: e.pc == 3
    ensures errors != []
  {
    TwicePaths();
    TwiceDepths(depths, errors);
  }

  lemma TwiceOps()
    ensures var code := Twice().code;
            && |code| == 5
            && Successors(code[0], 0) == [1] && Successors(code[1], 1) == [2, 3] && Successors(code[2], 2) == [3]
            && Successors(code[3], 3) == [4] && Successors(code[4], 4) == []
            && StackDelta(code[0]) == StackDelta(code[2]) == StackDelta(code[3]) == 1 && StackDelta(code[1]) == -1
  {
  }

  lemma TwicePaths()
    ensures var code := Twice().code;
            && Arrives(code, 0, 0) && Arrives(code, 1, 1) && Arrives(code, 2, 0)
            && Arrives(code, 3, 0) && Arrives(code, 3, 1) && Arrives(code, 4, 1) && Arrives(code, 4, 2)
  {
    var code := Twice().code;
    TwiceOps();
    ArrivesEntry(code);
    hide Arrives, Twice, Successors, StackDelta;
    ArrivesNext(code, 0, 0, 1);
    ArrivesNext(code, 1, 1, 2);
    ArrivesNext(code, 1, 1, 3);
    ArrivesNext(code, 2, 0, 3);
    ArrivesNext(code, 3, 0, 4);
    ArrivesNext(code, 3, 1, 4);
  }

  lemma TwiceReason(depths: seq<Option<int>>, pc: nat, depth: int)
    requires |depths| == |Twice().code| == 5 && Reason(Twice().code, depths, pc, depth)
    requires forall k | 0 <= k < 5 :: depths[k].Some?
    ensures pc == 0 ==> depth == 0
    ensures pc == 1 ==> depth == depths[0].value + 1
    ensures pc == 2 ==> depth == depths[1].value - 1
    ensures pc == 3 ==> depth == depths[1].value - 1 || depth == depths[2].value + 1
    ensures pc == 4 ==> depth == depths[3].value + 1
  {
    TwiceOps();
    hide Twice, Successors, StackDelta;
  }

  lemma TwiceDepths(depths: seq<Option<int>>, errors: seq<StackError>)
    requires Reports(Twice(), depths, errors)
    ensures errors != [] && forall e | e in errors :: e.pc == 3
  {
    var f := Twice();
    TwiceValues(depths, errors);
    TwiceOps();
    hide Twice, Successors, StackDelta, Reason, Reachable;
    forall e | e in errors ensures e.pc == 3 {
      TwiceReason(depths, e.pc, e.depthB);
    }
    assert 3 in Successors(f.code[1], 1) && 3 in Successors(f.code[2], 2);
    assert Settled(f, depths, errors, 3, 0) && Settled(f, depths, errors, 3, 1);
  }

  lemma TwiceValues(depths: seq<Option<int>>, errors: seq<StackError>)
    requires Reports(Twice(), depths, errors)
    ensures |depths| == |Twice().code| == 5 && forall k | 0 <= k < 5 :: depths[k].Some?
    ensures depths[0].value == 0 && depths[1].value == 1 && depths[2].value == 0 && depths[4].value == depths[3].value + 1
  {
    TwiceOps();
    TwiceReached(depths, errors);
    hide Twice, Successors, StackDelta, Reason, Reachable, Settled;
    forall k: nat | k < 5 ensures Reason(Twice().code, depths, k, depths[k].value) {}
    TwiceReason(depths, 0, depths[0].value);
    TwiceReason(depths, 1, depths[1].value);
    TwiceReason(depths, 2, depths[2].value);
    TwiceReason(depths, 4, depths[4].value);
  }

  lemma TwiceReached(depths: seq<Option<int>>, errors: seq<StackError>)
    requires Reports(Twice(), depths, errors) && |Twice().code| == 5
    ensures |depths| == 5 && forall k | 0 <= k < 5 :: depths[k].Some?
  {
    hide *;
    TwicePaths();
    Recorded(Twice(), depths, errors, 0, 0);
    Recorded(Twice(), depths, errors, 1, 1);
    Recorded(Twice(), depths, errors, 2, 0);
    Recorded(Twice(), depths, errors, 3, 0);
    Recorded(Twice(), depths, errors, 4, 1);
    assert depths[0].Some? && depths[1].Some? && depths[2].Some? && depths[3].Some? && depths[4].Some?;
  }

  lemma Recorded(f: Function, depths: seq<Option<int>>, errors: seq<StackError>, pc: nat, depth: int)
    requires Reports(f, depths, errors) && Arrives(f.code, pc, depth)
    ensures |depths| == |f.code| && pc < |depths| && depths[pc].Some?
  {
    ArrivesReaches(f.code, pc, depth);
    hide Arrives, Reachable, Settled, Reasoned, Successors, StackDelta;
  }

  lemma ArrivesReaches(code: Code, pc: nat, depth: int)
    requires Arrives(code, pc, depth)
    ensures Reachable(code, pc)
  {
  }
}
