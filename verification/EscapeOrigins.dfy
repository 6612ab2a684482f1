/** Where every value of an activation comes from, along its control-flow path, parts read back included; which
    paths have a run, and which functions hand over an aggregate whose site does not escape. */
module EscapeOrigins {
  import opened Options
  import opened Bodies
  import opened EscapeStep
  import opened EscapePaths
  import opened FrameMachine
  import opened EscapeSoundness

  function LocalCount(f: Body): nat {
    if f.localsCount < f.arity then f.arity else f.localsCount
  }

  predicate LocalsFit(b: Behaviour, locals: nat) {
    (b.Reads? ==> b.i < locals) && (b.Moves? ==> b.i < locals) && (b.Writes? ==> b.i < locals)
  }

  // ---- paths ----

  lemma PathStarts(code: Code, p: Path)
    requires IsPath(code, p)
    ensures |p| > 0 && p[0] == 0 && Last(p) < |code|
  {
  }

  lemma PrefixPath(code: Code, p: Path, m: nat)
    requires IsPath(code, p) && m < |p|
    ensures IsPath(code, p[..m + 1]) && Last(p[..m + 1]) == p[m]
  {
    hide Edge;
    var q := p[..m + 1];
    forall k | 0 < k < |q| ensures Edge(code, q[k - 1], q[k]) {
      assert Edge(code, p[k - 1], p[k]);
    }
  }

  lemma PathEdge(code: Code, p: Path, m: nat)
    requires IsPath(code, p) && 0 < m < |p|
    ensures p[m - 1] < |code| && Edge(code, p[m - 1], p[m]) && p[..m + 1] == p[..m] + [p[m]]
  {
    hide Edge;
  }

  lemma SplitLast(p: Path)
    requires |p| > 1
    ensures p == p[..|p| - 1] + [Last(p)]
  {
  }

  lemma LastOne(p: Path, next: nat)
    ensures Last(p + [next]) == next
  {
  }

  // ---- one step ----

  /** Which slot, if any, the value of a slot is copied from. */
  function Copied(b: Behaviour, depth: nat, src: Source): Source {
    match src
    case FromStack(j) =>
      if j < Kept(Abstracts(b), depth) then FromStack(j)
      else if b.Copies? && depth > 0 && j <= depth then FromStack(depth - 1)
      else if j > Kept(Abstracts(b), depth) then Nothing
      else (match b
            case Reads(i) => FromLocal(i)
            case Moves(i) => FromLocal(i)
            case Builds(_) => Fresh
            case _ => Nothing)
    case FromLocal(j) =>
      if b.Moves? && b.i == j then Nothing
      else if b.Writes? && b.i == j && depth > 0 then FromStack(depth - 1)
      else FromLocal(j)
    case _ => Nothing
  }

  /** The slot is the result of a field or element read. */
  predicate Reading(b: Behaviour, depth: nat, src: Source) {
    b.Projects? && depth > 0 && src == FromStack(depth - 1)
  }

  predicate Flows(src: Source, s: Frame, gone: set<nat>, v: Val) {
    match src
    case Nothing => Loose(v, gone)
    case Fresh => v == Ref(|s.heap|)
    case FromStack(i) => i < |s.stack| && v == s.stack[i]
    case FromLocal(i) => i < |s.locals| && v == s.locals[i]
  }

  /** Every slot after a step, by where it comes from. */
  ghost predicate StepFlows(f: Body, b: Behaviour, s: Frame, t: Frame) {
    var depth := |s.stack|;
    && Operands(Abstracts(b)) <= depth && LocalsFit(b, |s.locals|)
    && |t.stack| == depth + HeightDelta(Abstracts(b)) && |t.locals| == |s.locals|
    && (forall j: nat | j < |t.stack| && !Reading(b, depth, FromStack(j)) ::
          Flows(Copied(b, depth, FromStack(j)), s, t.gone, t.stack[j]))
    && (forall j: nat | j < |t.locals| :: Flows(Copied(b, depth, FromLocal(j)), s, t.gone, t.locals[j]))
    && (b.Projects? ==> |t.stack| == depth > 0 && PartOf(f, s, s.stack[depth - 1], b.sel, t.stack[depth - 1]))
  }

  lemma DoesFlow(f: Body, b: Behaviour, policy: Policy, s: Frame, t: Frame)
    requires Does(f, b, policy, s, t)
    ensures StepFlows(f, b, s, t) && t.pc in StepSuccs(Abstracts(b), s.pc)
  {
    hide *;
    DoesHas(f, b, policy, s, t);
    DoesLocalsFlow(f, b, s, t);
    if b.Projects? {
      ReadFlows(f, b, s, t);
    } else if b.Hands? || b.Inspects? || b.Extends? {
      ResultsFlow(f, b, s, t);
    } else if b.Jumps? || b.Tests? || b.Returns? || b.Aborts? || b.TailHands? {
      JumpsFlow(f, b, s, t);
    } else {
      MovesFlow(f, b, s, t);
    }
    MakeFlows(f, b, s, t);
  }

  ghost predicate LocalsFlow(b: Behaviour, s: Frame, t: Frame) {
    |t.locals| == |s.locals|
    && forall j: nat | j < |t.locals| :: Flows(Copied(b, |s.stack|, FromLocal(j)), s, t.gone, t.locals[j])
  }

  ghost predicate StackFlows(b: Behaviour, s: Frame, t: Frame) {
    && Operands(Abstracts(b)) <= |s.stack| && LocalsFit(b, |s.locals|)
    && |t.stack| == |s.stack| + HeightDelta(Abstracts(b))
    && forall j: nat | j < |t.stack| && !Reading(b, |s.stack|, FromStack(j)) ::
         Flows(Copied(b, |s.stack|, FromStack(j)), s, t.gone, t.stack[j])
  }

  lemma MakeFlows(f: Body, b: Behaviour, s: Frame, t: Frame)
    requires LocalsFlow(b, s, t) && StackFlows(b, s, t)
    requires b.Projects? ==> |t.stack| == |s.stack| > 0 && PartOf(f, s, s.stack[|s.stack| - 1], b.sel, t.stack[|s.stack| - 1])
    ensures StepFlows(f, b, s, t)
  {
    hide Flows, Copied, Reading, PartOf;
  }

  lemma DoesLocalsFlow(f: Body, b: Behaviour, s: Frame, t: Frame)
    requires Assigns(b, s, t) && Executes(f, b, s, t)
    ensures LocalsFlow(b, s, t)
  {
    hide PartOf;
  }

  lemma ReadFlows(f: Body, b: Behaviour, s: Frame, t: Frame)
    requires Executes(f, b, s, t) && b.Projects?
    ensures StackFlows(b, s, t) && t.pc in StepSuccs(Abstracts(b), s.pc)
    ensures |t.stack| == |s.stack| > 0 && PartOf(f, s, s.stack[|s.stack| - 1], b.sel, t.stack[|s.stack| - 1])
  {
    hide PartOf;
  }

  lemma ResultsFlow(f: Body, b: Behaviour, s: Frame, t: Frame)
    requires Executes(f, b, s, t) && (b.Hands? || b.Inspects? || b.Extends?)
    ensures StackFlows(b, s, t) && t.pc in StepSuccs(Abstracts(b), s.pc)
  {
    var n := if b.Extends? then 2 else b.n;
    hide *;
    var r := ResultPushed(f, b, s, t, n);
    ResultFlows(b, s, t, n, r);
  }

  lemma ResultPushed(f: Body, b: Behaviour, s: Frame, t: Frame, n: nat) returns (r: Val)
    requires Executes(f, b, s, t) && (b == Hands(n) || b == Inspects(n) || (b.Extends? && n == 2))
    ensures n <= |s.stack| && t.stack == Under(s.stack, n) + [r] && Loose(r, t.gone) && t.pc == s.pc + 1
  {
    if b.Extends? {
      r := Plain;
    } else {
      r :| Loose(r, t.gone) && t.stack == Under(s.stack, n) + [r];
    }
  }

  lemma ResultFlows(b: Behaviour, s: Frame, t: Frame, n: nat, r: Val)
    requires b == Hands(n) || b == Inspects(n) || (b.Extends? && n == 2)
    requires n <= |s.stack| && t.stack == Under(s.stack, n) + [r] && Loose(r, t.gone) && t.pc == s.pc + 1
    ensures StackFlows(b, s, t) && t.pc in StepSuccs(Abstracts(b), s.pc)
  {
    ResultCopied(b, |s.stack|, n);
    hide Loose, Copied, Abstracts, Reading, LocalsFit;
    forall j: nat | j < |t.stack| ensures Flows(Copied(b, |s.stack|, FromStack(j)), s, t.gone, t.stack[j]) {
      assert t.stack[j] == if j < |s.stack| - n then s.stack[j] else r;
    }
  }

  lemma ResultCopied(b: Behaviour, depth: nat, n: nat)
    requires n <= depth && (b == Hands(n) || b == Inspects(n) || (b.Extends? && n == 2))
    ensures Operands(Abstracts(b)) == n && HeightDelta(Abstracts(b)) == 1 - n
    ensures forall pc: nat :: StepSuccs(Abstracts(b), pc) == [pc + 1]
    ensures forall locals: nat :: LocalsFit(b, locals)
    ensures forall j: nat :: Copied(b, depth, FromStack(j)) == if j < depth - n then FromStack(j) else Nothing
  {
  }

  lemma JumpsFlow(f: Body, b: Behaviour, s: Frame, t: Frame)
    requires Executes(f, b, s, t) && (b.Jumps? || b.Tests? || b.Returns? || b.Aborts? || b.TailHands?)
    ensures StackFlows(b, s, t) && t.pc in StepSuccs(Abstracts(b), s.pc)
  {
    hide PartOf;
  }

  lemma MovesFlow(f: Body, b: Behaviour, s: Frame, t: Frame)
    requires Executes(f, b, s, t)
    requires b.Produces? || b.Discards? || b.Copies? || b.Reads? || b.Moves? || b.Writes? || b.Builds?
    ensures StackFlows(b, s, t) && t.pc in StepSuccs(Abstracts(b), s.pc)
  {
    hide *;
    if b.Produces? || b.Discards? || b.Writes? {
      PlainFlow(f, b, s, t);
    } else if b.Reads? || b.Moves? {
      LoadsFlow(f, b, s, t);
    } else if b.Copies? {
      CopyFlows(f, b, s, t);
    } else {
      BuildsFlow(f, b, s, t);
    }
  }

  lemma PlainFlow(f: Body, b: Behaviour, s: Frame, t: Frame)
    requires Executes(f, b, s, t) && (b.Produces? || b.Discards? || b.Writes?)
    ensures StackFlows(b, s, t) && t.pc in StepSuccs(Abstracts(b), s.pc)
  {
    hide PartOf;
  }

  lemma LoadsFlow(f: Body, b: Behaviour, s: Frame, t: Frame)
    requires Executes(f, b, s, t) && (b.Reads? || b.Moves?)
    ensures StackFlows(b, s, t) && t.pc in StepSuccs(Abstracts(b), s.pc)
  {
    hide PartOf, Loose;
  }

  lemma CopyFlows(f: Body, b: Behaviour, s: Frame, t: Frame)
    requires Executes(f, b, s, t) && b.Copies?
    ensures StackFlows(b, s, t) && t.pc in StepSuccs(Abstracts(b), s.pc)
  {
    hide PartOf, Loose;
  }

  lemma BuildsFlow(f: Body, b: Behaviour, s: Frame, t: Frame)
    requires Executes(f, b, s, t) && b.Builds?
    ensures StackFlows(b, s, t) && t.pc in StepSuccs(Abstracts(b), s.pc)
  {
    hide *;
    DoesBuild(f, b, s, t);
    BuildFlows(b.n, s, t);
  }

  lemma DoesBuild(f: Body, b: Behaviour, s: Frame, t: Frame)
    requires Executes(f, b, s, t) && b.Builds?
    ensures b == Builds(b.n) && b.n <= |s.stack| && t.pc == s.pc + 1 && t.stack == Under(s.stack, b.n) + [Ref(|s.heap|)]
  {
  }

  lemma BuildFlows(n: nat, s: Frame, t: Frame)
    requires n <= |s.stack| && t.pc == s.pc + 1 && t.stack == Under(s.stack, n) + [Ref(|s.heap|)]
    ensures StackFlows(Builds(n), s, t) && t.pc in StepSuccs(Abstracts(Builds(n)), s.pc)
  {
  }

  // ---- origins ----

  /** The stack slot that became the selected part of the aggregate built at the end of `r`. */
  ghost function PartSlot(f: Body, r: Path, sel: Selector): Option<nat>
    requires IsPath(f.code, r)
  {
    var i, n, depth := Picked(f, Last(r), sel), Operands(ActionAt(f, Last(r))), |PathState(f, r).stack|;
    if i.Some? && i.value < n <= depth then Some(depth - n + i.value) else None
  }

  /** The step of the path that built the aggregate a slot holds at its end; none for anything not built here. */
  ghost function Origin(f: Body, p: Path, src: Source): (k: Option<nat>)
    requires IsPath(f.code, p)
    ensures k.Some? ==> k.value + 1 < |p|
    decreases |p|
  {
    if |p| == 1 then None
    else
      PathPrefix(f.code, p);
      var q := p[..|p| - 1];
      var b, depth := BehaviourAt(f, Last(q)), |PathState(f, q).stack|;
      if Reading(b, depth, src) then
        var k := Origin(f, q, src);
        if k.None? then None else
          PrefixPath(f.code, q, k.value);
          var slot := PartSlot(f, q[..k.value + 1], b.sel);
          if slot.None? then None else Origin(f, q[..k.value + 1], FromStack(slot.value))
      else
        var from := Copied(b, depth, src);
        if from.Fresh? then Some(|q| - 1) else if from.Nothing? then None else Origin(f, q, from)
  }

  /** The instruction at the end of the path can be executed: its operands and local are there, and an aggregate
      it reads has the part. */
  ghost predicate Passes(f: Body, p: Path)
    requires IsPath(f.code, p)
  {
    var b, depth := BehaviourAt(f, Last(p)), |PathState(f, p).stack|;
    && Operands(Abstracts(b)) <= depth && LocalsFit(b, LocalCount(f))
    && (b.Projects? ==> depth > 0 && ReadPasses(f, p, b.sel, Origin(f, p, FromStack(depth - 1))))
  }

  ghost predicate ReadPasses(f: Body, p: Path, sel: Selector, k: Option<nat>)
    requires IsPath(f.code, p)
  {
    k.Some? && k.value < |p| ==> Picked(f, p[k.value], sel).Some?
  }

  /** Every instruction before the end of the path can be executed. */
  ghost predicate Possible(f: Body, p: Path)
    requires IsPath(f.code, p)
    decreases |p|
  {
    |p| == 1 || (PathPrefix(f.code, p); Possible(f, p[..|p| - 1]) && Passes(f, p[..|p| - 1]))
  }

  lemma OriginNext(f: Body, q: Path, next: nat, src: Source)
    requires IsPath(f.code, q) && IsPath(f.code, q + [next])
    ensures var b, depth, p := BehaviourAt(f, Last(q)), |PathState(f, q).stack|, q + [next];
            && (!Reading(b, depth, src) ==>
                  var from := Copied(b, depth, src);
                  Origin(f, p, src) == if from.Fresh? then Some(|q| - 1) else if from.Nothing? then None else Origin(f, q, from))
            && (Reading(b, depth, src) ==>
                  var k := Origin(f, q, src);
                  && (k.None? ==> Origin(f, p, src) == None)
                  && (k.Some? ==>
                        && IsPath(f.code, q[..k.value + 1]) && Last(q[..k.value + 1]) == q[k.value]
                        && var slot := PartSlot(f, q[..k.value + 1], b.sel);
                           Origin(f, p, src) == if slot.None? then None else Origin(f, q[..k.value + 1], FromStack(slot.value))))
  {
    hide PathState, Abstracts, PartSlot, Copied;
    assert (q + [next])[..|q|] == q;
    var k := Origin(f, q, src);
    if k.Some? { PrefixPath(f.code, q, k.value); }
  }

  lemma PossibleNext(f: Body, q: Path, next: nat)
    requires IsPath(f.code, q) && IsPath(f.code, q + [next])
    ensures Possible(f, q + [next]) <==> Possible(f, q) && Passes(f, q)
  {
    hide Passes;
    assert (q + [next])[..|q|] == q;
  }

  lemma {:induction false} OriginBuilds(f: Body, p: Path, src: Source)
    requires IsPath(f.code, p) && Origin(f, p, src).Some?
    ensures ActionAt(f, p[Origin(f, p, src).value]).Build?
    decreases |p|
  {
    hide *;
    OriginLong(f, p, src);
    PathPrefix(f.code, p);
    SplitLast(p);
    var q, next := p[..|p| - 1], Last(p);
    PathStarts(f.code, q);
    OriginNext(f, q, next, src);
    var b, depth := BehaviourAt(f, Last(q)), |PathState(f, q).stack|;
    if Reading(b, depth, src) {
      ReadingHas(b, depth, src);
      var k := Origin(f, q, src).value;
      OriginLong(f, q, src);
      OriginBuilds(f, q[..k + 1], FromStack(PartSlot(f, q[..k + 1], b.sel).value));
      var r := q[..k + 1];
      OriginLong(f, r, FromStack(PartSlot(f, r, b.sel).value));
      assert r[Origin(f, p, src).value] == p[Origin(f, p, src).value];
    } else {
      var from := Copied(b, depth, src);
      if from.Fresh? {
        FreshBuilds(f, Last(q), depth, src);
        LastIs(q);
      } else {
        OriginBuilds(f, q, from);
        OriginLong(f, q, from);
      }
    }
  }

  lemma ReadingHas(b: Behaviour, depth: nat, src: Source)
    ensures Reading(b, depth, src) ==> b.Projects?
  {
  }

  lemma LastIs(p: Path)
    requires |p| > 0
    ensures Last(p) == p[|p| - 1]
  {
  }

  lemma OriginLong(f: Body, p: Path, src: Source)
    requires IsPath(f.code, p)
    ensures Origin(f, p, src).Some? ==> |p| > 1 && Origin(f, p, src).value + 1 < |p|
  {
    hide IsPath;
  }

  lemma FreshBuilds(f: Body, pc: nat, depth: nat, src: Source)
    requires pc < |f.code|
    ensures Copied(BehaviourAt(f, pc), depth, src).Fresh? ==> ActionAt(f, pc).Build?
  {
  }

  // ---- objects ----

  lemma {:induction false} HeapGrows(f: Body, policy: Policy, run: seq<Frame>, i: nat, j: nat)
    requires IsRun(f, policy, run) && i <= j < |run|
    ensures |run[i].heap| <= |run[j].heap| && run[j].heap[..|run[i].heap|] == run[i].heap
    decreases j
  {
    hide *;
    if i < j {
      HeapGrows(f, policy, run, i, j - 1);
      StepAt(f, policy, run, j - 1);
      StepHeap(f, policy, run[j - 1], run[j]);
      var a, b, c := run[i].heap, run[j - 1].heap, run[j].heap;
      assert c[..|a|] == c[..|b|][..|a|];
    }
  }

  lemma {:induction false} GoneGrowing(f: Body, policy: Policy, run: seq<Frame>, i: nat, j: nat)
    requires IsRun(f, policy, run) && i <= j < |run|
    ensures run[i].gone <= run[j].gone
    decreases j
  {
    hide *;
    if i < j {
      GoneGrowing(f, policy, run, i, j - 1);
      StepAt(f, policy, run, j - 1);
      StepGone(f, policy, run[j - 1], run[j]);
    }
  }

  lemma StepGone(f: Body, policy: Policy, s: Frame, t: Frame)
    requires s.pc < |f.code| && Step(f, policy, s, t)
    ensures s.gone <= t.gone
  {
    hide Leaving;
  }

  lemma StepHeap(f: Body, policy: Policy, s: Frame, t: Frame)
    requires s.pc < |f.code| && Step(f, policy, s, t)
    ensures |s.heap| <= |t.heap| && t.heap[..|s.heap|] == s.heap
    ensures BehaviourAt(f, s.pc).Builds? ==>
              && BehaviourAt(f, s.pc).n <= |s.stack|
              && t.heap == s.heap + [Obj(s.pc, Top(s.stack, BehaviourAt(f, s.pc).n))]
  {
    hide Abstracts;
    DoesHas(f, BehaviourAt(f, s.pc), policy, s, t);
    DoesHeap(f, BehaviourAt(f, s.pc), s, t);
    hide Does;
  }

  /** What was built at a step of the run is still there at its end. */
  lemma BuiltAt(f: Body, policy: Policy, run: seq<Frame>, k: nat)
    requires IsRun(f, policy, run) && k + 1 < |run| && ActionAt(f, run[k].pc).Build?
    ensures var s, end := run[k], run[|run| - 1];
            && ActionAt(f, s.pc).n <= |s.stack| && |s.heap| < |end.heap|
            && end.heap[|s.heap|] == Obj(s.pc, Top(s.stack, ActionAt(f, s.pc).n))
  {
    hide *;
    StepAt(f, policy, run, k);
    BuildIs(BehaviourAt(f, run[k].pc));
    ActionIs(f, run[k].pc);
    StepHeap(f, policy, run[k], run[k + 1]);
    HeapGrows(f, policy, run, k + 1, |run| - 1);
    StillThere(run[k].heap, run[k + 1].heap, run[|run| - 1].heap, Obj(run[k].pc, Top(run[k].stack, ActionAt(f, run[k].pc).n)));
  }

  lemma StepAt(f: Body, policy: Policy, run: seq<Frame>, k: nat)
    requires IsRun(f, policy, run) && k + 1 < |run|
    ensures run[k].pc < |f.code| && Step(f, policy, run[k], run[k + 1])
  {
    hide Step, Start;
    assert Step(f, policy, run[k + 1 - 1], run[k + 1]);
  }

  lemma ActionIs(f: Body, pc: nat)
    requires pc < |f.code|
    ensures ActionAt(f, pc) == Abstracts(f.code[pc]) && BehaviourAt(f, pc) == f.code[pc]
  {
  }

  lemma BuildIs(b: Behaviour)
    ensures Abstracts(b).Build? <==> b.Builds?
    ensures b.Builds? ==> Abstracts(b).n == b.n
  {
  }

  lemma StillThere(heap: seq<Obj>, next: seq<Obj>, end: seq<Obj>, o: Obj)
    requires next == heap + [o] && |next| <= |end| && end[..|next|] == next
    ensures |heap| < |end| && end[|heap|] == o
  {
    assert end[|heap|] == end[..|next|][|heap|];
  }

  lemma ExtendRun(f: Body, policy: Policy, run: seq<Frame>, t: Frame)
    requires IsRun(f, policy, run) && Step(f, policy, run[|run| - 1], t)
    ensures IsRun(f, policy, run + [t])
  {
    hide Does;
    var longer := run + [t];
    forall k | 0 < k < |longer| ensures Step(f, policy, longer[k - 1], longer[k]) {
      if k < |run| { assert Step(f, policy, run[k - 1], run[k]); }
    }
  }

  // ---- runs follow origins ----

  /** Parts are older than what holds them, and what has left has left with its parts. */
  ghost predicate Closed(heap: seq<Obj>, gone: set<nat>) {
    && (forall id: nat, i: nat | id < |heap| && i < |heap[id].fields| && heap[id].fields[i].Ref? :: heap[id].fields[i].id < id)
    && (forall id | id in gone :: id < |heap|)
    && (forall id: nat, i: nat | id in gone && i < |heap[id].fields| && heap[id].fields[i].Ref? :: heap[id].fields[i].id in gone)
  }

  /** A slot holds the aggregate its origin built, or nothing of this activation that is still inside. */
  ghost predicate Tracked(f: Body, p: Path, run: seq<Frame>, gone: set<nat>, src: Source, v: Val)
    requires IsPath(f.code, p) && |p| <= |run|
  {
    var k := Origin(f, p, src);
    if k.Some? then v == Ref(|run[k.value].heap|) else Loose(v, gone)
  }

  ghost predicate TrackedAt(f: Body, p: Path, run: seq<Frame>, s: Frame)
    requires IsPath(f.code, p) && |p| <= |run|
  {
    && s.pc == Last(p) && |s.stack| == |PathState(f, p).stack| && |s.locals| == LocalCount(f)
    && (forall i: nat | i < |s.stack| :: Tracked(f, p, run, s.gone, FromStack(i), s.stack[i]))
    && (forall i: nat | i < |s.locals| :: Tracked(f, p, run, s.gone, FromLocal(i), s.locals[i]))
    && Known(s) && Closed(s.heap, s.gone)
  }

  /** Every reference of the frame is to an aggregate of its heap. */
  predicate Known(s: Frame) {
    && (forall i: nat | i < |s.stack| && s.stack[i].Ref? :: s.stack[i].id < |s.heap|)
    && (forall i: nat | i < |s.locals| && s.locals[i].Ref? :: s.locals[i].id < |s.heap|)
  }

  ghost predicate TracksAt(f: Body, p: Path, run: seq<Frame>, k: nat)
    requires k < |p| == |run|
  {
    IsPath(f.code, p[..k + 1]) && TrackedAt(f, p[..k + 1], run, run[k])
  }

  /** The run follows the path, which is possible, and every slot at every point is as its origin says. */
  ghost predicate Tracks(f: Body, policy: Policy, p: Path, run: seq<Frame>)
  {
    && IsPath(f.code, p) && |run| == |p| && IsRun(f, policy, run) && Possible(f, p)
    && forall k: nat | k < |p| :: TracksAt(f, p, run, k)
  }

  lemma TracksEnd(f: Body, policy: Policy, p: Path, run: seq<Frame>)
    requires Tracks(f, policy, p, run)
    ensures IsPath(f.code, p) && |run| == |p| > 0 && IsRun(f, policy, run) && Possible(f, p)
    ensures TrackedAt(f, p, run, run[|p| - 1]) && run[|p| - 1].pc == Last(p)
  {
    hide IsRun, Origin, PathState, Possible;
    var n := |p| - 1;
    assert TracksAt(f, p, run, n) && p[..n + 1] == p;
  }

  lemma TracksSlot(f: Body, policy: Policy, p: Path, run: seq<Frame>, k: nat, i: nat)
    requires Tracks(f, policy, p, run) && k < |p|
    ensures IsPath(f.code, p[..k + 1]) && run[k].pc == p[k] == Last(p[..k + 1])
    ensures |run[k].stack| == |PathState(f, p[..k + 1]).stack| && Closed(run[k].heap, run[k].gone)
    ensures i < |run[k].stack| ==> Tracked(f, p[..k + 1], run, run[k].gone, FromStack(i), run[k].stack[i])
  {
    hide IsRun, Origin, PathState, Possible, Tracked, Closed;
    assert TracksAt(f, p, run, k);
  }

  /** The aggregate an origin built, at the end of the run, and its operands. */
  lemma BuiltThere(f: Body, policy: Policy, p: Path, run: seq<Frame>, k: nat)
    requires Tracks(f, policy, p, run) && k + 1 < |p| && p[k] < |f.code| && ActionAt(f, p[k]).Build?
    ensures IsPath(f.code, p[..k + 1])
    ensures var s, end, n := run[k], run[|run| - 1], ActionAt(f, p[k]).n;
            && n <= |s.stack| == |PathState(f, p[..k + 1]).stack| && |s.heap| < |end.heap|
            && end.heap[|s.heap|] == Obj(p[k], Top(s.stack, n))
  {
    hide *;
    TracksEnd(f, policy, p, run);
    TracksSlot(f, policy, p, run, k, 0);
    BuiltAt(f, policy, run, k);
  }

  /** The part a read selects from an aggregate built along the path. */
  lemma PartThere(f: Body, policy: Policy, q: Path, run: seq<Frame>, k: nat, sel: Selector)
    requires Tracks(f, policy, q, run) && k + 1 < |q| && q[k] < |f.code| && ActionAt(f, q[k]).Build?
    requires Picked(f, q[k], sel).Some?
    ensures IsPath(f.code, q[..k + 1]) && Last(q[..k + 1]) == q[k] && PartSlot(f, q[..k + 1], sel).Some?
    ensures var end, slot, i := run[|run| - 1], PartSlot(f, q[..k + 1], sel).value, Picked(f, q[k], sel).value;
            && |run[k].heap| < |end.heap| && end.heap[|run[k].heap|].site == q[k]
            && i < |end.heap[|run[k].heap|].fields| && slot < |run[k].stack|
            && end.heap[|run[k].heap|].fields[i] == run[k].stack[slot]
            && Tracked(f, q[..k + 1], run, run[k].gone, FromStack(slot), run[k].stack[slot])
  {
    hide *;
    TracksEnd(f, policy, q, run);
    BuiltThere(f, policy, q, run, k);
    PrefixPath(f.code, q, k);
    PickedWithin(f, q[k], sel);
    BuildOperands(ActionAt(f, q[k]));
    PartSlotIs(f, q[..k + 1], sel);
    TopIs(run[k].stack, ActionAt(f, q[k]).n, Picked(f, q[k], sel).value);
    TracksSlot(f, policy, q, run, k, PartSlot(f, q[..k + 1], sel).value);
  }

  lemma PickedWithin(f: Body, site: nat, sel: Selector)
    requires site < |f.code| && ActionAt(f, site).Build? && Picked(f, site, sel).Some?
    ensures Picked(f, site, sel).value < ActionAt(f, site).n
  {
  }

  lemma BuildOperands(a: Action)
    ensures a.Build? ==> Operands(a) == a.n
  {
  }

  lemma PartSlotIs(f: Body, r: Path, sel: Selector)
    requires IsPath(f.code, r)
    ensures var i, n, depth := Picked(f, Last(r), sel), Operands(ActionAt(f, Last(r))), |PathState(f, r).stack|;
            PartSlot(f, r, sel) == if i.Some? && i.value < n <= depth then Some(depth - n + i.value) else None
  {
    hide PathState, Picked, Abstracts, Operands, IsPath;
  }

  lemma TopIs(stack: seq<Val>, n: nat, i: nat)
    requires i < n <= |stack|
    ensures |Top(stack, n)| == n && Top(stack, n)[i] == stack[|stack| - n + i]
  {
  }

  // ---- one more step ----

  /** A slot that is not the result of a read. */
  lemma CopiedTracked(f: Body, q: Path, run: seq<Frame>, t: Frame, src: Source, v: Val)
    requires IsPath(f.code, q) && IsPath(f.code, q + [t.pc]) && |run| == |q|
    requires TrackedAt(f, q, run, run[|q| - 1]) && run[|q| - 1].gone <= t.gone
    requires var s := run[|q| - 1];
             && !Reading(BehaviourAt(f, Last(q)), |s.stack|, src)
             && Flows(Copied(BehaviourAt(f, Last(q)), |s.stack|, src), s, t.gone, v)
    ensures Tracked(f, q + [t.pc], run + [t], t.gone, src, v)
  {
    OriginNext(f, q, t.pc, src);
    var s := run[|q| - 1];
    var from := Copied(BehaviourAt(f, Last(q)), |s.stack|, src);
    hide PathState, Origin, Copied, Reading, IsPath, Closed;
    match from
    case FromStack(i) => assert Tracked(f, q, run, s.gone, from, s.stack[i]);
    case FromLocal(i) => assert Tracked(f, q, run, s.gone, from, s.locals[i]);
    case _ =>
  }

  /** The result of a read. */
  lemma ReadTracked(f: Body, policy: Policy, q: Path, run: seq<Frame>, t: Frame, v: Val)
    requires Tracks(f, policy, q, run) && IsPath(f.code, q + [t.pc])
    requires var s, b := run[|q| - 1], BehaviourAt(f, Last(q));
             && b.Projects? && s.stack != [] && s.gone <= t.gone && PartOf(f, s, s.stack[|s.stack| - 1], b.sel, v)
    ensures Tracked(f, q + [t.pc], run + [t], t.gone, FromStack(|run[|q| - 1].stack| - 1), v)
    ensures ReadPasses(f, q, BehaviourAt(f, Last(q)).sel, Origin(f, q, FromStack(|run[|q| - 1].stack| - 1)))
    ensures v.Ref? ==> v.id < |run[|q| - 1].heap|
  {
    hide *;
    TracksEnd(f, policy, q, run);
    PathStarts(f.code, q);
    var s, b := run[|q| - 1], BehaviourAt(f, Last(q));
    var src := FromStack(|s.stack| - 1);
    TopTracked(f, q, run, s);
    ReadingTop(f, q, s, b);
    OriginNext(f, q, t.pc, src);
    var k := Origin(f, q, src);
    if k.Some? {
      OriginBuilds(f, q, src);
      PathWithin(f.code, q, k.value);
      PickedOfOrigin(f, policy, q, run, k.value, b.sel, v);
      PartThere(f, policy, q, run, k.value, b.sel);
      GoneGrowing(f, policy, run, k.value, |q| - 1);
      PartTracked(f, q[..k.value + 1], q + [t.pc], run, t, FromStack(PartSlot(f, q[..k.value + 1], b.sel).value), src, k.value, v);
      PartWithin(s, |run[k.value].heap|, Picked(f, q[k.value], b.sel).value);
    } else {
      LoosePart(f, s, s.stack[|s.stack| - 1], b.sel, v);
      LooseTracked(f, q + [t.pc], run + [t], s.gone, t.gone, src, v);
    }
    ReadPassesIs(f, q, b.sel, k);
  }

  lemma ReadPassesIs(f: Body, p: Path, sel: Selector, k: Option<nat>)
    requires IsPath(f.code, p)
    ensures ReadPasses(f, p, sel, k) <==> (k.Some? && k.value < |p| ==> Picked(f, p[k.value], sel).Some?)
  {
  }

  lemma PathWithin(code: Code, p: Path, k: nat)
    requires IsPath(code, p) && k < |p|
    ensures p[k] < |code|
  {
  }

  lemma ReadingTop(f: Body, q: Path, s: Frame, b: Behaviour)
    requires IsPath(f.code, q) && |s.stack| == |PathState(f, q).stack| > 0 && b.Projects?
    ensures Reading(b, |PathState(f, q).stack|, FromStack(|s.stack| - 1))
  {
    hide PathState;
  }

  lemma TopTracked(f: Body, q: Path, run: seq<Frame>, s: Frame)
    requires IsPath(f.code, q) && |q| == |run| && TrackedAt(f, q, run, s) && s.stack != []
    ensures |s.stack| == |PathState(f, q).stack| && Last(q) < |f.code| && Closed(s.heap, s.gone)
    ensures var v, k := s.stack[|s.stack| - 1], Origin(f, q, FromStack(|s.stack| - 1));
            (k.Some? ==> v == Ref(|run[k.value].heap|)) && (k.None? ==> Loose(v, s.gone))
  {
    hide PathState, Origin, Closed;
    assert Tracked(f, q, run, s.gone, FromStack(|s.stack| - 1), s.stack[|s.stack| - 1]);
  }

  /** A read of an aggregate built here selects a part that is there. */
  lemma PickedOfOrigin(f: Body, policy: Policy, q: Path, run: seq<Frame>, k: nat, sel: Selector, v: Val)
    requires Tracks(f, policy, q, run) && k + 1 < |q| && q[k] < |f.code| && ActionAt(f, q[k]).Build?
    requires var s := run[|q| - 1];
             s.stack != [] && s.stack[|s.stack| - 1] == Ref(|run[k].heap|) && PartOf(f, s, s.stack[|s.stack| - 1], sel, v)
    ensures Picked(f, q[k], sel).Some?
    ensures var s, i := run[|q| - 1], Picked(f, q[k], sel).value;
            |run[k].heap| < |s.heap| && i < |s.heap[|run[k].heap|].fields| && v == s.heap[|run[k].heap|].fields[i]
  {
    hide *;
    TracksEnd(f, policy, q, run);
    BuiltThere(f, policy, q, run, k);
    PartIs(f, run[|q| - 1], |run[k].heap|, sel, v);
  }

  lemma PartIs(f: Body, s: Frame, id: nat, sel: Selector, v: Val)
    requires id < |s.heap| && PartOf(f, s, Ref(id), sel, v)
    ensures var i := Picked(f, s.heap[id].site, sel);
            i.Some? && i.value < |s.heap[id].fields| && v == s.heap[id].fields[i.value]
  {
    hide Picked;
  }

  lemma PartTracked(f: Body, r: Path, p: Path, run: seq<Frame>, t: Frame, slot: Source, src: Source, k: nat, v: Val)
    requires IsPath(f.code, r) && IsPath(f.code, p) && |r| == k + 1 < |run| && |p| == |run| + 1
    requires Tracked(f, r, run, run[k].gone, slot, v) && Origin(f, p, src) == Origin(f, r, slot)
    requires run[k].gone <= t.gone
    ensures Tracked(f, p, run + [t], t.gone, src, v)
  {
    hide Origin, IsPath;
  }

  lemma PartWithin(s: Frame, id: nat, i: nat)
    requires Closed(s.heap, s.gone) && id < |s.heap| && i < |s.heap[id].fields|
    ensures s.heap[id].fields[i].Ref? ==> s.heap[id].fields[i].id < |s.heap|
  {
  }

  lemma LoosePart(f: Body, s: Frame, v: Val, sel: Selector, part: Val)
    requires Closed(s.heap, s.gone) && Loose(v, s.gone) && PartOf(f, s, v, sel, part)
    ensures Loose(part, s.gone) && (part.Ref? ==> part.id < |s.heap|)
  {
    hide Picked;
  }

  lemma LooseTracked(f: Body, p: Path, run: seq<Frame>, gone: set<nat>, later: set<nat>, src: Source, v: Val)
    requires IsPath(f.code, p) && |p| <= |run| && Origin(f, p, src) == None && Loose(v, gone) && gone <= later
    ensures Tracked(f, p, run, later, src, v)
  {
    hide Origin, IsPath;
  }

  // ---- what leaves takes its parts along ----

  lemma {:induction false} DeepClosed(heap: seq<Obj>, id: nat)
    requires Closed(heap, {})
    ensures ClosedIn(heap, Deep(heap, id))
    decreases id
  {
    if id < |heap| {
      DeepAllClosed(heap, heap[id].fields, id);
      forall i: nat | i < |heap[id].fields| && heap[id].fields[i].Ref? ensures heap[id].fields[i].id in Deep(heap, id) {
        MemberDeep(heap, heap[id].fields, id, i);
      }
    }
  }

  /** With each aggregate, its parts. */
  ghost predicate ClosedIn(heap: seq<Obj>, ids: set<nat>) {
    && (forall id | id in ids :: id < |heap|)
    && (forall id: nat, i: nat | id in ids && i < |heap[id].fields| && heap[id].fields[i].Ref? :: heap[id].fields[i].id in ids)
  }

  lemma {:induction false} DeepAllClosed(heap: seq<Obj>, vals: seq<Val>, bound: nat)
    requires Closed(heap, {})
    ensures ClosedIn(heap, DeepAll(heap, vals, bound))
    decreases bound, |vals|
  {
    if vals != [] {
      if vals[0].Ref? && vals[0].id < bound { DeepClosed(heap, vals[0].id); }
      DeepAllClosed(heap, vals[1..], bound);
      hide Deep, Closed;
    }
  }

  lemma {:induction false} MemberDeep(heap: seq<Obj>, vals: seq<Val>, bound: nat, i: nat)
    requires i < |vals| && vals[i].Ref? && vals[i].id < bound && vals[i].id < |heap|
    ensures vals[i].id in DeepAll(heap, vals, bound)
    decreases |vals|
  {
    if i > 0 { MemberDeep(heap, vals[1..], bound, i - 1); }
  }

  lemma ClosedSplits(heap: seq<Obj>, gone: set<nat>)
    ensures Closed(heap, gone) <==> Closed(heap, {}) && ClosedIn(heap, gone)
  {
  }

  lemma LeavingClosed(b: Behaviour, policy: Policy, s: Frame)
    requires Closed(s.heap, {})
    ensures ClosedIn(s.heap, Leaving(b, policy, s))
  {
    var n := HandCount(b, policy);
    if n <= |s.stack| { DeepAllClosed(s.heap, Top(s.stack, n), |s.heap|); }
    hide Closed, DeepAll;
  }

  lemma UnionClosed(heap: seq<Obj>, a: set<nat>, b: set<nat>)
    requires ClosedIn(heap, a) && ClosedIn(heap, b)
    ensures ClosedIn(heap, a + b)
  {
  }

  lemma BuiltClosed(heap: seq<Obj>, gone: set<nat>, o: Obj)
    requires Closed(heap, gone) && forall i: nat | i < |o.fields| && o.fields[i].Ref? :: o.fields[i].id < |heap|
    ensures Closed(heap + [o], gone)
  {
    var after := heap + [o];
    forall id: nat, i: nat | id < |after| && i < |after[id].fields| && after[id].fields[i].Ref?
      ensures after[id].fields[i].id < id
    {
      if id < |heap| { assert after[id] == heap[id]; }
    }
    assert forall id | id in gone :: after[id] == heap[id];
  }

  lemma StepClosed(f: Body, policy: Policy, s: Frame, t: Frame)
    requires s.pc < |f.code| && Step(f, policy, s, t) && Closed(s.heap, s.gone)
    requires Known(s)
    ensures Closed(t.heap, t.gone) && s.gone <= t.gone
  {
    var b := BehaviourAt(f, s.pc);
    DoesHas(f, b, policy, s, t);
    DoesHeap(f, b, s, t);
    hide Does, Leaving, Closed;
    assert t.gone == s.gone + Leaving(b, policy, s) by { GoneAfter(f, b, policy, s, t); }
    ClosedSplits(s.heap, s.gone);
    LeavingClosed(b, policy, s);
    UnionClosed(s.heap, s.gone, Leaving(b, policy, s));
    ClosedSplits(s.heap, t.gone);
    if b.Builds? {
      BuiltClosed(s.heap, t.gone, Obj(s.pc, Top(s.stack, b.n)));
    }
  }

  lemma GoneAfter(f: Body, b: Behaviour, policy: Policy, s: Frame, t: Frame)
    requires Does(f, b, policy, s, t)
    ensures t.gone == s.gone + Leaving(b, policy, s)
  {
    hide Leaving;
  }

  // ---- every run follows its origins ----

  function Pcs(run: seq<Frame>): Path {
    seq(|run|, i requires 0 <= i < |run| => run[i].pc)
  }

  lemma StepTracks(f: Body, policy: Policy, q: Path, run: seq<Frame>, t: Frame)
    requires Tracks(f, policy, q, run) && Step(f, policy, run[|run| - 1], t)
    ensures Tracks(f, policy, q + [t.pc], run + [t])
  {
    hide *;
    TracksEnd(f, policy, q, run);
    PathStarts(f.code, q);
    var s, b, p, longer := run[|q| - 1], BehaviourAt(f, Last(q)), q + [t.pc], run + [t];
    TrackedHas(f, q, run, s);
    StepIs(f, policy, q, s, t);
    PathStateExtends(f, q, t.pc);
    HeightAfter(f, q, s, t);
    StepClosed(f, policy, s, t);
    FlowsHas(f, b, s, t);
    ExtendRun(f, policy, run, t);
    forall i: nat | i < |t.stack|
      ensures Tracked(f, p, longer, t.gone, FromStack(i), t.stack[i]) && (t.stack[i].Ref? ==> t.stack[i].id < |t.heap|)
    {
      StackTracks(f, policy, q, run, t, i);
    }
    forall i: nat | i < |t.locals|
      ensures Tracked(f, p, longer, t.gone, FromLocal(i), t.locals[i]) && (t.locals[i].Ref? ==> t.locals[i].id < |t.heap|)
    {
      NoLocalRead(b, |s.stack|, i);
      CopiedTracked(f, q, run, t, FromLocal(i), t.locals[i]);
      FlowsKnown(f, policy, s, t, FromLocal(i), t.locals[i]);
    }
    LastOne(q, t.pc);
    MakeTracked(f, p, longer, t);
    StepPasses(f, policy, q, run, t);
    PossibleNext(f, q, t.pc);
    ExtendTracks(f, policy, q, run, t);
  }

  lemma TrackedHas(f: Body, p: Path, run: seq<Frame>, s: Frame)
    requires IsPath(f.code, p) && |p| <= |run| && TrackedAt(f, p, run, s)
    ensures s.pc == Last(p) && |s.stack| == |PathState(f, p).stack| && |s.locals| == LocalCount(f)
    ensures Known(s) && Closed(s.heap, s.gone)
  {
    hide Origin, PathState, Closed;
  }

  lemma StepIs(f: Body, policy: Policy, q: Path, s: Frame, t: Frame)
    requires IsPath(f.code, q) && s.pc == Last(q) < |f.code| && Step(f, policy, s, t)
    ensures StepFlows(f, BehaviourAt(f, Last(q)), s, t) && Edge(f.code, Last(q), t.pc)
  {
    DoesFlow(f, BehaviourAt(f, s.pc), policy, s, t);
    hide Does, Abstracts, StepFlows;
  }

  lemma HeightAfter(f: Body, q: Path, s: Frame, t: Frame)
    requires IsPath(f.code, q) && Last(q) < |f.code| && |s.stack| == |PathState(f, q).stack|
    requires StepFlows(f, BehaviourAt(f, Last(q)), s, t)
    ensures |StepOut(ActionAt(f, Last(q)), Last(q), PathState(f, q)).stack| == |t.stack|
  {
    FlowsHas(f, BehaviourAt(f, Last(q)), s, t);
    hide Abstracts, PathState, StepOut, StepFlows;
    StepHeight(ActionAt(f, Last(q)), Last(q), PathState(f, q));
  }

  lemma FlowsHas(f: Body, b: Behaviour, s: Frame, t: Frame)
    requires StepFlows(f, b, s, t)
    ensures Operands(Abstracts(b)) <= |s.stack| && LocalsFit(b, |s.locals|)
    ensures |t.stack| == |s.stack| + HeightDelta(Abstracts(b)) && |t.locals| == |s.locals|
    ensures forall j: nat | j < |t.stack| && !Reading(b, |s.stack|, FromStack(j)) ::
              Flows(Copied(b, |s.stack|, FromStack(j)), s, t.gone, t.stack[j])
    ensures forall j: nat | j < |t.locals| :: Flows(Copied(b, |s.stack|, FromLocal(j)), s, t.gone, t.locals[j])
    ensures b.Projects? ==> |t.stack| == |s.stack| > 0 && PartOf(f, s, s.stack[|s.stack| - 1], b.sel, t.stack[|s.stack| - 1])
  {
    hide Flows, Copied, Reading, PartOf;
  }

  lemma NoLocalRead(b: Behaviour, depth: nat, i: nat)
    ensures !Reading(b, depth, FromLocal(i))
  {
  }

  lemma MakeTracked(f: Body, p: Path, run: seq<Frame>, s: Frame)
    requires IsPath(f.code, p) && |p| <= |run| && s.pc == Last(p)
    requires |s.stack| == |PathState(f, p).stack| && |s.locals| == LocalCount(f) && Closed(s.heap, s.gone)
    requires forall i: nat | i < |s.stack| ::
               Tracked(f, p, run, s.gone, FromStack(i), s.stack[i]) && (s.stack[i].Ref? ==> s.stack[i].id < |s.heap|)
    requires forall i: nat | i < |s.locals| ::
               Tracked(f, p, run, s.gone, FromLocal(i), s.locals[i]) && (s.locals[i].Ref? ==> s.locals[i].id < |s.heap|)
    ensures TrackedAt(f, p, run, s)
  {
    hide Tracked, Closed, PathState;
  }

  /** What flows into a slot is in the heap. */
  lemma FlowsKnown(f: Body, policy: Policy, s: Frame, t: Frame, src: Source, v: Val)
    requires s.pc < |f.code| && Step(f, policy, s, t) && Known(s) && Closed(t.heap, t.gone)
    requires Flows(Copied(BehaviourAt(f, s.pc), |s.stack|, src), s, t.gone, v)
    ensures v.Ref? ==> v.id < |t.heap|
  {
    StepHeap(f, policy, s, t);
    FreshIsBuilt(BehaviourAt(f, s.pc), |s.stack|, src);
    hide Step, Copied;
  }

  lemma FreshIsBuilt(b: Behaviour, depth: nat, src: Source)
    ensures Copied(b, depth, src).Fresh? ==> b.Builds?
  {
  }

  lemma StackTracks(f: Body, policy: Policy, q: Path, run: seq<Frame>, t: Frame, i: nat)
    requires Tracks(f, policy, q, run) && Step(f, policy, run[|run| - 1], t)
    requires IsPath(f.code, q + [t.pc]) && i < |t.stack| && Closed(t.heap, t.gone) && run[|run| - 1].gone <= t.gone
    ensures Tracked(f, q + [t.pc], run + [t], t.gone, FromStack(i), t.stack[i])
    ensures t.stack[i].Ref? ==> t.stack[i].id < |t.heap|
  {
    hide *;
    TracksEnd(f, policy, q, run);
    PathStarts(f.code, q);
    var s, b := run[|q| - 1], BehaviourAt(f, Last(q));
    TrackedHas(f, q, run, s);
    StepIs(f, policy, q, s, t);
    FlowsHas(f, b, s, t);
    if Reading(b, |s.stack|, FromStack(i)) {
      ReadingIs(b, |s.stack|, i);
      ReadTracked(f, policy, q, run, t, t.stack[i]);
      StepHeap(f, policy, s, t);
    } else {
      CopiedTracked(f, q, run, t, FromStack(i), t.stack[i]);
      FlowsKnown(f, policy, s, t, FromStack(i), t.stack[i]);
    }
  }

  lemma ReadingIs(b: Behaviour, depth: nat, i: nat)
    ensures Reading(b, depth, FromStack(i)) <==> b.Projects? && depth > 0 && i == depth - 1
  {
  }

  lemma StepPasses(f: Body, policy: Policy, q: Path, run: seq<Frame>, t: Frame)
    requires Tracks(f, policy, q, run) && Step(f, policy, run[|run| - 1], t) && IsPath(f.code, q + [t.pc])
    requires run[|run| - 1].gone <= t.gone
    ensures IsPath(f.code, q) && Passes(f, q)
  {
    hide *;
    TracksEnd(f, policy, q, run);
    PathStarts(f.code, q);
    var s, b := run[|q| - 1], BehaviourAt(f, Last(q));
    TrackedHas(f, q, run, s);
    StepIs(f, policy, q, s, t);
    FlowsHas(f, b, s, t);
    if b.Projects? { ReadTracked(f, policy, q, run, t, t.stack[|s.stack| - 1]); }
    MakePasses(f, q);
  }

  lemma MakePasses(f: Body, p: Path)
    requires IsPath(f.code, p) && Last(p) < |f.code|
    requires var b, depth := BehaviourAt(f, Last(p)), |PathState(f, p).stack|;
             && Operands(Abstracts(b)) <= depth && LocalsFit(b, LocalCount(f))
             && (b.Projects? ==> depth > 0 && ReadPasses(f, p, b.sel, Origin(f, p, FromStack(depth - 1))))
    ensures Passes(f, p)
  {
  }

  lemma ExtendTracks(f: Body, policy: Policy, q: Path, run: seq<Frame>, t: Frame)
    requires Tracks(f, policy, q, run) && IsPath(f.code, q + [t.pc]) && Possible(f, q + [t.pc])
    requires IsRun(f, policy, run + [t]) && TrackedAt(f, q + [t.pc], run + [t], t)
    ensures Tracks(f, policy, q + [t.pc], run + [t])
  {
    hide TrackedAt, IsRun, IsPath, Possible;
    var p, longer := q + [t.pc], run + [t];
    forall k: nat | k < |p| ensures TracksAt(f, p, longer, k) {
      if k < |q| {
        assert p[..k + 1] == q[..k + 1] && TracksAt(f, q, run, k);
        LongerTracked(f, q[..k + 1], run, t, run[k]);
        assert longer[k] == run[k];
      } else {
        assert p[..k + 1] == p && longer[k] == t;
      }
    }
  }

  lemma LongerTracked(f: Body, q: Path, run: seq<Frame>, t: Frame, s: Frame)
    requires IsPath(f.code, q) && |q| <= |run| && TrackedAt(f, q, run, s)
    ensures TrackedAt(f, q, run + [t], s)
  {
    hide PathState, Origin, Closed, Known;
    forall src, v | Tracked(f, q, run, s.gone, src, v) ensures Tracked(f, q, run + [t], s.gone, src, v) {
    }
  }

  lemma StartTracks(f: Body, policy: Policy, s: Frame)
    requires f.code != [] && Start(f, s)
    ensures Tracks(f, policy, [0], [s])
  {
    assert IsPath(f.code, [0]) && [0][..1] == [0];
    assert forall i | 0 <= i < |s.locals| :: s.locals[i] in s.locals;
    assert TracksAt(f, [0], [s], 0);
  }

  /** Every run follows a possible path, and each of its slots holds the aggregate that the path says was built for
      it, or nothing of this activation that is still inside. */
  lemma {:induction false} RunTracks(f: Body, policy: Policy, run: seq<Frame>)
    requires IsRun(f, policy, run)
    ensures Tracks(f, policy, Pcs(run), run)
    decreases |run|
  {
    hide *;
    RunStarts(f, policy, run);
    var n := |run| - 1;
    if n == 0 {
      StartTracks(f, policy, run[0]);
      OnePc(run);
    } else {
      PrefixRun(f, policy, run);
      RunTracks(f, policy, run[..n]);
      PcsLast(run);
      StepTracks(f, policy, Pcs(run[..n]), run[..n], run[n]);
    }
  }

  lemma RunStarts(f: Body, policy: Policy, run: seq<Frame>)
    requires IsRun(f, policy, run)
    ensures |run| > 0 && f.code != [] && Start(f, run[0]) && (forall k | 0 <= k < |run| :: run[k].pc < |f.code|)
  {
    hide Step, Start;
  }

  lemma OnePc(run: seq<Frame>)
    requires |run| == 1
    ensures Pcs(run) == [run[0].pc] && run == [run[0]]
    ensures forall f: Body :: Start(f, run[0]) ==> run[0].pc == 0
  {
  }

  lemma PcsLast(run: seq<Frame>)
    requires |run| > 1
    ensures var n := |run| - 1; Pcs(run) == Pcs(run[..n]) + [run[n].pc] && run == run[..n] + [run[n]] && run[..n][n - 1] == run[n - 1]
  {
  }

  // ---- every possible path has a run ----

  /** The part that is read; of what is not of this activation, nothing. */
  function PartOr(f: Body, s: Frame, v: Val, sel: Selector): Val {
    if v.Ref? && v.id < |s.heap| then
      var i := Picked(f, s.heap[v.id].site, sel);
      if i.Some? && i.value < |s.heap[v.id].fields| then s.heap[v.id].fields[i.value] else Plain
    else Plain
  }

  /** The operands and the local are there, and the part of an aggregate that is read. */
  predicate Ready(f: Body, b: Behaviour, s: Frame) {
    && Operands(Abstracts(b)) <= |s.stack| && LocalsFit(b, |s.locals|)
    && (b.Projects? && s.stack[|s.stack| - 1].Ref? && s.stack[|s.stack| - 1].id < |s.heap| ==>
          var o := s.heap[s.stack[|s.stack| - 1].id];
          Picked(f, o.site, b.sel).Some? && Picked(f, o.site, b.sel).value < |o.fields|)
  }

  /** Results are chosen to be nothing of this activation; the rest is determined. */
  function NextStack(f: Body, b: Behaviour, s: Frame): seq<Val>
    requires Ready(f, b, s)
  {
    match b
    case Produces => s.stack + [Plain]
    case Copies => s.stack + Top(s.stack, 1)
    case Reads(i) => s.stack + [s.locals[i]]
    case Moves(i) => s.stack + [s.locals[i]]
    case Builds(n) => Under(s.stack, n) + [Ref(|s.heap|)]
    case Hands(n) => Under(s.stack, n) + [Plain]
    case Inspects(n) => Under(s.stack, n) + [Plain]
    case Projects(sel) => Under(s.stack, 1) + [PartOr(f, s, s.stack[|s.stack| - 1], sel)]
    case Extends => Under(s.stack, 2) + [Plain]
    case Discards | Writes(_) | Tests(_) => Under(s.stack, 1)
    case _ => s.stack
  }

  function NextLocals(b: Behaviour, s: Frame): seq<Val>
    requires LocalsFit(b, |s.locals|) && (b.Writes? ==> s.stack != [])
  {
    if b.Moves? then s.locals[b.i := Plain]
    else if b.Writes? then s.locals[b.i := s.stack[|s.stack| - 1]]
    else s.locals
  }

  function Next(f: Body, b: Behaviour, policy: Policy, s: Frame, pc: nat): Frame
    requires Ready(f, b, s)
  {
    Frame(pc, NextStack(f, b, s), NextLocals(b, s),
          if b.Builds? then s.heap + [Obj(s.pc, Top(s.stack, b.n))] else s.heap,
          s.gone + Leaving(b, policy, s))
  }

  lemma NextDoes(f: Body, b: Behaviour, policy: Policy, s: Frame, pc: nat)
    requires Ready(f, b, s) && pc in StepSuccs(Abstracts(b), s.pc)
    ensures Does(f, b, policy, s, Next(f, b, policy, s, pc))
  {
    hide *;
    var t := Next(f, b, policy, s, pc);
    NextHas(f, b, policy, s, pc);
    GoesToSuccessor(b, s.pc, pc);
    if b.Projects? {
      NextReads(f, b, s, t);
    } else if b.Hands? || b.Inspects? {
      NextResults(f, b, s, t);
    } else {
      NextMoves(f, b, s, t);
    }
    MakeDoes(f, b, policy, s, t);
  }

  lemma NextHas(f: Body, b: Behaviour, policy: Policy, s: Frame, pc: nat)
    requires Ready(f, b, s)
    ensures var t := Next(f, b, policy, s, pc);
            && t.pc == pc && t.stack == NextStack(f, b, s) && t.gone == s.gone + Leaving(b, policy, s)
            && Allocates(b, s, t) && Assigns(b, s, t)
  {
    hide Leaving, NextStack, Picked;
  }

  lemma MakeDoes(f: Body, b: Behaviour, policy: Policy, s: Frame, t: Frame)
    requires t.gone == s.gone + Leaving(b, policy, s) && Allocates(b, s, t) && Assigns(b, s, t) && Executes(f, b, s, t)
    ensures Does(f, b, policy, s, t)
  {
    hide Leaving, Allocates, Assigns, Executes;
  }

  predicate GoesTo(b: Behaviour, from: nat, pc: nat) {
    match b
    case Jumps(off) => pc == from + 1 + off
    case Tests(off) => pc == from + 1 || pc == from + 1 + off
    case Returns | Aborts | TailHands(_) => false
    case _ => pc == from + 1
  }

  lemma GoesToSuccessor(b: Behaviour, from: nat, pc: nat)
    requires pc in StepSuccs(Abstracts(b), from)
    ensures GoesTo(b, from, pc)
  {
  }

  lemma NextReads(f: Body, b: Behaviour, s: Frame, t: Frame)
    requires b.Projects? && Ready(f, b, s) && GoesTo(b, s.pc, t.pc) && t.stack == NextStack(f, b, s) && s.gone <= t.gone
    ensures Executes(f, b, s, t)
  {
    hide Picked;
    var v := s.stack[|s.stack| - 1];
    assert PartOf(f, s, v, b.sel, PartOr(f, s, v, b.sel));
  }

  lemma NextResults(f: Body, b: Behaviour, s: Frame, t: Frame)
    requires Ready(f, b, s) && GoesTo(b, s.pc, t.pc) && t.stack == NextStack(f, b, s) && (b.Hands? || b.Inspects?)
    ensures Executes(f, b, s, t)
  {
    hide PartOf, Picked;
    assert Loose(Plain, t.gone);
  }

  lemma NextMoves(f: Body, b: Behaviour, s: Frame, t: Frame)
    requires Ready(f, b, s) && GoesTo(b, s.pc, t.pc) && t.stack == NextStack(f, b, s)
    requires !b.Projects? && !b.Hands? && !b.Inspects?
    ensures Executes(f, b, s, t)
  {
    hide PartOf, Loose, Picked, Under, Top;
  }

  /** Where nothing flows from, there is nothing of this activation. */
  lemma NextPlain(f: Body, b: Behaviour, policy: Policy, s: Frame, pc: nat)
    requires Ready(f, b, s) && pc in StepSuccs(Abstracts(b), s.pc)
    ensures var t, depth := Next(f, b, policy, s, pc), |s.stack|;
            && (forall j: nat | j < |t.stack| && !Reading(b, depth, FromStack(j)) && Copied(b, depth, FromStack(j)).Nothing? ::
                  t.stack[j] == Plain)
            && (forall j: nat | j < |t.locals| && Copied(b, depth, FromLocal(j)).Nothing? :: t.locals[j] == Plain)
            && (b.Projects? ==> |t.stack| == depth > 0 && t.stack[depth - 1] == PartOr(f, s, s.stack[depth - 1], b.sel))
  {
    GoesToSuccessor(b, s.pc, pc);
    NextPlainStack(f, b, s, pc);
    NextPlainLocals(f, b, s);
    hide Leaving, PartOr, Picked, Copied, NextStack, NextLocals, Ready, Reading;
  }

  lemma NextPlainStack(f: Body, b: Behaviour, s: Frame, pc: nat)
    requires Ready(f, b, s) && GoesTo(b, s.pc, pc)
    ensures var stack, depth := NextStack(f, b, s), |s.stack|;
            && (forall j: nat | j < |stack| && !Reading(b, depth, FromStack(j)) && Copied(b, depth, FromStack(j)).Nothing? ::
                  stack[j] == Plain)
            && (b.Projects? ==> |stack| == depth > 0 && stack[depth - 1] == PartOr(f, s, s.stack[depth - 1], b.sel))
  {
    var stack, depth := NextStack(f, b, s), |s.stack|;
    forall j: nat | j < |stack| && !Reading(b, depth, FromStack(j)) && Copied(b, depth, FromStack(j)).Nothing?
      ensures stack[j] == Plain
    {
      NextStackHeight(f, b, s, pc);
      NothingCopied(b, s.pc, pc, depth, j);
      NextStackPast(f, b, s, j);
    }
    if b.Projects? { NextStackRead(f, b, s); }
    hide *;
  }

  lemma NextStackHeight(f: Body, b: Behaviour, s: Frame, pc: nat)
    requires Ready(f, b, s) && GoesTo(b, s.pc, pc)
    ensures |NextStack(f, b, s)| == |s.stack| + HeightDelta(Abstracts(b)) && Operands(Abstracts(b)) <= |s.stack|
  {
    hide PartOr, Picked;
  }

  lemma NextStackRead(f: Body, b: Behaviour, s: Frame)
    requires Ready(f, b, s) && b.Projects?
    ensures s.stack != [] && |NextStack(f, b, s)| == |s.stack|
    ensures NextStack(f, b, s)[|s.stack| - 1] == PartOr(f, s, s.stack[|s.stack| - 1], b.sel)
  {
    hide PartOr, Picked;
  }

  /** What is copied from nowhere is a result, past the operands. */
  lemma NothingCopied(b: Behaviour, from: nat, pc: nat, depth: nat, j: nat)
    requires GoesTo(b, from, pc) && Operands(Abstracts(b)) <= depth && Copied(b, depth, FromStack(j)).Nothing?
    requires j < depth + HeightDelta(Abstracts(b))
    ensures j >= depth - Operands(Abstracts(b)) && !b.Copies? && !b.Reads? && !b.Moves? && !b.Builds?
  {
  }

  lemma NextStackPast(f: Body, b: Behaviour, s: Frame, j: nat)
    requires Ready(f, b, s) && j >= |s.stack| - Operands(Abstracts(b)) && !b.Copies? && !b.Reads? && !b.Moves? && !b.Builds?
    requires !b.Returns? && !b.TailHands? && j < |NextStack(f, b, s)| && !Reading(b, |s.stack|, FromStack(j))
    ensures NextStack(f, b, s)[j] == Plain
  {
    hide PartOr, Picked;
  }

  lemma NextPlainLocals(f: Body, b: Behaviour, s: Frame)
    requires Ready(f, b, s)
    ensures LocalsFit(b, |s.locals|) && (b.Writes? ==> s.stack != [])
    ensures var locals, depth := NextLocals(b, s), |s.stack|;
            forall j: nat | j < |locals| && Copied(b, depth, FromLocal(j)).Nothing? :: locals[j] == Plain
  {
    hide Picked, Kept;
  }

  /** A slot without an origin holds nothing of this activation, gone or not. */
  ghost predicate CleanAt(f: Body, p: Path, s: Frame)
    requires IsPath(f.code, p)
  {
    && (forall i: nat | i < |s.stack| && Origin(f, p, FromStack(i)).None? :: s.stack[i] == Plain)
    && (forall i: nat | i < |s.locals| && Origin(f, p, FromLocal(i)).None? :: s.locals[i] == Plain)
  }

  ghost predicate Clean(f: Body, p: Path, run: seq<Frame>)
    requires IsPath(f.code, p) && |p| == |run|
  {
    forall k: nat | k < |p| :: CleansAt(f, p, run, k)
  }

  ghost predicate CleansAt(f: Body, p: Path, run: seq<Frame>, k: nat)
    requires k < |p| == |run|
  {
    IsPath(f.code, p[..k + 1]) && CleanAt(f, p[..k + 1], run[k])
  }

  lemma CleanSlot(f: Body, p: Path, run: seq<Frame>, k: nat, i: nat)
    requires IsPath(f.code, p) && |p| == |run| && Clean(f, p, run) && k < |p| && i < |run[k].stack|
    ensures IsPath(f.code, p[..k + 1]) && (Origin(f, p[..k + 1], FromStack(i)).None? ==> run[k].stack[i] == Plain)
  {
    hide Origin, IsPath;
    assert CleansAt(f, p, run, k);
  }

  lemma CleanEnd(f: Body, p: Path, run: seq<Frame>)
    requires IsPath(f.code, p) && |p| == |run| && Clean(f, p, run)
    ensures CleanAt(f, p, run[|p| - 1])
  {
    hide Origin, CleanAt;
    assert CleansAt(f, p, run, |p| - 1) && p[..|p| - 1 + 1] == p;
  }

  /** A passing path's run is ready for the next instruction. */
  lemma ReadyAt(f: Body, policy: Policy, q: Path, run: seq<Frame>)
    requires Tracks(f, policy, q, run) && IsPath(f.code, q) && |q| == |run| && Clean(f, q, run) && Passes(f, q)
    ensures Last(q) < |f.code| && Ready(f, BehaviourAt(f, Last(q)), run[|q| - 1])
  {
    hide *;
    TracksEnd(f, policy, q, run);
    PathStarts(f.code, q);
    var s, b := run[|q| - 1], BehaviourAt(f, Last(q));
    TrackedHas(f, q, run, s);
    PassesHas(f, q);
    if b.Projects? {
      TopTracked(f, q, run, s);
      CleanEnd(f, q, run);
      CleanTop(f, q, s);
      var k := Origin(f, q, FromStack(|s.stack| - 1));
      if k.Some? {
        OriginBuilds(f, q, FromStack(|s.stack| - 1));
        PathWithin(f.code, q, k.value);
        ReadPassesIs(f, q, b.sel, k);
        PartThere(f, policy, q, run, k.value, b.sel);
      }
    }
    MakeReady(f, b, s);
  }

  lemma PassesHas(f: Body, p: Path)
    requires IsPath(f.code, p) && Passes(f, p)
    ensures Last(p) < |f.code|
    ensures var b, depth := BehaviourAt(f, Last(p)), |PathState(f, p).stack|;
            && Operands(Abstracts(b)) <= depth && LocalsFit(b, LocalCount(f))
            && (b.Projects? ==> depth > 0 && ReadPasses(f, p, b.sel, Origin(f, p, FromStack(depth - 1))))
  {
    hide PathState, Origin;
  }

  lemma CleanTop(f: Body, p: Path, s: Frame)
    requires IsPath(f.code, p) && CleanAt(f, p, s) && s.stack != []
    ensures Origin(f, p, FromStack(|s.stack| - 1)).None? ==> s.stack[|s.stack| - 1] == Plain
  {
    hide Origin, IsPath;
  }

  lemma MakeReady(f: Body, b: Behaviour, s: Frame)
    requires Operands(Abstracts(b)) <= |s.stack| && LocalsFit(b, |s.locals|)
    requires b.Projects? && s.stack != [] && s.stack[|s.stack| - 1].Ref? && s.stack[|s.stack| - 1].id < |s.heap| ==>
               var o := s.heap[s.stack[|s.stack| - 1].id];
               Picked(f, o.site, b.sel).Some? && Picked(f, o.site, b.sel).value < |o.fields|
    ensures Ready(f, b, s)
  {
    hide Picked;
  }

  lemma NextClean(f: Body, policy: Policy, q: Path, run: seq<Frame>, pc: nat)
    requires Tracks(f, policy, q, run) && IsPath(f.code, q) && |q| == |run| && Clean(f, q, run) && Passes(f, q)
    requires Last(q) < |f.code| && IsPath(f.code, q + [pc]) && pc in StepSuccs(Abstracts(BehaviourAt(f, Last(q))), Last(q))
    requires Ready(f, BehaviourAt(f, Last(q)), run[|q| - 1])
    ensures CleanAt(f, q + [pc], Next(f, BehaviourAt(f, Last(q)), policy, run[|q| - 1], pc))
  {
    hide *;
    TracksEnd(f, policy, q, run);
    var s, b := run[|q| - 1], BehaviourAt(f, Last(q));
    var t := Next(f, b, policy, s, pc);
    TrackedHas(f, q, run, s);
    CleanEnd(f, q, run);
    NextPlain(f, b, policy, s, pc);
    NextDoes(f, b, policy, s, pc);
    DoesFlow(f, b, policy, s, t);
    FlowsHas(f, b, s, t);
    forall i: nat | i < |t.stack| && Origin(f, q + [pc], FromStack(i)).None? ensures t.stack[i] == Plain {
      if Reading(b, |s.stack|, FromStack(i)) {
        ReadingIs(b, |s.stack|, i);
        ReadClean(f, policy, q, run, pc);
      } else {
        CopiedClean(f, q, s, t, pc, FromStack(i), t.stack[i]);
      }
    }
    forall i: nat | i < |t.locals| && Origin(f, q + [pc], FromLocal(i)).None? ensures t.locals[i] == Plain {
      NoLocalRead(b, |s.stack|, i);
      CopiedClean(f, q, s, t, pc, FromLocal(i), t.locals[i]);
    }
    MakeClean(f, q + [pc], t);
  }

  lemma MakeClean(f: Body, p: Path, s: Frame)
    requires IsPath(f.code, p)
    requires forall i: nat | i < |s.stack| && Origin(f, p, FromStack(i)).None? :: s.stack[i] == Plain
    requires forall i: nat | i < |s.locals| && Origin(f, p, FromLocal(i)).None? :: s.locals[i] == Plain
    ensures CleanAt(f, p, s)
  {
    hide Origin, IsPath;
  }

  lemma CopiedClean(f: Body, q: Path, s: Frame, t: Frame, pc: nat, src: Source, v: Val)
    requires IsPath(f.code, q) && IsPath(f.code, q + [pc]) && CleanAt(f, q, s)
    requires Last(q) < |f.code| && |s.stack| == |PathState(f, q).stack| && !Reading(BehaviourAt(f, Last(q)), |s.stack|, src)
    requires var from := Copied(BehaviourAt(f, Last(q)), |s.stack|, src);
             Flows(from, s, t.gone, v) && (from.Nothing? ==> v == Plain)
    ensures Origin(f, q + [pc], src).None? ==> v == Plain
  {
    OriginNext(f, q, pc, src);
    hide PathState, Origin, Copied, Reading, IsPath;
  }

  lemma ReadClean(f: Body, policy: Policy, q: Path, run: seq<Frame>, pc: nat)
    requires Tracks(f, policy, q, run) && IsPath(f.code, q) && |q| == |run| && Clean(f, q, run) && Passes(f, q)
    requires IsPath(f.code, q + [pc]) && Last(q) < |f.code| && BehaviourAt(f, Last(q)).Projects? && run[|q| - 1].stack != []
    ensures var s, b := run[|q| - 1], BehaviourAt(f, Last(q));
            Origin(f, q + [pc], FromStack(|s.stack| - 1)).None? ==> PartOr(f, s, s.stack[|s.stack| - 1], b.sel) == Plain
  {
    hide *;
    TracksEnd(f, policy, q, run);
    var s, b := run[|q| - 1], BehaviourAt(f, Last(q));
    var src := FromStack(|s.stack| - 1);
    TopTracked(f, q, run, s);
    CleanEnd(f, q, run);
    CleanTop(f, q, s);
    PassesHas(f, q);
    ReadingTop(f, q, s, b);
    OriginNext(f, q, pc, src);
    var k := Origin(f, q, src);
    if k.Some? {
      OriginBuilds(f, q, src);
      PathWithin(f.code, q, k.value);
      ReadPassesIs(f, q, b.sel, k);
      PartThere(f, policy, q, run, k.value, b.sel);
      CleanSlot(f, q, run, k.value, PartSlot(f, q[..k.value + 1], b.sel).value);
    }
    PartOrIs(f, s, s.stack[|s.stack| - 1], b.sel);
  }

  lemma PartOrIs(f: Body, s: Frame, v: Val, sel: Selector)
    ensures v == Plain ==> PartOr(f, s, v, sel) == Plain
    ensures v.Ref? && v.id < |s.heap| && Picked(f, s.heap[v.id].site, sel).Some?
            && Picked(f, s.heap[v.id].site, sel).value < |s.heap[v.id].fields| ==>
              PartOr(f, s, v, sel) == s.heap[v.id].fields[Picked(f, s.heap[v.id].site, sel).value]
  {
    hide Picked;
  }

  lemma StartRun(f: Body, policy: Policy) returns (run: seq<Frame>)
    requires f.code != []
    ensures IsPath(f.code, [0]) && Tracks(f, policy, [0], run) && |run| == 1 && Clean(f, [0], run)
  {
    var s := Frame(0, [], seq(LocalCount(f), _ => Plain), [], {});
    run := [s];
    StartTracks(f, policy, s);
    assert IsPath(f.code, [0]) && [0][..1] == [0];
    assert CleansAt(f, [0], run, 0);
  }

  /** Every possible path is that of some run. */
  lemma {:induction false} RunAlong(f: Body, policy: Policy, p: Path) returns (run: seq<Frame>)
    requires IsPath(f.code, p) && Possible(f, p)
    ensures Tracks(f, policy, p, run) && |run| == |p| && Clean(f, p, run)
    decreases |p|
  {
    hide *;
    PathStarts(f.code, p);
    if |p| == 1 {
      assert p == [0];
      run := StartRun(f, policy);
    } else {
      PathPrefix(f.code, p);
      var q, next := p[..|p| - 1], Last(p);
      SplitLast(p);
      PossibleNext(f, q, next);
      var before := RunAlong(f, policy, q);
      ReadyAt(f, policy, q, before);
      TracksEnd(f, policy, q, before);
      var t := Next(f, BehaviourAt(f, Last(q)), policy, before[|q| - 1], next);
      run := before + [t];
      NextStep(f, policy, q, before[|q| - 1], next);
      StepTracks(f, policy, q, before, t);
      NextClean(f, policy, q, before, next);
      ExtendClean(f, q, before, t, next);
    }
  }

  lemma NextStep(f: Body, policy: Policy, q: Path, s: Frame, next: nat)
    requires IsPath(f.code, q) && Edge(f.code, Last(q), next) && s.pc == Last(q)
    requires Ready(f, BehaviourAt(f, Last(q)), s)
    ensures next in StepSuccs(Abstracts(BehaviourAt(f, Last(q))), Last(q))
    ensures var t := Next(f, BehaviourAt(f, Last(q)), policy, s, next); Step(f, policy, s, t) && t.pc == next
  {
    hide Abstracts, Does, NextStack, NextLocals, Ready, Leaving;
    NextDoes(f, BehaviourAt(f, Last(q)), policy, s, next);
  }

  lemma ExtendClean(f: Body, q: Path, before: seq<Frame>, t: Frame, next: nat)
    requires IsPath(f.code, q) && |q| == |before| && Clean(f, q, before)
    requires IsPath(f.code, q + [next]) && CleanAt(f, q + [next], t)
    ensures Clean(f, q + [next], before + [t])
  {
    hide CleanAt, IsPath;
    var p, run := q + [next], before + [t];
    forall k: nat | k < |p| ensures CleansAt(f, p, run, k) {
      if k < |q| {
        assert p[..k + 1] == q[..k + 1] && CleansAt(f, q, before, k) && run[k] == before[k];
      } else {
        assert p[..k + 1] == p && run[k] == t;
      }
    }
  }

  ghost predicate RunsAlong(f: Body, policy: Policy, p: Path)
  {
    exists run :: IsRun(f, policy, run) && Pcs(run) == p
  }

  lemma TracksPcs(f: Body, policy: Policy, p: Path, run: seq<Frame>)
    requires Tracks(f, policy, p, run)
    ensures Pcs(run) == p
  {
    hide IsRun, Origin, PathState, Possible, Closed, Tracked;
    forall k: nat | k < |p| ensures run[k].pc == p[k] {
      assert TracksAt(f, p, run, k) && Last(p[..k + 1]) == p[k];
    }
  }

  /** The paths runs take are exactly the possible ones. */
  lemma PossibleExactly(f: Body, policy: Policy, p: Path)
    ensures RunsAlong(f, policy, p) <==> IsPath(f.code, p) && Possible(f, p)
  {
    hide IsRun, IsPath, Possible, Tracks;
    if RunsAlong(f, policy, p) {
      var run :| IsRun(f, policy, run) && Pcs(run) == p;
      RunTracks(f, policy, run);
      TracksEnd(f, policy, p, run);
    }
    if IsPath(f.code, p) && Possible(f, p) {
      var run := RunAlong(f, policy, p);
      TracksEnd(f, policy, p, run);
      TracksPcs(f, policy, p, run);
    }
  }
}
