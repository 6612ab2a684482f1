/** Which functions hand over an aggregate whose site does not escape, exactly. */
module EscapeLeaves {
  import opened Options
  import opened Bodies
  import opened EscapeStep
  import opened EscapePaths
  import opened FrameMachine
  import opened EscapeSoundness
  import opened EscapeOrigins

  // ---- what is inside what, along a path ----

  /** The step that built the `i`-th part of what step `j` built. */
  ghost function PartAt(f: Body, p: Path, j: nat, i: nat): (k: Option<nat>)
    requires IsPath(f.code, p) && j < |p|
    ensures k.Some? ==> k.value < j
  {
    PrefixPath(f.code, p, j);
    var r := p[..j + 1];
    var a, depth := ActionAt(f, Last(r)), |PathState(f, r).stack|;
    if a.Build? && i < a.n <= depth then Origin(f, r, FromStack(depth - a.n + i)) else None
  }

  /** What step `k` built is what step `j` built, or inside it at some depth. */
  ghost predicate Inside(f: Body, p: Path, j: nat, k: nat)
    requires IsPath(f.code, p) && j < |p|
    decreases j
  {
    j == k || exists i: nat :: PartAt(f, p, j, i).Some? && Inside(f, p, PartAt(f, p, j, i).value, k)
  }

  /** The instruction at the end of the path hands over what step `k` built, alone or inside something else. */
  ghost predicate Leaves(f: Body, policy: Policy, p: Path, k: nat)
    requires IsPath(f.code, p)
  {
    var n, depth := HandCount(BehaviourAt(f, Last(p)), policy), |PathState(f, p).stack|;
    n <= depth && exists i: nat | depth - n <= i < depth ::
      Origin(f, p, FromStack(i)).Some? && Inside(f, p, Origin(f, p, FromStack(i)).value, k)
  }

  /** Along some possible path an aggregate leaves whose site does not escape. */
  ghost predicate LetsGo(f: Body, policy: Policy)
  {
    exists p, k :: LetsGoAlong(f, policy, p, k)
  }

  ghost predicate LetsGoAlong(f: Body, policy: Policy, p: Path, k: nat)
  {
    IsPath(f.code, p) && Possible(f, p) && k + 1 < |p| && Leaves(f, policy, p, k) && !Escapes(f, policy, p[k])
  }

  /** At the end of the run an aggregate leaves or has left that was built at a site that does not escape. */
  ghost predicate HandsCleared(f: Body, policy: Policy, run: seq<Frame>)
    requires |run| > 0 && run[|run| - 1].pc < |f.code|
  {
    var s := run[|run| - 1];
    exists id | id in s.gone + Leaving(BehaviourAt(f, s.pc), policy, s) ::
      id < |s.heap| && !Escapes(f, policy, s.heap[id].site)
  }

  ghost predicate SomeRunHands(f: Body, policy: Policy)
  {
    exists run :: RunHands(f, policy, run)
  }

  ghost predicate RunHands(f: Body, policy: Policy, run: seq<Frame>)
  {
    IsRun(f, policy, run) && HandsCleared(f, policy, run)
  }

  // ---- the heap holds what the path says ----

  lemma {:induction false} DeepAllMember(heap: seq<Obj>, vals: seq<Val>, bound: nat, id: nat) returns (i: nat)
    requires id in DeepAll(heap, vals, bound)
    ensures i < |vals| && vals[i].Ref? && vals[i].id < bound && id in Deep(heap, vals[i].id)
    decreases |vals|
  {
    if vals[0].Ref? && vals[0].id < bound && id in Deep(heap, vals[0].id) {
      i := 0;
    } else {
      i := DeepAllMember(heap, vals[1..], bound, id);
      i := i + 1;
    }
  }

  lemma {:induction false} DeepInAll(heap: seq<Obj>, vals: seq<Val>, bound: nat, i: nat, id: nat)
    requires i < |vals| && vals[i].Ref? && vals[i].id < bound && id in Deep(heap, vals[i].id)
    ensures id in DeepAll(heap, vals, bound)
    decreases |vals|
  {
    if i > 0 { DeepInAll(heap, vals[1..], bound, i - 1, id); }
  }

  lemma {:induction false} DeepInGone(heap: seq<Obj>, gone: set<nat>, id: nat)
    requires Closed(heap, gone) && id in gone
    ensures Deep(heap, id) <= gone
    decreases id
  {
    forall x | x in DeepAll(heap, heap[id].fields, id) ensures x in gone {
      var i := DeepAllMember(heap, heap[id].fields, id, x);
      DeepInGone(heap, gone, heap[id].fields[i].id);
    }
  }

  /** The `i`-th part of what step `j` built, in the heap at the end. */
  lemma PartsMatch(f: Body, policy: Policy, p: Path, run: seq<Frame>, j: nat, i: nat)
    requires Tracks(f, policy, p, run) && j + 1 < |p| && p[j] < |f.code| && ActionAt(f, p[j]).Build?
    ensures IsPath(f.code, p) && |run| == |p|
    ensures var end, id, k := run[|run| - 1], |run[j].heap|, PartAt(f, p, j, i);
            && id < |end.heap| && end.heap[id].site == p[j] && |end.heap[id].fields| == ActionAt(f, p[j]).n
            && (k.Some? ==> i < |end.heap[id].fields| && end.heap[id].fields[i] == Ref(|run[k.value].heap|))
            && (k.None? && i < |end.heap[id].fields| ==> Loose(end.heap[id].fields[i], end.gone))
    ensures PartAt(f, p, j, i).Some? ==> p[PartAt(f, p, j, i).value] < |f.code| && ActionAt(f, p[PartAt(f, p, j, i).value]).Build?
  {
    hide *;
    TracksEnd(f, policy, p, run);
    BuiltThere(f, policy, p, run, j);
    PrefixPath(f.code, p, j);
    PartAtIs(f, p, j, i);
    var n, r := ActionAt(f, p[j]).n, p[..j + 1];
    TopLength(run[j].stack, n);
    if i < n {
      var slot := |run[j].stack| - n + i;
      TopIs(run[j].stack, n, i);
      TracksSlot(f, policy, p, run, j, slot);
      TrackedIs(f, r, run, run[j].gone, FromStack(slot), run[j].stack[slot]);
      GoneGrowing(f, policy, run, j, |p| - 1);
      LooseLater(run[j].stack[slot], run[j].gone, run[|p| - 1].gone);
      if Origin(f, r, FromStack(slot)).Some? {
        OriginBuilds(f, r, FromStack(slot));
        PathWithin(f.code, p, Origin(f, r, FromStack(slot)).value);
        assert r[Origin(f, r, FromStack(slot)).value] == p[Origin(f, r, FromStack(slot)).value];
      }
    }
  }

  lemma TopLength(stack: seq<Val>, n: nat)
    requires n <= |stack|
    ensures |Top(stack, n)| == n
  {
  }

  lemma LooseLater(v: Val, gone: set<nat>, later: set<nat>)
    requires gone <= later
    ensures Loose(v, gone) ==> Loose(v, later)
  {
  }

  lemma TrackedIs(f: Body, p: Path, run: seq<Frame>, gone: set<nat>, src: Source, v: Val)
    requires IsPath(f.code, p) && |p| <= |run| && Tracked(f, p, run, gone, src, v)
    ensures var k := Origin(f, p, src);
            (k.Some? ==> v == Ref(|run[k.value].heap|)) && (k.None? ==> Loose(v, gone))
  {
    hide Origin, IsPath;
  }

  lemma PartAtIs(f: Body, p: Path, j: nat, i: nat)
    requires IsPath(f.code, p) && j < |p| && IsPath(f.code, p[..j + 1]) && p[j] < |f.code|
    ensures var r, a := p[..j + 1], ActionAt(f, p[j]);
            PartAt(f, p, j, i) ==
            if a.Build? && i < a.n <= |PathState(f, r).stack|
            then Origin(f, r, FromStack(|PathState(f, r).stack| - a.n + i)) else None
  {
    hide PathState, Origin, Abstracts;
  }

  /** Whatever is still inside and below an aggregate is inside it along the path. */
  lemma {:induction false} DeepInside(f: Body, policy: Policy, p: Path, run: seq<Frame>, j: nat, id: nat) returns (k: nat)
    requires Tracks(f, policy, p, run) && j + 1 < |p| && p[j] < |f.code| && ActionAt(f, p[j]).Build?
    requires |run| == |p| && id in Deep(run[|run| - 1].heap, |run[j].heap|) && id !in run[|run| - 1].gone
    ensures IsPath(f.code, p) && k + 1 < |p| && Inside(f, p, j, k)
    ensures id == |run[k].heap| < |run[|run| - 1].heap| && run[|run| - 1].heap[id].site == p[k]
    decreases j
  {
    hide *;
    TracksEnd(f, policy, p, run);
    var end, r := run[|run| - 1], |run[j].heap|;
    PartsMatch(f, policy, p, run, j, 0);
    if id == r {
      k := j;
      InsideSelf(f, p, j);
    } else {
      DeepIs(end.heap, r);
      var i := DeepAllMember(end.heap, end.heap[r].fields, r, id);
      PartsMatch(f, policy, p, run, j, i);
      var part := end.heap[r].fields[i].id;
      StillInside(f, p, run, end, part, id);
      PartAtBelow(f, p, j, i);
      k := DeepInside(f, policy, p, run, PartAt(f, p, j, i).value, id);
      InsidePart(f, p, j, i, k);
    }
  }

  lemma DeepIs(heap: seq<Obj>, id: nat)
    requires id < |heap|
    ensures Deep(heap, id) == {id} + DeepAll(heap, heap[id].fields, id)
  {
  }

  /** What holds something still inside is itself still inside. */
  lemma StillInside(f: Body, p: Path, run: seq<Frame>, end: Frame, part: nat, id: nat)
    requires IsPath(f.code, p) && |p| <= |run| && TrackedAt(f, p, run, end)
    requires id in Deep(end.heap, part) && id !in end.gone
    ensures !Loose(Ref(part), end.gone)
  {
    TrackedHas(f, p, run, end);
    hide TrackedAt, Deep, Closed;
    if part in end.gone { DeepInGone(end.heap, end.gone, part); }
  }

  lemma PartAtBelow(f: Body, p: Path, j: nat, i: nat)
    requires IsPath(f.code, p) && j < |p|
    ensures PartAt(f, p, j, i).Some? ==> PartAt(f, p, j, i).value < j
  {
    hide IsPath, PathState, Origin, Abstracts;
  }

  lemma InsideSelf(f: Body, p: Path, j: nat)
    requires IsPath(f.code, p) && j < |p|
    ensures Inside(f, p, j, j)
  {
    hide IsPath, PartAt;
  }

  lemma InsidePart(f: Body, p: Path, j: nat, i: nat, k: nat)
    requires IsPath(f.code, p) && j < |p|
    requires PartAt(f, p, j, i).Some? && Inside(f, p, PartAt(f, p, j, i).value, k)
    ensures Inside(f, p, j, k)
  {
    hide IsPath, PartAt;
  }

  /** And the other way. */
  lemma {:induction false} InsideDeep(f: Body, policy: Policy, p: Path, run: seq<Frame>, j: nat, k: nat)
    requires Tracks(f, policy, p, run) && j + 1 < |p| && p[j] < |f.code| && ActionAt(f, p[j]).Build?
    requires IsPath(f.code, p) && |run| == |p| && Inside(f, p, j, k)
    ensures k + 1 < |p| && |run[k].heap| in Deep(run[|run| - 1].heap, |run[j].heap|)
    ensures |run[k].heap| < |run[|run| - 1].heap| && run[|run| - 1].heap[|run[k].heap|].site == p[k]
    decreases j
  {
    hide *;
    TracksEnd(f, policy, p, run);
    var end, r := run[|run| - 1], |run[j].heap|;
    PartsMatch(f, policy, p, run, j, 0);
    DeepIs(end.heap, r);
    if j != k {
      var i := InsideStep(f, p, j, k);
      PartsMatch(f, policy, p, run, j, i);
      PartAtBelow(f, p, j, i);
      var m := PartAt(f, p, j, i).value;
      InsideDeep(f, policy, p, run, m, k);
      TrackedHas(f, p, run, end);
      OlderPart(end.heap, end.gone, r, i);
      DeepInAll(end.heap, end.heap[r].fields, r, i, |run[k].heap|);
    }
  }

  lemma OlderPart(heap: seq<Obj>, gone: set<nat>, id: nat, i: nat)
    requires Closed(heap, gone) && id < |heap| && i < |heap[id].fields| && heap[id].fields[i].Ref?
    ensures heap[id].fields[i].id < id
  {
  }

  lemma InsideStep(f: Body, p: Path, j: nat, k: nat) returns (i: nat)
    requires IsPath(f.code, p) && j < |p| && Inside(f, p, j, k) && j != k
    ensures PartAt(f, p, j, i).Some? && Inside(f, p, PartAt(f, p, j, i).value, k)
  {
    i :| PartAt(f, p, j, i).Some? && Inside(f, p, PartAt(f, p, j, i).value, k);
    hide IsPath, PartAt;
  }

  // ---- leaving ----

  /** What leaves at the end of a run, still inside before, leaves along its path. */
  lemma LeavingLeaves(f: Body, policy: Policy, p: Path, run: seq<Frame>, id: nat) returns (k: nat)
    requires Tracks(f, policy, p, run) && |run| == |p| > 0 && run[|p| - 1].pc < |f.code|
    requires var s := run[|p| - 1]; id in Leaving(BehaviourAt(f, s.pc), policy, s) && id !in s.gone
    ensures IsPath(f.code, p) && k + 1 < |p| && Leaves(f, policy, p, k)
    ensures id < |run[|p| - 1].heap| && run[|p| - 1].heap[id].site == p[k]
  {
    hide *;
    TracksEnd(f, policy, p, run);
    var s := run[|p| - 1];
    TrackedHas(f, p, run, s);
    var n := HandCount(BehaviourAt(f, s.pc), policy);
    LeavingIs(BehaviourAt(f, s.pc), policy, s, id);
    var t := DeepAllMember(s.heap, Top(s.stack, n), |s.heap|, id);
    TopLength(s.stack, n);
    TopIs(s.stack, n, t);
    var i := |s.stack| - n + t;
    SlotTracked(f, p, run, s, i);
    StillInside(f, p, run, s, s.stack[i].id, id);
    TrackedIs(f, p, run, s.gone, FromStack(i), s.stack[i]);
    OriginBuilds(f, p, FromStack(i));
    var j := Origin(f, p, FromStack(i)).value;
    PathWithin(f.code, p, j);
    k := DeepInside(f, policy, p, run, j, id);
    MakeLeaves(f, policy, p, i, k);
  }

  lemma SlotTracked(f: Body, p: Path, run: seq<Frame>, s: Frame, i: nat)
    requires IsPath(f.code, p) && |p| <= |run| && TrackedAt(f, p, run, s) && i < |s.stack|
    ensures Tracked(f, p, run, s.gone, FromStack(i), s.stack[i])
  {
    hide Tracked, IsPath, Closed;
  }

  lemma LeavingIs(b: Behaviour, policy: Policy, s: Frame, id: nat)
    ensures var n := HandCount(b, policy);
            id in Leaving(b, policy, s) <==> n <= |s.stack| && id in DeepAll(s.heap, Top(s.stack, n), |s.heap|)
  {
    hide DeepAll, HandCount;
  }

  lemma MakeLeaves(f: Body, policy: Policy, p: Path, i: nat, k: nat)
    requires IsPath(f.code, p) && Last(p) < |f.code|
    requires var n, depth := HandCount(BehaviourAt(f, Last(p)), policy), |PathState(f, p).stack|;
             n <= depth && depth - n <= i < depth
    requires Origin(f, p, FromStack(i)).Some? && Inside(f, p, Origin(f, p, FromStack(i)).value, k)
    ensures Leaves(f, policy, p, k)
  {
    hide PathState, Origin, Inside;
  }

  lemma LeavesSlot(f: Body, policy: Policy, p: Path, k: nat) returns (i: nat)
    requires IsPath(f.code, p) && Leaves(f, policy, p, k)
    ensures Last(p) < |f.code|
    ensures var n, depth := HandCount(BehaviourAt(f, Last(p)), policy), |PathState(f, p).stack|;
            n <= depth && depth - n <= i < depth
    ensures Origin(f, p, FromStack(i)).Some? && Inside(f, p, Origin(f, p, FromStack(i)).value, k)
  {
    hide PathState, Origin, Inside;
    var n, depth := HandCount(BehaviourAt(f, Last(p)), policy), |PathState(f, p).stack|;
    i :| depth - n <= i < depth && Origin(f, p, FromStack(i)).Some? && Inside(f, p, Origin(f, p, FromStack(i)).value, k);
  }

  /** What leaves along a path leaves at the end of every run along it. */
  lemma LeavesLeaving(f: Body, policy: Policy, p: Path, run: seq<Frame>, k: nat)
    requires Tracks(f, policy, p, run) && IsPath(f.code, p) && Leaves(f, policy, p, k)
    ensures |run| == |p| > 0 && k + 1 < |p| && run[|p| - 1].pc < |f.code|
    ensures var s, id := run[|p| - 1], |run[k].heap|;
            id in Leaving(BehaviourAt(f, s.pc), policy, s) && id < |s.heap| && s.heap[id].site == p[k]
  {
    hide *;
    TracksEnd(f, policy, p, run);
    var s := run[|p| - 1];
    TrackedHas(f, p, run, s);
    var i := LeavesSlot(f, policy, p, k);
    SlotTracked(f, p, run, s, i);
    TrackedIs(f, p, run, s.gone, FromStack(i), s.stack[i]);
    OriginBuilds(f, p, FromStack(i));
    var j, n := Origin(f, p, FromStack(i)).value, HandCount(BehaviourAt(f, Last(p)), policy);
    PathWithin(f.code, p, j);
    InsideDeep(f, policy, p, run, j, k);
    KnownSlot(s, i);
    TopLength(s.stack, n);
    TopIs(s.stack, n, i - (|s.stack| - n));
    DeepInAll(s.heap, Top(s.stack, n), |s.heap|, i - (|s.stack| - n), |run[k].heap|);
    LeavingIs(BehaviourAt(f, s.pc), policy, s, |run[k].heap|);
  }

  lemma KnownSlot(s: Frame, i: nat)
    requires Known(s) && i < |s.stack|
    ensures s.stack[i].Ref? ==> s.stack[i].id < |s.heap|
  {
  }

  /** The point of the run at which an aggregate leaves. */
  lemma {:induction false} FirstLeaving(f: Body, policy: Policy, run: seq<Frame>, id: nat) returns (m: nat)
    requires IsRun(f, policy, run) && run[|run| - 1].pc < |f.code|
    requires var s := run[|run| - 1]; id in s.gone + Leaving(BehaviourAt(f, s.pc), policy, s)
    ensures m < |run| && run[m].pc < |f.code| && id !in run[m].gone
    ensures id in Leaving(BehaviourAt(f, run[m].pc), policy, run[m])
    ensures IsRun(f, policy, run[..m + 1])
    decreases |run|
  {
    hide *;
    RunStarts(f, policy, run);
    var n := |run| - 1;
    if id !in run[n].gone {
      m := n;
      assert run[..n + 1] == run;
    } else {
      NothingGone(f, run[0]);
      PrefixRun(f, policy, run);
      GoneStep(f, policy, run[n - 1], run[n]);
      PcsLast(run);
      RunStarts(f, policy, run[..n]);
      m := FirstLeaving(f, policy, run[..n], id);
      assert run[..n][..m + 1] == run[..m + 1] && run[..n][m] == run[m];
    }
  }

  lemma NothingGone(f: Body, s: Frame)
    requires Start(f, s)
    ensures s.gone == {}
  {
  }

  lemma GoneStep(f: Body, policy: Policy, s: Frame, t: Frame)
    requires s.pc < |f.code| && Step(f, policy, s, t)
    ensures t.gone == s.gone + Leaving(BehaviourAt(f, s.pc), policy, s)
  {
    hide Leaving;
  }

  /** A function has a run that hands over an aggregate of a cleared site exactly when one leaves along one of its
      possible paths: the report is sound for the others, and for no more. */
  lemma HandsOverExactly(f: Body, policy: Policy)
    ensures LetsGo(f, policy) <==> SomeRunHands(f, policy)
  {
    hide *;
    if LetsGo(f, policy) {
      var p, k := LetsGoHas(f, policy);
      var run := RunAlong(f, policy, p);
      TracksEnd(f, policy, p, run);
      LeavesLeaving(f, policy, p, run, k);
      MakeHands(f, policy, run, |run[k].heap|);
    }
    if SomeRunHands(f, policy) {
      var run, id := HandsHas(f, policy);
      var m := FirstLeaving(f, policy, run, id);
      var first := run[..m + 1];
      RunTracks(f, policy, first);
      TracksEnd(f, policy, Pcs(first), first);
      assert first[m] == run[m];
      var k := LeavingLeaves(f, policy, Pcs(first), first, id);
      HeapGrows(f, policy, run, m, |run| - 1);
      SamePrefix(run[m].heap, run[|run| - 1].heap, id);
      MakeLetsGo(f, policy, Pcs(first), k);
    }
  }

  lemma SamePrefix(heap: seq<Obj>, later: seq<Obj>, id: nat)
    requires |heap| <= |later| && later[..|heap|] == heap && id < |heap|
    ensures later[id] == heap[id]
  {
    assert later[..|heap|][id] == later[id];
  }

  lemma LetsGoHas(f: Body, policy: Policy) returns (p: Path, k: nat)
    requires LetsGo(f, policy)
    ensures IsPath(f.code, p) && Possible(f, p) && k + 1 < |p| && Leaves(f, policy, p, k) && !Escapes(f, policy, p[k])
  {
    p, k :| LetsGoAlong(f, policy, p, k);
    hide IsPath, Possible, Leaves, Escapes;
  }

  lemma MakeLetsGo(f: Body, policy: Policy, p: Path, k: nat)
    requires IsPath(f.code, p) && Possible(f, p) && k + 1 < |p|
    requires Leaves(f, policy, p, k) && !Escapes(f, policy, p[k])
    ensures LetsGo(f, policy)
  {
    assert LetsGoAlong(f, policy, p, k) by { hide IsPath, Possible, Leaves, Escapes; }
    hide LetsGoAlong, IsPath, Possible, Leaves, Escapes;
  }

  lemma MakeHands(f: Body, policy: Policy, run: seq<Frame>, id: nat)
    requires IsRun(f, policy, run) && |run| > 0 && run[|run| - 1].pc < |f.code|
    requires var s := run[|run| - 1];
             id in Leaving(BehaviourAt(f, s.pc), policy, s) && id < |s.heap| && !Escapes(f, policy, s.heap[id].site)
    ensures SomeRunHands(f, policy)
  {
    hide IsRun, Leaving, Escapes;
    assert HandsCleared(f, policy, run);
    assert RunHands(f, policy, run);
  }

  lemma HandsHas(f: Body, policy: Policy) returns (run: seq<Frame>, id: nat)
    requires SomeRunHands(f, policy)
    ensures IsRun(f, policy, run) && |run| > 0 && run[|run| - 1].pc < |f.code|
    ensures var s := run[|run| - 1];
            id in s.gone + Leaving(BehaviourAt(f, s.pc), policy, s) && id < |s.heap| && !Escapes(f, policy, s.heap[id].site)
  {
    run :| RunHands(f, policy, run);
    hide Step, Start, Leaving, Escapes;
    var s := run[|run| - 1];
    id :| id in s.gone + Leaving(BehaviourAt(f, s.pc), policy, s) && id < |s.heap| && !Escapes(f, policy, s.heap[id].site);
  }
}
