/** The condition under which the escape analysis is sound, against the reads of runs: where a read selects a part
    that was built here and does not escape, some run reads it back, untracked. */
module EscapeReads {
  import opened Options
  import opened Bodies
  import EscapeDomain
  import opened EscapeStep
  import opened EscapePaths
  import opened FrameMachine
  import opened EscapeSoundness
  import opened EscapeOrigins

  // ---- reads along paths ----

  /** `p` has just read back an aggregate built along it, at a site that does not escape. */
  ghost predicate ReadsBackAlong(f: Body, policy: Policy, p: Path)
  {
    && IsPath(f.code, p) && Possible(f, p) && |p| > 1 && f.code[p[|p| - 2]].Projects? && PathState(f, p).stack != []
    && var k := Origin(f, p, FromStack(|PathState(f, p).stack| - 1));
       k.Some? && !Escapes(f, policy, p[k.value])
  }

  ghost predicate ReadsBack(f: Body, policy: Policy)
  {
    exists run :: RunReadsBack(f, policy, run)
  }

  /** Some read of the run yields an aggregate still inside whose site does not escape. */
  ghost predicate RunReadsBack(f: Body, policy: Policy, run: seq<Frame>)
  {
    IsRun(f, policy, run) && !SafeReads(f, policy, run)
  }

  /** Had every read been safe, what has left would have escaped, and the part has not. */
  lemma PeelUnsafe(f: Body, policy: Policy, run: seq<Frame>, part: nat, child: nat)
    requires IsRun(f, policy, run) && |run| > 1 && !Escapes(f, policy, child)
    requires var s, t := run[|run| - 2], run[|run| - 1];
             && BehaviourAt(f, s.pc).Projects? && t.stack != [] && t.stack[|t.stack| - 1] == Ref(part)
             && part < |t.heap| && t.heap[part].site == child
    ensures !SafeReads(f, policy, run)
  {
    hide *;
    StepAt(f, policy, run, |run| - 2);
    LastSafe(f, policy, run);
    if SafeReads(f, policy, run) {
      SafeRunSound(f, policy, run);
      PartUnsafe(f, policy, run[|run| - 2], run[|run| - 1], part);
    }
  }

  lemma LastSafe(f: Body, policy: Policy, run: seq<Frame>)
    requires IsRun(f, policy, run) && |run| > 1
    ensures forall k | 0 <= k < |run| :: run[k].pc < |f.code|
    ensures SafeReads(f, policy, run) ==> SafeStep(f, policy, run[|run| - 2], run[|run| - 1])
  {
    hide Step, Start, SafeStep;
    if SafeReads(f, policy, run) { assert SafeStep(f, policy, run[|run| - 1 - 1], run[|run| - 1]); }
  }

  lemma PartUnsafe(f: Body, policy: Policy, s: Frame, t: Frame, part: nat)
    requires s.pc < |f.code| && BehaviourAt(f, s.pc).Projects?
    requires t.stack != [] && t.stack[|t.stack| - 1] == Ref(part)
    requires part < |t.heap| && !Escapes(f, policy, t.heap[part].site)
    requires forall id | id in t.gone :: id < |t.heap| && Escapes(f, policy, t.heap[id].site)
    ensures !SafeStep(f, policy, s, t)
  {
    hide Escapes;
  }

  /** The frame a run ends with, by the path's origins. */
  lemma EndsWith(f: Body, policy: Policy, p: Path, run: seq<Frame>) returns (k: nat)
    requires ReadsBackAlong(f, policy, p) && Tracks(f, policy, p, run)
    ensures IsRun(f, policy, run) && |run| > 1 && k + 1 < |p| && !Escapes(f, policy, p[k])
    ensures var s, t := run[|run| - 2], run[|run| - 1];
            && s.pc < |f.code| && BehaviourAt(f, s.pc).Projects? && t.stack != [] && t.stack[|t.stack| - 1] == Ref(|run[k].heap|)
            && |run[k].heap| < |t.heap| && t.heap[|run[k].heap|].site == p[k]
  {
    hide *;
    ReadsBackHas(f, policy, p);
    TracksEnd(f, policy, p, run);
    var t := run[|p| - 1];
    TrackedHas(f, p, run, t);
    TopTracked(f, p, run, t);
    var src := FromStack(|t.stack| - 1);
    k := Origin(f, p, src).value;
    OriginBuilds(f, p, src);
    PathWithin(f.code, p, k);
    PathWithin(f.code, p, |p| - 2);
    BuiltThere(f, policy, p, run, k);
    TracksSlot(f, policy, p, run, |p| - 2, 0);
    ActionIs(f, p[|p| - 2]);
  }

  lemma ReadsBackHas(f: Body, policy: Policy, p: Path)
    requires ReadsBackAlong(f, policy, p)
    ensures IsPath(f.code, p) && Possible(f, p) && |p| > 1 && p[|p| - 2] < |f.code| && f.code[p[|p| - 2]].Projects?
    ensures PathState(f, p).stack != []
    ensures var k := Origin(f, p, FromStack(|PathState(f, p).stack| - 1));
            k.Some? && k.value + 1 < |p| && !Escapes(f, policy, p[k.value])
  {
    hide PathState, Possible, Origin, Escapes;
  }

  /** An unsafe step read an aggregate that is still inside, of a site that does not escape. */
  lemma UnsafeStep(f: Body, policy: Policy, s: Frame, t: Frame)
    requires s.pc < |f.code| && !SafeStep(f, policy, s, t)
    ensures BehaviourAt(f, s.pc).Projects? && t.stack != []
    ensures var v := t.stack[|t.stack| - 1];
            v.Ref? && v.id !in t.gone && (v.id < |t.heap| ==> !Escapes(f, policy, t.heap[v.id].site))
  {
    hide Escapes;
  }

  lemma UnsafePoint(f: Body, policy: Policy, run: seq<Frame>) returns (n: nat)
    requires IsRun(f, policy, run) && !SafeReads(f, policy, run)
    ensures 0 < n < |run| && run[n - 1].pc < |f.code| && !SafeStep(f, policy, run[n - 1], run[n])
  {
    RunStarts(f, policy, run);
    hide IsRun, SafeStep;
    n :| 0 < n < |run| && !SafeStep(f, policy, run[n - 1], run[n]);
  }

  lemma {:induction false} RunPrefix(f: Body, policy: Policy, run: seq<Frame>, n: nat)
    requires IsRun(f, policy, run) && n < |run|
    ensures IsRun(f, policy, run[..n + 1])
    decreases |run|
  {
    hide *;
    if n + 1 == |run| {
      assert run[..n + 1] == run;
    } else {
      PrefixRun(f, policy, run);
      RunPrefix(f, policy, run[..|run| - 1], n);
      assert run[..|run| - 1][..n + 1] == run[..n + 1];
    }
  }

  /** Some run reads back an aggregate of a cleared site exactly when some possible path does, whatever the function. */
  lemma ReadsBackExactly(f: Body, policy: Policy)
    ensures ReadsBack(f, policy) <==> exists p :: ReadsBackAlong(f, policy, p)
  {
    hide *;
    if p :| ReadsBackAlong(f, policy, p) {
      PathReadsBack(f, policy, p);
    }
    if ReadsBack(f, policy) {
      var run := ReadsBackRun(f, policy);
      var n := UnsafePoint(f, policy, run);
      UnsafeStep(f, policy, run[n - 1], run[n]);
      RunPrefix(f, policy, run, n);
      var first := run[..n + 1];
      assert first[n] == run[n] && first[n - 1] == run[n - 1];
      RunTracks(f, policy, first);
      RunEnds(f, policy, Pcs(first), first);
    }
  }

  lemma PathReadsBack(f: Body, policy: Policy, p: Path)
    requires ReadsBackAlong(f, policy, p)
    ensures ReadsBack(f, policy)
  {
    hide *;
    ReadsBackHas(f, policy, p);
    var run := RunAlong(f, policy, p);
    var k := EndsWith(f, policy, p, run);
    PeelUnsafe(f, policy, run, |run[k].heap|, p[k]);
    MakeReadsBack(f, policy, run);
  }

  lemma MakeReadsBack(f: Body, policy: Policy, run: seq<Frame>)
    requires IsRun(f, policy, run)
    ensures forall k | 0 <= k < |run| :: run[k].pc < |f.code|
    ensures !SafeReads(f, policy, run) ==> ReadsBack(f, policy)
  {
    RunStarts(f, policy, run);
    hide Step, Start, SafeReads;
    if !SafeReads(f, policy, run) { assert RunReadsBack(f, policy, run); }
  }

  lemma ReadsBackRun(f: Body, policy: Policy) returns (run: seq<Frame>)
    requires ReadsBack(f, policy)
    ensures IsRun(f, policy, run) && (forall k | 0 <= k < |run| :: run[k].pc < |f.code|) && !SafeReads(f, policy, run)
  {
    run :| RunReadsBack(f, policy, run);
    RunStarts(f, policy, run);
    hide Step, Start, SafeReads;
  }

  /** A run that has just read back such an aggregate follows a path that has. */
  lemma RunEnds(f: Body, policy: Policy, p: Path, run: seq<Frame>)
    requires Tracks(f, policy, p, run) && |run| > 1
    requires var s, t := run[|run| - 2], run[|run| - 1];
             && s.pc < |f.code| && BehaviourAt(f, s.pc).Projects? && t.stack != []
             && t.stack[|t.stack| - 1].Ref? && t.stack[|t.stack| - 1].id !in t.gone
             && (t.stack[|t.stack| - 1].id < |t.heap| ==> !Escapes(f, policy, t.heap[t.stack[|t.stack| - 1].id].site))
    ensures ReadsBackAlong(f, policy, p)
  {
    hide *;
    TracksEnd(f, policy, p, run);
    var t := run[|p| - 1];
    TrackedHas(f, p, run, t);
    TopTracked(f, p, run, t);
    NotLoose(t.stack[|t.stack| - 1], t.gone);
    var src := FromStack(|t.stack| - 1);
    OriginBuilds(f, p, src);
    var k := Origin(f, p, src).value;
    PathWithin(f.code, p, k);
    BuiltThere(f, policy, p, run, k);
    TracksSlot(f, policy, p, run, |p| - 2, 0);
    ActionIs(f, p[|p| - 2]);
    MakeReadsBackAlong(f, policy, p);
  }

  lemma NotLoose(v: Val, gone: set<nat>)
    requires v.Ref? && v.id !in gone
    ensures !Loose(v, gone)
  {
  }

  lemma MakeReadsBackAlong(f: Body, policy: Policy, p: Path)
    requires IsPath(f.code, p) && Possible(f, p) && |p| > 1
    requires p[|p| - 2] < |f.code| && f.code[p[|p| - 2]].Projects? && PathState(f, p).stack != []
    requires var k := Origin(f, p, FromStack(|PathState(f, p).stack| - 1));
             k.Some? && k.value + 1 < |p| && !Escapes(f, policy, p[k.value])
    ensures ReadsBackAlong(f, policy, p)
  {
    hide PathState, Possible, Origin, Escapes, IsPath;
  }

  // ---- where a slot's aggregate was built ----

  /** The step of the path that built what a slot holds at its end, if it holds an aggregate. */
  ghost function Born(f: Body, p: Path, src: Source): (k: Option<nat>)
    requires IsPath(f.code, p)
    ensures k.Some? ==> k.value + 1 < |p|
    decreases |p|
  {
    if |p| == 1 then None
    else
      PathPrefix(f.code, p);
      var q := p[..|p| - 1];
      var from := SourceOf(ActionAt(f, Last(q)), |PathState(f, q).stack|, src);
      if from.Fresh? then Some(|q| - 1) else Born(f, q, from)
  }

  function SourceOf(a: Action, depth: nat, src: Source): Source {
    match src
    case FromStack(i) => StackSource(a, depth, i)
    case FromLocal(i) => LocalSource(a, depth, i)
    case _ => Nothing
  }

  lemma SourceSitesOf(a: Action, pc: nat, s: EscapeDomain.State, src: Source)
    requires src.FromStack? || src.FromLocal?
    ensures SourceSites(src, 0, StepOut(a, pc, s)) == SourceSites(SourceOf(a, |s.stack|, src), pc, s)
  {
    if src.FromStack? { StackFrom(a, pc, s, src.i); } else { LocalFrom(a, pc, s, src.i); }
    hide StepOut, StackSource, LocalSource;
  }

  /** Along one path a slot tracks exactly the site that built what it holds. */
  lemma {:induction false} BornSites(f: Body, p: Path, src: Source, site: nat)
    requires IsPath(f.code, p) && (src.FromStack? || src.FromLocal?)
    ensures site in SourceSites(src, 0, PathState(f, p))
            <==> Born(f, p, src).Some? && p[Born(f, p, src).value] == site
    decreases |p|
  {
    hide *;
    PathStarts(f.code, p);
    if |p| == 1 {
      BornFirst(f, p, src);
    } else {
      PathPrefix(f.code, p);
      SplitLast(p);
      var q, next := p[..|p| - 1], Last(p);
      PathStarts(f.code, q);
      var a, s := ActionAt(f, Last(q)), PathState(f, q);
      StateNext(f, q, p);
      SourceSitesOf(a, Last(q), s, src);
      BornNext(f, q, next, src);
      var from := SourceOf(a, |s.stack|, src);
      SitesFrom(from, Last(q), s);
      LastIs(q);
      BornWithin(f, q, from);
      if from.FromStack? || from.FromLocal? { BornSites(f, q, from, site); } else { BornNothing(f, q); }
    }
  }

  lemma BornFirst(f: Body, p: Path, src: Source)
    requires IsPath(f.code, p) && |p| == 1 && (src.FromStack? || src.FromLocal?)
    ensures Born(f, p, src) == None && SourceSites(src, 0, PathState(f, p)) == {}
  {
    hide IsPath;
  }

  lemma StateNext(f: Body, q: Path, p: Path)
    requires IsPath(f.code, p) && |p| > 1 && q == p[..|p| - 1] && IsPath(f.code, q)
    ensures Last(q) < |f.code| && PathState(f, p) == StepOut(ActionAt(f, Last(q)), Last(q), PathState(f, q))
  {
    hide StepOut, Abstracts;
  }

  lemma SitesFrom(src: Source, pc: nat, s: EscapeDomain.State)
    ensures src.Fresh? ==> SourceSites(src, pc, s) == {pc}
    ensures src.Nothing? ==> SourceSites(src, pc, s) == {}
    ensures src.FromStack? || src.FromLocal? ==> SourceSites(src, pc, s) == SourceSites(src, 0, s)
  {
    hide EscapeDomain.Sites, EscapeDomain.Get;
  }

  lemma {:induction false} BornNothing(f: Body, p: Path)
    requires IsPath(f.code, p)
    ensures Born(f, p, Nothing) == None
    decreases |p|
  {
    hide PathState, Abstracts;
    if |p| > 1 {
      PathPrefix(f.code, p);
      BornNothing(f, p[..|p| - 1]);
    }
  }

  lemma BornNext(f: Body, q: Path, next: nat, src: Source)
    requires IsPath(f.code, q) && IsPath(f.code, q + [next])
    ensures var from := SourceOf(ActionAt(f, Last(q)), |PathState(f, q).stack|, src);
            Born(f, q + [next], src) == if from.Fresh? then Some(|q| - 1) else Born(f, q, from)
  {
    hide PathState, Abstracts;
    assert (q + [next])[..|q|] == q;
  }

  /** Code as the analysis meets it: the moving loads come later, and no path meets an instruction that cannot be
      executed. */
  ghost predicate Early(f: Body)
  {
    Unmoving(f) && forall p | IsPath(f.code, p) :: Possible(f, p)
  }

  ghost predicate Unmoving(f: Body)
  {
    forall pc: nat | pc < |f.code| :: !BehaviourAt(f, pc).Moves?
  }

  lemma SourceCopied(b: Behaviour, depth: nat, src: Source)
    requires !b.Moves? && SourceOf(Abstracts(b), depth, src) != Nothing
    ensures !Reading(b, depth, src) && Copied(b, depth, src) == SourceOf(Abstracts(b), depth, src)
  {
  }

  /** What the analysis tracks is where the value comes from. */
  lemma {:induction false} BornOrigin(f: Body, p: Path, src: Source)
    requires IsPath(f.code, p) && Unmoving(f) && Born(f, p, src).Some?
    ensures Origin(f, p, src) == Born(f, p, src)
    decreases |p|
  {
    hide *;
    BornLong(f, p, src);
    PathPrefix(f.code, p);
    SplitLast(p);
    var q, next := p[..|p| - 1], Last(p);
    PathStarts(f.code, q);
    BornNext(f, q, next, src);
    BornNothing(f, q);
    ActionIs(f, Last(q));
    NoMoves(f, Last(q));
    SourceCopied(BehaviourAt(f, Last(q)), |PathState(f, q).stack|, src);
    OriginNext(f, q, next, src);
    var from := SourceOf(ActionAt(f, Last(q)), |PathState(f, q).stack|, src);
    if !from.Fresh? { BornOrigin(f, q, from); }
  }

  lemma BornLong(f: Body, p: Path, src: Source)
    requires IsPath(f.code, p) && Born(f, p, src).Some?
    ensures |p| > 1
  {
    hide IsPath;
  }

  lemma NoMoves(f: Body, pc: nat)
    requires Unmoving(f) && pc < |f.code|
    ensures !BehaviourAt(f, pc).Moves?
  {
  }

  // ---- joining two paths where an aggregate is built ----

  function Joined(p2: Path, p: Path, k: nat, m: nat): Path
    requires k <= m < |p|
  {
    p2 + p[k + 1..m + 1]
  }

  lemma SameHeight(f: Body, p: Path, q: Path)
    requires Balanced(f) && IsPath(f.code, p) && IsPath(f.code, q) && Last(p) == Last(q)
    ensures |PathState(f, p).stack| == |PathState(f, q).stack|
  {
    PathHeight(f, p);
    PathHeight(f, q);
    hide PathState, Abstracts;
  }

  /** Slots that hold what the first path's step `k` built hold, on the other, what its step `at` built. */
  ghost predicate Carries(f: Body, q: Path, r: Path, k: nat, at: nat)
    requires IsPath(f.code, q) && IsPath(f.code, r)
  {
    forall src :: Born(f, q, src) == Some(k) ==> Born(f, r, src) == Some(at)
  }

  /** Where another path to the building site takes the place of the first part, slots that held what was
      built there hold what is built there now. */
  lemma {:induction false} JoinedBorn(f: Body, p2: Path, p: Path, k: nat, m: nat)
    requires Balanced(f) && IsPath(f.code, p) && IsPath(f.code, p2)
    requires k <= m < |p| && Last(p2) == p[k]
    ensures var r := Joined(p2, p, k, m);
            && IsPath(f.code, r) && Last(r) == p[m] && IsPath(f.code, p[..m + 1])
            && |p2| > 0 && Carries(f, p[..m + 1], r, k, |p2| - 1)
    decreases m
  {
    hide *;
    PrefixPath(f.code, p, m);
    PathStarts(f.code, p2);
    if m == k {
      JoinedNone(p2, p, k);
      CarriesNone(f, p[..m + 1], p2, k, |p2| - 1);
    } else {
      var q, r, next := p[..m], Joined(p2, p, k, m - 1), p[m];
      JoinedBorn(f, p2, p, k, m - 1);
      PathEdge(f.code, p, m);
      JoinedOne(p2, p, k, m);
      LastOne(r, next);
      LastOne(q, next);
      PrefixPath(f.code, p, m - 1);
      assert p[..m - 1 + 1] == q;
      ExtendPath(f.code, r, next);
      SameHeight(f, q, r);
      JoinStep(f, q, r, next, k, |p2| - 1);
    }
  }

  lemma JoinedNone(p2: Path, p: Path, k: nat)
    requires k < |p|
    ensures Joined(p2, p, k, k) == p2
  {
  }

  lemma JoinedOne(p2: Path, p: Path, k: nat, m: nat)
    requires k < m < |p|
    ensures Joined(p2, p, k, m) == Joined(p2, p, k, m - 1) + [p[m]]
    ensures |Joined(p2, p, k, m - 1)| == |p2| + (m - 1 - k) && |p[..m]| == m
  {
  }

  lemma CarriesNone(f: Body, q: Path, r: Path, k: nat, at: nat)
    requires IsPath(f.code, q) && IsPath(f.code, r) && |q| == k + 1
    ensures Carries(f, q, r, k, at)
  {
    hide IsPath, PathState, Abstracts;
  }

  lemma JoinStep(f: Body, q: Path, r: Path, next: nat, k: nat, at: nat)
    requires IsPath(f.code, q) && IsPath(f.code, r) && Last(q) == Last(r)
    requires IsPath(f.code, q + [next]) && IsPath(f.code, r + [next])
    requires |PathState(f, q).stack| == |PathState(f, r).stack| && k < |q| && (|q| == k + 1 ==> |r| == at + 1)
    requires Carries(f, q, r, k, at)
    ensures Carries(f, q + [next], r + [next], k, at)
  {
    forall src | Born(f, q + [next], src) == Some(k) ensures Born(f, r + [next], src) == Some(at) {
      BornNext(f, q, next, src);
      BornNext(f, r, next, src);
      hide PathState, Abstracts, Born, IsPath, SourceOf;
    }
  }

  // ---- the path that peels ----

  lemma BuiltFromHas(f: Body, p: Path, parent: nat, i: nat, child: nat)
    requires BuiltFrom(f, p, parent, i, child)
    ensures IsPath(f.code, p) && |p| > 0 && Last(p) == parent < |f.code| && ActionAt(f, parent).Build?
    ensures var stack, n := PathState(f, p).stack, ActionAt(f, parent).n;
            i < n <= |stack| && child in EscapeDomain.Sites(EscapeDomain.Get(stack, |stack| - n + i))
  {
    hide PathState;
  }

  /** Where the read's operand was built. */
  lemma ReadBorn(f: Body, p: Path, parent: nat, i: nat) returns (k: nat)
    requires ReadsAlong(f, p, parent, i)
    ensures IsPath(f.code, p) && k + 1 < |p| && p[k] == parent && PathState(f, p).stack != []
    ensures Born(f, p, FromStack(|PathState(f, p).stack| - 1)) == Some(k)
  {
    hide *;
    ReadsAlongHas(f, p, parent, i);
    var d := |PathState(f, p).stack| - 1;
    BornSites(f, p, FromStack(d), parent);
    TracksIs(PathState(f, p), d, parent);
    BornWithin(f, p, FromStack(d));
    k := Born(f, p, FromStack(d)).value;
  }

  lemma ReadsAlongHas(f: Body, p: Path, parent: nat, i: nat)
    requires ReadsAlong(f, p, parent, i)
    ensures IsPath(f.code, p) && PathState(f, p).stack != []
    ensures Last(p) + 1 < |f.code| && f.code[Last(p)].Projects? && Picked(f, parent, f.code[Last(p)].sel) == Some(i)
    ensures parent in EscapeDomain.Sites(EscapeDomain.Get(PathState(f, p).stack, |PathState(f, p).stack| - 1))
  {
    hide PathState, Picked;
  }

  /** Where the selected operand of the building was built. */
  lemma PartBorn(f: Body, p: Path, parent: nat, i: nat, child: nat) returns (k: nat)
    requires BuiltFrom(f, p, parent, i, child)
    ensures IsPath(f.code, p) && Last(p) == parent && ActionAt(f, parent).Build? && k + 1 < |p| && p[k] == child
    ensures var n, depth := ActionAt(f, parent).n, |PathState(f, p).stack|;
            i < n <= depth && Born(f, p, FromStack(depth - n + i)) == Some(k)
  {
    hide *;
    BuiltFromHas(f, p, parent, i, child);
    var slot := |PathState(f, p).stack| - ActionAt(f, parent).n + i;
    BornSites(f, p, FromStack(slot), child);
    TracksIs(PathState(f, p), slot, child);
    BornWithin(f, p, FromStack(slot));
    k := Born(f, p, FromStack(slot)).value;
  }

  lemma BornWithin(f: Body, p: Path, src: Source)
    requires IsPath(f.code, p)
    ensures Born(f, p, src).Some? ==> Born(f, p, src).value + 1 < |p|
  {
    hide IsPath;
  }

  lemma TracksIs(s: EscapeDomain.State, i: nat, site: nat)
    ensures site in SourceSites(FromStack(i), 0, s) <==> site in EscapeDomain.Sites(EscapeDomain.Get(s.stack, i))
  {
  }

  /** The path to the building, on to the read. */
  lemma JoinedRead(f: Body, p: Path, k: nat, p2: Path, parent: nat, i: nat, child: nat) returns (r: Path)
    requires Balanced(f) && IsPath(f.code, p) && k + 1 < |p| && p[k] == parent
    requires PathState(f, p).stack != [] && BuiltFrom(f, p2, parent, i, child)
    requires Born(f, p, FromStack(|PathState(f, p).stack| - 1)) == Some(k)
    ensures r == Joined(p2, p, k, |p| - 1) && |r| > |p2| > 0 && IsPath(f.code, r) && Last(r) == Last(p)
    ensures |PathState(f, r).stack| == |PathState(f, p).stack|
    ensures Born(f, r, FromStack(|PathState(f, p).stack| - 1)) == Some(|p2| - 1)
  {
    hide *;
    BuiltFromHas(f, p2, parent, i, child);
    r := Joined(p2, p, k, |p| - 1);
    JoinedBorn(f, p2, p, k, |p| - 1);
    JoinedWhole(p2, p, k);
    SameHeight(f, r, p);
    CarriesOne(f, p, r, k, |p2| - 1, FromStack(|PathState(f, p).stack| - 1));
  }

  lemma JoinedWhole(p2: Path, p: Path, k: nat)
    requires k + 1 < |p|
    ensures p[..|p| - 1 + 1] == p && p[|p| - 1] == Last(p) && |Joined(p2, p, k, |p| - 1)| > |p2|
  {
  }

  lemma CarriesOne(f: Body, q: Path, r: Path, k: nat, at: nat, src: Source)
    requires IsPath(f.code, q) && IsPath(f.code, r) && Carries(f, q, r, k, at)
    ensures Born(f, q, src) == Some(k) ==> Born(f, r, src) == Some(at)
  {
    hide Born, IsPath;
  }

  /** The joined path, one step on, has just read back what was built at `child`. */
  lemma PeelPath(f: Body, policy: Policy, p: Path, parent: nat, i: nat, child: nat, p2: Path) returns (r: Path)
    requires Balanced(f) && Early(f) && !Escapes(f, policy, child)
    requires ReadsAlong(f, p, parent, i) && BuiltFrom(f, p2, parent, i, child)
    ensures ReadsBackAlong(f, policy, r)
  {
    hide *;
    var k := ReadBorn(f, p, parent, i);
    var q := JoinedRead(f, p, k, p2, parent, i, child);
    var d := |PathState(f, p).stack| - 1;
    EarlyUnmoving(f);
    BornOrigin(f, q, FromStack(d));
    BuiltFromHas(f, p2, parent, i, child);
    var j := PartBorn(f, p2, parent, i, child);
    var slot := |PathState(f, p2).stack| - ActionAt(f, parent).n + i;
    BornOrigin(f, p2, FromStack(slot));
    ReadsOn(f, p, parent, i);
    var next := Last(p) + 1;
    ExtendPath(f.code, q, next);
    r := q + [next];
    EarlyPossible(f, r);
    JoinedFront(p2, p, k);
    PathStateExtends(f, q, next);
    ReadHeight(f, Last(q), PathState(f, q));
    ReadingIs(BehaviourAt(f, Last(q)), d + 1, d);
    OriginNext(f, q, next, FromStack(d));
    BuildOperands(ActionAt(f, parent));
    PartSlotIs(f, p2, f.code[Last(p)].sel);
    assert r[|r| - 2] == q[|q| - 1];
    LastIs(q);
    MakeReadsBackAlong(f, policy, r);
  }

  lemma ReadHeight(f: Body, pc: nat, s: EscapeDomain.State)
    requires pc < |f.code| && f.code[pc].Projects? && s.stack != []
    ensures |StepOut(ActionAt(f, pc), pc, s).stack| == |s.stack|
  {
  }

  lemma JoinedFront(p2: Path, p: Path, k: nat)
    requires |p2| > 0 && k + 1 < |p|
    ensures Joined(p2, p, k, |p| - 1)[..|p2| - 1 + 1] == p2 && forall j: nat | j < |p2| :: Joined(p2, p, k, |p| - 1)[j] == p2[j]
  {
  }

  lemma EarlyUnmoving(f: Body)
    requires Early(f)
    ensures Unmoving(f)
  {
    hide Possible, Unmoving;
  }

  lemma EarlyPossible(f: Body, p: Path)
    requires Early(f) && IsPath(f.code, p)
    ensures Unmoving(f) && Possible(f, p)
  {
    hide Possible, IsPath;
  }

  lemma ReadsOn(f: Body, p: Path, parent: nat, i: nat)
    requires ReadsAlong(f, p, parent, i)
    ensures Last(p) + 1 < |f.code| && f.code[Last(p)].Projects? && Edge(f.code, Last(p), Last(p) + 1)
    ensures BehaviourAt(f, Last(p)) == Projects(f.code[Last(p)].sel)
    ensures Picked(f, parent, f.code[Last(p)].sel) == Some(i)
  {
    hide *;
    ReadsAlongHas(f, p, parent, i);
    PathStarts(f.code, p);
    ActionIs(f, Last(p));
    ReadEdge(f.code, Last(p));
  }

  lemma ReadEdge(code: Code, pc: nat)
    requires pc + 1 < |code| && code[pc].Projects?
    ensures Edge(code, pc, pc + 1)
  {
  }

  /** On balanced code, before the moving loads: some run reads back an aggregate still inside whose site does not
      escape exactly when some read selects such a part. */
  lemma PeelsExactly(f: Body, policy: Policy)
    requires Balanced(f) && Early(f)
    ensures Peels(f, policy) <==> ReadsBack(f, policy)
    ensures Peels(f, policy) ==> exists run :: IsRun(f, policy, run) && !FlatReads(f, run)
  {
    hide *;
    if Peels(f, policy) {
      var p, parent, i, child, p2 := PeelsHas(f, policy);
      var r := PeelPath(f, policy, p, parent, i, child, p2);
      PathReadsBack(f, policy, r);
      var run := ReadsBackRun(f, policy);
      NotFlat(f, policy, run);
    } else if ReadsBack(f, policy) {
      var run := ReadsBackRun(f, policy);
      UnpeeledSafe(f, policy, run);
    }
  }

  lemma PeelsHas(f: Body, policy: Policy) returns (p: Path, parent: nat, i: nat, child: nat, p2: Path)
    requires Peels(f, policy)
    ensures ReadsAlong(f, p, parent, i) && BuiltFrom(f, p2, parent, i, child) && !Escapes(f, policy, child)
  {
    hide ReadsAlong, BuiltFrom, Escapes;
    p, parent, i, child :| ReadsAlong(f, p, parent, i) && MadeFrom(f, parent, i, child) && !Escapes(f, policy, child);
    p2 :| BuiltFrom(f, p2, parent, i, child);
  }

  lemma NotFlat(f: Body, policy: Policy, run: seq<Frame>)
    requires IsRun(f, policy, run) && (forall k | 0 <= k < |run| :: run[k].pc < |f.code|)
    requires !SafeReads(f, policy, run)
    ensures exists run :: IsRun(f, policy, run) && !FlatReads(f, run)
  {
    hide Step, Start, FlatReads, SafeReads;
    if FlatReads(f, run) { FlatIsSafe(f, policy, run); }
  }
}
