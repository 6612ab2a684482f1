/** What the two scope policies and their reports are good for
    (crates/lex-bytecode/src/escape.rs:64-85, crates/lex-bytecode/src/arena.rs). */
module Arena {
  import Bytecode
  import opened Bodies
  import opened Lowering
  import opened EscapeDomain
  import opened EscapeStep
  import opened EscapePaths
  import opened EscapeAnalysis
  import opened FrameMachine
  import EscapeSoundness
  import opened EscapeOrigins
  import opened EscapeLeaves

  datatype ArenaSite = ArenaSite(pc: nat, kind: SiteKind, shape: nat, fieldCount: nat, eligible: bool)

  datatype ArenaReport = ArenaReport(fnName: string, sites: seq<ArenaSite>)

  // ---- the policies ----

  /** The policies differ only through `Return`: a site leaked under the frame policy but not under
      the request policy sits in the operand of a `Return` at the end of some path. */
  lemma DifferOnlyAtReturn(f: Body, site: nat)
    ensures LeakedBy(f, RequestScope, site) ==> LeakedBy(f, FrameScope, site)
    ensures LeakedBy(f, FrameScope, site) && !LeakedBy(f, RequestScope, site) ==>
      exists p :: LeaksAlong(f, FrameScope, p, site) && f.code[Last(p)].Returns?
  {
    hide PathState, SitesOf, Popped;
    if LeakedBy(f, RequestScope, site) {
      var p :| LeaksAlong(f, RequestScope, p, site);
      SameOffReturn(f, p, site);
      assert LeaksAlong(f, FrameScope, p, site);
    } else if LeakedBy(f, FrameScope, site) {
      var p :| LeaksAlong(f, FrameScope, p, site);
      SameOffReturn(f, p, site);
      assert !LeaksAlong(f, RequestScope, p, site);
    }
  }

  lemma SameOffReturn(f: Body, p: Path, site: nat)
    requires IsPath(f.code, p)
    ensures LeaksAlong(f, RequestScope, p, site) ==> LeaksAlong(f, FrameScope, p, site)
    ensures LeaksAlong(f, FrameScope, p, site) && !LeaksAlong(f, RequestScope, p, site) ==> f.code[Last(p)].Returns?
  {
    hide PathState;
    var a := ActionAt(f, Last(p));
    assert a.Ret? ==> LeakCount(a, RequestScope) == 0;
    assert a.Ret? ==> Leaked(a, PathState(f, p), RequestScope) == {};
    assert a.Ret? ==> f.code[Last(p)].Returns?;
    hide Abstracts;
  }

  /** A site safe for the frame is safe for the request. */
  lemma FrameSafeIsRequestSafe(f: Body, site: nat)
    ensures Escapes(f, RequestScope, site) ==> Escapes(f, FrameScope, site)
  {
    hide LeakedBy, Holds;
    if Escapes(f, RequestScope, site) {
      var c :| Chain(f, RequestScope, c) && c[|c| - 1] == site;
      DifferOnlyAtReturn(f, c[0]);
      assert Chain(f, FrameScope, c);
    }
  }

  // ---- reports ----

  ghost predicate ExactArena(f: Bytecode.Function, report: ArenaReport)
    requires Bytecode.Unfused(f.code)
  {
    && report.fnName == f.name
    && (forall i, j | 0 <= i < j < |report.sites| :: report.sites[i].pc < report.sites[j].pc)
    && (forall pc: nat | pc < |f.code| && Candidate(f.code[pc]) ::
          ArenaFor(SiteFor(f.code[pc], pc, Escapes(Lowered(f), RequestScope, pc))) in report.sites)
    && (forall r | r in report.sites ::
          r.pc < |f.code| && Candidate(f.code[r.pc]) && (r.eligible <==> !Escapes(Lowered(f), RequestScope, r.pc)))
  }

  function ArenaFor(s: EscapeSite): ArenaSite {
    ArenaSite(s.pc, s.kind, s.shape, s.fieldCount, !s.escapes)
  }

  /** The request-scope wrapper (arena.rs:85-99): on balanced code a site is arena-eligible exactly
      when it does not escape the request. */
  method AnalyzeArena(f: Bytecode.Function) returns (report: ArenaReport)
    requires Bytecode.Unfused(f.code)
    ensures Accepted(f) ==> ExactArena(f, report)
  {
    var r := AnalyzeFunction(f, RequestScope);
    hide Accepted, Escapes, Lowered;
    var sites := seq(|r.sites|, i requires 0 <= i < |r.sites| => ArenaFor(r.sites[i]));
    report := ArenaReport(r.fnName, sites);
    if Accepted(f) {
      ArenaExact(f, r, report);
    }
  }

  lemma ArenaExact(f: Bytecode.Function, r: EscapeReport, report: ArenaReport)
    requires Bytecode.Unfused(f.code) && ExactReport(f, RequestScope, r)
    requires report.fnName == r.fnName && |report.sites| == |r.sites|
    requires forall i | 0 <= i < |r.sites| :: report.sites[i] == ArenaFor(r.sites[i])
    ensures ExactArena(f, report)
  {
    hide Escapes, Lowered;
    forall s | s in report.sites
      ensures s.pc < |f.code| && Candidate(f.code[s.pc]) && (s.eligible <==> !Escapes(Lowered(f), RequestScope, s.pc))
    {
      var i :| 0 <= i < |report.sites| && report.sites[i] == s;
      assert r.sites[i] in r.sites;
    }
    forall pc: nat | pc < |f.code| && Candidate(f.code[pc])
      ensures ArenaFor(SiteFor(f.code[pc], pc, Escapes(Lowered(f), RequestScope, pc))) in report.sites
    {
      var s := SiteFor(f.code[pc], pc, Escapes(Lowered(f), RequestScope, pc));
      assert s in r.sites;
      var i :| 0 <= i < |r.sites| && r.sites[i] == s;
      assert report.sites[i] == ArenaFor(s);
    }
  }

  /** The report against the machine: where nothing of a cleared site leaves along a possible path, nothing built at
      a cleared site is ever handed over in any run, alone or inside something else. */
  lemma ClearedNeverLeaves(f: Bytecode.Function, policy: Policy, report: EscapeReport, site: EscapeSite, run: seq<Frame>)
    requires Bytecode.Unfused(f.code) && ExactReport(f, policy, report)
    requires site in report.sites && !site.escapes
    requires !LetsGo(Lowered(f), policy) && IsRun(Lowered(f), policy, run)
    ensures var s := run[|run| - 1];
            forall id | id in s.gone + Leaving(BehaviourAt(Lowered(f), s.pc), policy, s) ::
              id < |s.heap| && s.heap[id].site != site.pc
  {
    hide Escapes, Lowered, Leaving, LetsGo, Step, Start;
    HandsOverExactly(Lowered(f), policy);
    assert !Escapes(Lowered(f), policy, site.pc);
    HandsIf(Lowered(f), policy, run);
    LeftIsBuilt(Lowered(f), policy, run);
  }

  lemma HandsIf(f: Body, policy: Policy, run: seq<Frame>)
    requires IsRun(f, policy, run)
    ensures |run| > 0 && run[|run| - 1].pc < |f.code|
    ensures HandsCleared(f, policy, run) ==> SomeRunHands(f, policy)
  {
    hide Step, Start, HandsCleared;
    if HandsCleared(f, policy, run) { assert RunHands(f, policy, run); }
  }

  lemma LeftIsBuilt(f: Body, policy: Policy, run: seq<Frame>)
    requires IsRun(f, policy, run)
    ensures |run| > 0 && run[|run| - 1].pc < |f.code|
    ensures var s := run[|run| - 1]; forall id | id in s.gone + Leaving(BehaviourAt(f, s.pc), policy, s) :: id < |s.heap|
  {
    hide *;
    RunStarts(f, policy, run);
    RunTracks(f, policy, run);
    TracksEnd(f, policy, Pcs(run), run);
    var s := run[|run| - 1];
    TrackedHas(f, Pcs(run), run, s);
    ClosedSplits(s.heap, s.gone);
    LeavingClosed(BehaviourAt(f, s.pc), policy, s);
    UnionClosed(s.heap, s.gone, Leaving(BehaviourAt(f, s.pc), policy, s));
    ClosedInHas(s.heap, s.gone + Leaving(BehaviourAt(f, s.pc), policy, s));
  }

  lemma ClosedInHas(heap: seq<Obj>, ids: set<nat>)
    requires ClosedIn(heap, ids)
    ensures forall id | id in ids :: id < |heap|
  {
  }

  /** Where no read peels, nothing of a cleared site leaves. */
  lemma UnpeeledLetsNothingGo(f: Body, policy: Policy)
    requires !Peels(f, policy)
    ensures !LetsGo(f, policy)
  {
    hide *;
    HandsOverExactly(f, policy);
    if LetsGo(f, policy) {
      var run, id := HandsHas(f, policy);
      EscapeSoundness.EscapeSound(f, policy, run);
    }
  }
}
