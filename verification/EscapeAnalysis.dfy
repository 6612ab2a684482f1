/** The worklist fixpoint of the escape analysis and its containment closure
    (crates/lex-bytecode/src/escape.rs:289-381), proved to compute exactly `EscapePaths.Escapes`. */
module EscapeAnalysis {
  import opened Options
  import Bytecode
  import opened Bodies
  import opened Lowering
  import opened EscapeDomain
  import opened EscapeStep
  import opened EscapePaths
  import opened EscapeTermination

  datatype SiteKind = Record | Tuple

  datatype EscapeSite = EscapeSite(pc: nat, kind: SiteKind, shape: nat, fieldCount: nat, escapes: bool)

  datatype EscapeReport = EscapeReport(fnName: string, sites: seq<EscapeSite>)

  type Containment = map<nat, set<nat>>

  // ---- upper bound: everything the loop holds is witnessed by a path ----

  /** Some path to `pc` carries `site` in the given slot. */
  ghost predicate Tracks(f: Body, pc: nat, src: Source, site: nat)
  {
    exists p :: PathTo(f.code, p, pc) && site in SourceSites(src, pc, PathState(f, p))
  }

  predicate IsSlot(src: Source) {
    src.FromStack? || src.FromLocal?
  }

  ghost predicate Traced(f: Body, pc: nat, s: State)
  {
    && Bounded(f, s)
    && (exists p :: PathTo(f.code, p, pc) && |PathState(f, p).stack| == |s.stack|)
    && forall src, site | IsSlot(src) && site in SourceSites(src, pc, s) :: Tracks(f, pc, src, site)
  }

  lemma EntryTraced(f: Body)
    requires f.code != []
    ensures Traced(f, 0, Entry(f.localsCount, f.arity))
  {
    assert PathTo(f.code, [0], 0) && PathState(f, [0]) == Entry(f.localsCount, f.arity);
  }

  lemma SameHeight(f: Body, p: Path, q: Path)
    requires Balanced(f)
    requires IsPath(f.code, p) && IsPath(f.code, q) && Last(p) == Last(q)
    ensures |PathState(f, p).stack| == |PathState(f, q).stack|
  {
    PathHeight(f, p);
    PathHeight(f, q);
  }

  lemma JoinTraced(f: Body, pc: nat, s: State, t: State)
    requires Balanced(f) && Traced(f, pc, s) && Traced(f, pc, t)
    ensures |s.stack| == |t.stack|
    ensures Traced(f, pc, MergeWith(s, t).0)
  {
    hide MergeWith, Balanced, Leq, PathState, Sites, Get, Tracks, Weight;
    var p :| PathTo(f.code, p, pc) && |PathState(f, p).stack| == |s.stack|;
    var q :| PathTo(f.code, q, pc) && |PathState(f, q).stack| == |t.stack|;
    SameHeight(f, p, q);
    MergeSameDepth(s, t);
    MergeBounded(f, s, t);
    hide Bounded;
    var m := MergeWith(s, t).0;
    forall src, site | IsSlot(src) && site in SourceSites(src, pc, m)
      ensures Tracks(f, pc, src, site)
    {
      assert site in SourceSites(src, pc, s) || site in SourceSites(src, pc, t);
    }
  }

  /** A site in a slot of a traced state is there on some path of the same stack height. */
  lemma TracePath(f: Body, pc: nat, s: State, src: Source, site: nat) returns (p: Path)
    requires Balanced(f) && Traced(f, pc, s)
    requires IsSlot(src) && site in SourceSites(src, pc, s)
    ensures PathTo(f.code, p, pc) && |PathState(f, p).stack| == |s.stack|
    ensures site in SourceSites(src, pc, PathState(f, p))
  {
    assert Tracks(f, pc, src, site);
    p :| PathTo(f.code, p, pc) && site in SourceSites(src, pc, PathState(f, p));
    var q :| PathTo(f.code, q, pc) && |PathState(f, q).stack| == |s.stack|;
    SameHeight(f, p, q);
  }

  /** Origin of a site in the successor state, as a slot (or the site itself) of a path state. */
  lemma OriginPath(f: Body, pc: nat, s: State, src: Source, site: nat) returns (p: Path)
    requires Balanced(f) && pc < |f.code| && Traced(f, pc, s)
    requires site in SourceSites(src, pc, s)
    ensures PathTo(f.code, p, pc) && |PathState(f, p).stack| == |s.stack|
    ensures site in SourceSites(src, pc, PathState(f, p))
  {
    if IsSlot(src) {
      p := TracePath(f, pc, s, src, site);
    } else {
      p :| PathTo(f.code, p, pc) && |PathState(f, p).stack| == |s.stack|;
    }
  }

  lemma StepTraced(f: Body, pc: nat, s: State, next: nat)
    requires Balanced(f) && pc < |f.code| && Traced(f, pc, s)
    requires Edge(f.code, pc, next)
    ensures Traced(f, next, StepOut(ActionAt(f, pc), pc, s))
  {
    hide StepOut, Abstracts, Balanced, Bounded, PathState, StackSource, LocalSource, Sites, Get;
    var a := ActionAt(f, pc);
    var out := StepOut(a, pc, s);
    StepBounded(f, pc, s);
    var p :| PathTo(f.code, p, pc) && |PathState(f, p).stack| == |s.stack|;
    PathHeight(f, p);
    PathStateExtends(f, p, next);
    StepHeight(a, pc, s);
    StepHeight(a, pc, PathState(f, p));
    assert PathTo(f.code, p + [next], next);
    forall src, site | IsSlot(src) && site in SourceSites(src, next, out)
      ensures Tracks(f, next, src, site)
    {
      StackFrom(a, pc, s, src.i);
      LocalFrom(a, pc, s, src.i);
      var from := if src.FromStack? then StackSource(a, |s.stack|, src.i) else LocalSource(a, |s.stack|, src.i);
      var q := OriginPath(f, pc, s, from, site);
      PathStateExtends(f, q, next);
      StackFrom(a, pc, PathState(f, q), src.i);
      LocalFrom(a, pc, PathState(f, q), src.i);
      assert PathTo(f.code, q + [next], next);
      assert site in SourceSites(src, next, PathState(f, q + [next]));
    }
  }

  lemma LeaksWitnessed(f: Body, policy: Policy, pc: nat, s: State, site: nat)
    requires Balanced(f) && pc < |f.code| && Traced(f, pc, s)
    ensures site in Leaked(ActionAt(f, pc), s, policy) ==> LeakedBy(f, policy, site)
    ensures site in Contained(ActionAt(f, pc), pc, s) ==> Holds(f, pc, site)
  {
    hide Abstracts, Leaked, Contained, LeakFloor, HoldFloor, Balanced, PathState, Traced, Sites, Get;
    var a := ActionAt(f, pc);
    LeakedFrom(a, s, policy, site);
    ContainedFrom(a, pc, s, site);
    if site in Leaked(a, s, policy) {
      var i: nat :| LeakFloor(a, policy, |s.stack|) <= i && site in Sites(Get(s.stack, i));
      var p := TracePath(f, pc, s, FromStack(i), site);
      LeakedFrom(a, PathState(f, p), policy, site);
      assert LeaksAlong(f, policy, p, site);
    }
    if site in Contained(a, pc, s) {
      var i: nat :| HoldFloor(a, |s.stack|) <= i && site in Sites(Get(s.stack, i));
      var p := TracePath(f, pc, s, FromStack(i), site);
      ContainedFrom(a, pc, PathState(f, p), site);
      assert HoldsAlong(f, p, pc, site);
    }
  }

  function Within(containment: Containment, parent: nat): set<nat> {
    if parent in containment then containment[parent] else {}
  }

  ghost predicate Witnessed(f: Body, policy: Policy, inState: InStates, work: Work,
                            escaped: set<nat>, containment: Containment)
    requires |inState| == |f.code|
  {
    && (forall pc: nat | pc < |f.code| && inState[pc].Some? :: Traced(f, pc, inState[pc].value))
    && (forall w | w in work :: w.0 < |f.code| && Traced(f, w.0, w.1))
    && (forall site | site in escaped :: LeakedBy(f, policy, site))
    && (forall p, c | c in Within(containment, p) :: Holds(f, p, c))
  }

  // ---- lower bound: nothing a path carries is missed ----

  /** A state flowing into `pc` is pending, or the state recorded there already covers it. */
  ghost predicate Accounted(inState: InStates, work: Work, pc: nat, s: State)
    requires pc < |inState|
  {
    (pc, s) in work || (inState[pc].Some? && Leq(s, inState[pc].value))
  }

  ghost predicate SettledAt(f: Body, policy: Policy, inState: InStates, work: Work,
                            escaped: set<nat>, containment: Containment, pc: nat)
    requires |inState| == |f.code| && pc < |f.code| && inState[pc].Some?
  {
    var s, a := inState[pc].value, ActionAt(f, pc);
    && Leaked(a, s, policy) <= escaped
    && Contained(a, pc, s) <= Within(containment, pc)
    && forall t | t in StepSuccs(a, pc) && InCode(f.code, t) :: Accounted(inState, work, t, StepOut(a, pc, s))
  }

  ghost predicate Settled(f: Body, policy: Policy, inState: InStates, work: Work,
                          escaped: set<nat>, containment: Containment)
    requires |inState| == |f.code| > 0
  {
    && Accounted(inState, work, 0, Entry(f.localsCount, f.arity))
    && forall pc: nat | pc < |f.code| && inState[pc].Some? ::
         SettledAt(f, policy, inState, work, escaped, containment, pc)
  }

  lemma AccountedGrows(inState: InStates, work: Work, pc: nat, incoming: State, m: State, work': Work,
                       t: nat, s: State)
    requires pc < |inState| && t < |inState|
    requires Accounted(inState, work + [(pc, incoming)], t, s)
    requires Leq(incoming, m) && (inState[pc].Some? ==> Leq(inState[pc].value, m))
    requires forall w | w in work :: w in work'
    ensures Accounted(inState[pc := Some(m)], work', t, s)
  {
    hide Leq;
    if t == pc && inState[pc].Some? && Leq(s, inState[pc].value) {
      LeqTransitive(s, inState[pc].value, m);
    }
  }

  lemma ProcessKeepsSettled(f: Body, policy: Policy, inState: InStates, work: Work,
                            escaped: set<nat>, containment: Containment,
                            pc: nat, incoming: State, m: State,
                            work': Work, escaped': set<nat>, containment': Containment)
    requires |inState| == |f.code| > 0 && pc < |f.code|
    requires Settled(f, policy, inState, work + [(pc, incoming)], escaped, containment)
    requires Leq(incoming, m) && (inState[pc].Some? ==> Leq(inState[pc].value, m))
    requires escaped + Leaked(ActionAt(f, pc), m, policy) <= escaped'
    requires forall p :: Within(containment, p) <= Within(containment', p)
    requires Contained(ActionAt(f, pc), pc, m) <= Within(containment', pc)
    requires forall w | w in work :: w in work'
    requires forall t | t in StepSuccs(ActionAt(f, pc), pc) && 0 <= t < |f.code| ::
               (t as nat, StepOut(ActionAt(f, pc), pc, m)) in work'
    ensures Settled(f, policy, inState[pc := Some(m)], work', escaped', containment')
  {
    hide Leq, Leaked, Contained, StepOut, StepSuccs, Abstracts, Within;
    AccountedGrows(inState, work, pc, incoming, m, work', 0, Entry(f.localsCount, f.arity));
    var inState' := inState[pc := Some(m)];
    forall q: nat | q < |f.code| && inState'[q].Some?
      ensures SettledAt(f, policy, inState', work', escaped', containment', q)
    {
      if q != pc {
        assert SettledAt(f, policy, inState, work + [(pc, incoming)], escaped, containment, q);
        var out := StepOut(ActionAt(f, q), q, inState[q].value);
        forall t | t in StepSuccs(ActionAt(f, q), q) && InCode(f.code, t)
          ensures Accounted(inState', work', t, out)
        {
          AccountedGrows(inState, work, pc, incoming, m, work', t, out);
        }
      }
    }
  }

  lemma SkipKeepsSettled(f: Body, policy: Policy, inState: InStates, work: Work,
                         escaped: set<nat>, containment: Containment, pc: nat, incoming: State)
    requires |inState| == |f.code| > 0 && pc < |f.code|
    requires Settled(f, policy, inState, work + [(pc, incoming)], escaped, containment)
    requires inState[pc].Some? && Leq(incoming, inState[pc].value)
    ensures Settled(f, policy, inState, work, escaped, containment)
  {
    hide Leq, Leaked, Contained, StepOut, StepSuccs, Abstracts, Within;
    forall q: nat | q < |f.code| && inState[q].Some?
      ensures SettledAt(f, policy, inState, work, escaped, containment, q)
    {
      assert SettledAt(f, policy, inState, work + [(pc, incoming)], escaped, containment, q);
    }
  }

  lemma ProcessKeepsWitnessed(f: Body, policy: Policy, inState: InStates, work: Work,
                              escaped: set<nat>, containment: Containment,
                              pc: nat, incoming: State, m: State)
    requires Balanced(f) && |inState| == |f.code| > 0 && pc < |f.code|
    requires Witnessed(f, policy, inState, work + [(pc, incoming)], escaped, containment)
    requires Traced(f, pc, m)
    ensures var a, out := ActionAt(f, pc), StepOut(ActionAt(f, pc), pc, m);
            Witnessed(f, policy, inState[pc := Some(m)], work + Pushed(StepSuccs(a, pc), |f.code|, out),
                      escaped + Leaked(a, m, policy),
                      containment[pc := Within(containment, pc) + Contained(a, pc, m)])
            && Witnessed(f, policy, inState[pc := Some(m)], work + Pushed(StepSuccs(a, pc), |f.code|, out),
                         escaped + Leaked(a, m, policy), containment)
  {
    hide Traced, Leaked, Contained, StepOut, StepSuccs, Abstracts, LeakedBy, Holds;
    var a, out := ActionAt(f, pc), StepOut(ActionAt(f, pc), pc, m);
    var next := Pushed(StepSuccs(a, pc), |f.code|, out);
    forall w | w in work + next
      ensures w.0 < |f.code| && Traced(f, w.0, w.1)
    {
      if w in work {
        assert w in work + [(pc, incoming)];
      } else {
        StepTraced(f, pc, m, w.0);
      }
    }
    forall site
      ensures site in Leaked(a, m, policy) ==> LeakedBy(f, policy, site)
      ensures site in Contained(a, pc, m) ==> Holds(f, pc, site)
    {
      LeaksWitnessed(f, policy, pc, m, site);
    }
  }

  lemma SkipKeepsWitnessed(f: Body, policy: Policy, inState: InStates, work: Work,
                           escaped: set<nat>, containment: Containment, pc: nat, incoming: State)
    requires |inState| == |f.code|
    requires Witnessed(f, policy, inState, work + [(pc, incoming)], escaped, containment)
    ensures Witnessed(f, policy, inState, work, escaped, containment)
    ensures pc < |f.code| && Traced(f, pc, incoming)
  {
    hide Traced, LeakedBy, Holds;
    assert (pc, incoming) in work + [(pc, incoming)];
    assert forall w | w in work :: w in work + [(pc, incoming)];
  }

  /** Successors inside the code, each with the same outgoing state. */
  function Pushed(succs: seq<int>, n: nat, out: State): (r: Work)
    ensures forall w :: w in r <==> w.0 < n && w.0 in succs && w.1 == out
  {
    if succs == [] then [] else
      assert succs == [succs[0]] + succs[1..];
      (if 0 <= succs[0] < n then [(succs[0] as nat, out)] else []) + Pushed(succs[1..], n, out)
  }

  // ---- the closure over containment ----

  ghost predicate ClosedUnder(containment: Containment, s: set<nat>) {
    forall p | p in s :: Within(containment, p) <= s
  }

  function Contents(containment: Containment): set<nat> {
    set p, c | p in containment && c in containment[p] :: c
  }

  /** The least set that holds the seed and the recorded contents of its members (escape.rs:359-369). */
  method Close(seed: set<nat>, containment: Containment) returns (escaped: set<nat>)
    ensures seed <= escaped && ClosedUnder(containment, escaped)
    ensures forall x | seed <= x && ClosedUnder(containment, x) :: escaped <= x
  {
    escaped := seed;
    var changed := true;
    while changed
      invariant seed <= escaped
      invariant forall x | seed <= x && ClosedUnder(containment, x) :: escaped <= x
      invariant !changed ==> ClosedUnder(containment, escaped)
      decreases |Contents(containment) - escaped|, changed
    {
      changed := false;
      var snapshot := escaped;
      var rest := snapshot;
      while rest != {}
        invariant rest <= snapshot <= escaped
        invariant changed <==> escaped != snapshot
        invariant escaped <= snapshot + Contents(containment)
        invariant forall p | p in snapshot - rest :: Within(containment, p) <= escaped
        invariant forall x | seed <= x && ClosedUnder(containment, x) :: escaped <= x
        decreases rest
      {
        var p :| p in rest;
        var more := Within(containment, p);
        if !(more <= escaped) { changed := true; }
        escaped := escaped + more;
        rest := rest - {p};
      }
      if changed {
        assert Contents(containment) - escaped < Contents(containment) - snapshot;
        SubsetSize(Contents(containment) - escaped, Contents(containment) - snapshot);
      }
    }
  }

  // ---- the fixpoint reached is the path specification ----

  lemma {:induction false} PathCovered(f: Body, policy: Policy, inState: InStates,
                                       escaped: set<nat>, containment: Containment, p: Path)
    requires |inState| == |f.code| > 0 && IsPath(f.code, p)
    requires Settled(f, policy, inState, [], escaped, containment)
    ensures inState[Last(p)].Some? && Leq(PathState(f, p), inState[Last(p)].value)
    decreases |p|
  {
    hide Leq, Leaked, Contained, StepOut, StepSuccs, Abstracts;
    if |p| > 1 {
      PathPrefix(f.code, p);
      var q := p[..|p| - 1];
      var pc := Last(q);
      PathCovered(f, policy, inState, escaped, containment, q);
      assert SettledAt(f, policy, inState, [], escaped, containment, pc);
      var s := inState[pc].value;
      StepMonotone(ActionAt(f, pc), pc, PathState(f, q), s, policy);
      assert Accounted(inState, [], Last(p), StepOut(ActionAt(f, pc), pc, s));
      LeqTransitive(PathState(f, p), StepOut(ActionAt(f, pc), pc, s), inState[Last(p)].value);
    }
  }

  lemma FixpointComplete(f: Body, policy: Policy, inState: InStates,
                         escaped: set<nat>, containment: Containment)
    requires |inState| == |f.code| > 0
    requires Settled(f, policy, inState, [], escaped, containment)
    ensures forall site | LeakedBy(f, policy, site) :: site in escaped
    ensures forall p, c | Holds(f, p, c) :: c in Within(containment, p)
  {
    hide Leq, Leaked, Contained, StepOut, StepSuccs, Abstracts, Within;
    forall site | LeakedBy(f, policy, site) ensures site in escaped {
      var p :| LeaksAlong(f, policy, p, site);
      PathCovered(f, policy, inState, escaped, containment, p);
      var pc := Last(p);
      StepMonotone(ActionAt(f, pc), pc, PathState(f, p), inState[pc].value, policy);
      assert SettledAt(f, policy, inState, [], escaped, containment, pc);
    }
    forall pc: nat, c | Holds(f, pc, c) ensures c in Within(containment, pc) {
      var p :| HoldsAlong(f, p, pc, c);
      PathCovered(f, policy, inState, escaped, containment, p);
      StepMonotone(ActionAt(f, pc), pc, PathState(f, p), inState[pc].value, policy);
      assert SettledAt(f, policy, inState, [], escaped, containment, pc);
    }
  }

  lemma EscapesInside(f: Body, policy: Policy, containment: Containment, escaped: set<nat>, site: nat)
    requires Escapes(f, policy, site)
    requires forall s | LeakedBy(f, policy, s) :: s in escaped
    requires forall p, c | Holds(f, p, c) :: c in Within(containment, p)
    requires ClosedUnder(containment, escaped)
    ensures site in escaped
  {
    hide LeakedBy, Holds;
    var c :| Chain(f, policy, c) && c[|c| - 1] == site;
    EscapesLeast(f, policy, escaped, c);
  }

  lemma EscapingPartClosed(f: Body, policy: Policy, containment: Containment, seed: set<nat>,
                           escaped: set<nat>, x: set<nat>)
    requires seed <= escaped && ClosedUnder(containment, escaped)
    requires forall s | s in seed :: LeakedBy(f, policy, s)
    requires forall p, c | c in Within(containment, p) :: Holds(f, p, c)
    requires x == set s | s in escaped && Escapes(f, policy, s)
    ensures seed <= x && ClosedUnder(containment, x)
  {
    hide LeakedBy, Holds, Escapes, Within;
    forall s | s in seed ensures s in x {
      LeakedEscapes(f, policy, s);
    }
    forall p, c | p in x && c in Within(containment, p) ensures c in x {
      ContentsEscape(f, policy, p, c);
    }
  }

  /** The closed fixpoint is exactly the set of escaping sites. */
  lemma ClosureIsEscapes(f: Body, policy: Policy, inState: InStates,
                         seed: set<nat>, containment: Containment, escaped: set<nat>)
    requires |inState| == |f.code| > 0
    requires Settled(f, policy, inState, [], seed, containment)
    requires Witnessed(f, policy, inState, [], seed, containment)
    requires seed <= escaped && ClosedUnder(containment, escaped)
    requires forall x | seed <= x && ClosedUnder(containment, x) :: escaped <= x
    ensures forall site :: site in escaped <==> Escapes(f, policy, site)
  {
    hide Settled, LeakedBy, Holds, Traced, Escapes, Within, ClosedUnder;
    FixpointComplete(f, policy, inState, seed, containment);
    forall site | Escapes(f, policy, site) ensures site in escaped {
      EscapesInside(f, policy, containment, escaped, site);
    }
    ghost var x := set s | s in escaped && Escapes(f, policy, s);
    EscapingPartClosed(f, policy, containment, seed, escaped, x);
  }

  // ---- the analysis ----

  predicate Candidate(op: Bytecode.Op) {
    op.MakeRecord? || op.MakeTuple?
  }

  function SiteFor(op: Bytecode.Op, pc: nat, escapes: bool): EscapeSite
    requires Candidate(op)
  {
    match op
    case MakeRecord(shape, n) => EscapeSite(pc, Record, shape, n, escapes)
    case MakeTuple(n) => EscapeSite(pc, Tuple, 0, n, escapes)
  }

  /** Candidate pcs in code order. */
  method Inventory(code: Bytecode.Code) returns (pcs: seq<nat>)
    ensures StrictlySorted(pcs)
    ensures forall pc: nat :: pc in pcs <==> pc < |code| && Candidate(code[pc])
  {
    pcs := [];
    for pc := 0 to |code|
      invariant StrictlySorted(pcs) && forall i | 0 <= i < |pcs| :: pcs[i] < pc
      invariant forall q: nat :: q in pcs <==> q < pc && Candidate(code[q])
    {
      if Candidate(code[pc]) {
        pcs := pcs + [pc];
      }
    }
  }

  /** The report lists each record and tuple site once, in code order, and flags a site
      exactly when it escapes. */
  ghost predicate ExactReport(f: Bytecode.Function, policy: Policy, report: EscapeReport)
    requires Bytecode.Unfused(f.code)
  {
    && report.fnName == f.name
    && (forall i, j | 0 <= i < j < |report.sites| :: report.sites[i].pc < report.sites[j].pc)
    && (forall pc: nat | pc < |f.code| && Candidate(f.code[pc]) ::
          SiteFor(f.code[pc], pc, Escapes(Lowered(f), policy, pc)) in report.sites)
    && (forall r | r in report.sites ::
          r.pc < |f.code| && Candidate(f.code[r.pc]) && r == SiteFor(f.code[r.pc], r.pc, Escapes(Lowered(f), policy, r.pc)))
  }

  lemma ReportExact(f: Bytecode.Function, policy: Policy, pcs: seq<nat>, escaped: set<nat>, sites: seq<EscapeSite>)
    requires Bytecode.Unfused(f.code) && StrictlySorted(pcs)
    requires forall pc: nat :: pc in pcs <==> pc < |f.code| && Candidate(f.code[pc])
    requires forall pc | pc in pcs :: pc in escaped <==> Escapes(Lowered(f), policy, pc)
    requires |sites| == |pcs|
    requires forall i | 0 <= i < |pcs| :: pcs[i] in pcs && sites[i] == SiteFor(f.code[pcs[i]], pcs[i], pcs[i] in escaped)
    ensures ExactReport(f, policy, EscapeReport(f.name, sites))
  {
    hide Escapes;
    forall pc: nat | pc < |f.code| && Candidate(f.code[pc])
      ensures SiteFor(f.code[pc], pc, Escapes(Lowered(f), policy, pc)) in sites
    {
      assert pc in pcs;
      var i :| 0 <= i < |pcs| && pcs[i] == pc;
      assert sites[i] == SiteFor(f.code[pc], pc, Escapes(Lowered(f), policy, pc));
    }
  }

  ghost predicate AllBounded(f: Body, states: InStates, work: Work) {
    (forall pc: nat | pc < |states| && states[pc].Some? :: Bounded(f, states[pc].value))
    && forall w | w in work :: w.0 < |f.code| && Bounded(f, w.1)
  }

  ghost predicate LoopInvariant(f: Body, policy: Policy, states: InStates, work: Work,
                                escaped: set<nat>, containment: Containment)
  {
    && |states| == |f.code| > 0
    && AllBounded(f, states, work)
    && (Balanced(f) ==> Witnessed(f, policy, states, work, escaped, containment)
                        && Settled(f, policy, states, work, escaped, containment))
  }

  lemma StartHolds(f: Body, policy: Policy)
    requires f.code != []
    ensures LoopInvariant(f, policy, seq(|f.code|, _ => None), [(0, Entry(f.localsCount, f.arity))], {}, map[])
  {
    EntryTraced(f);
    hide Balanced, PathState, Bounded;
  }

  lemma PendingTraced(f: Body, policy: Policy, inState: InStates, work: Work,
                      escaped: set<nat>, containment: Containment, pc: nat, incoming: State)
    requires |inState| == |f.code|
    requires Witnessed(f, policy, inState, work + [(pc, incoming)], escaped, containment)
    ensures pc < |f.code| && Traced(f, pc, incoming)
    ensures inState[pc].Some? ==> Traced(f, pc, inState[pc].value)
  {
    hide Traced, LeakedBy, Holds;
    assert (pc, incoming) in work + [(pc, incoming)];
  }

  lemma MergeFacts(f: Body, pc: nat, prev: State, incoming: State)
    requires Balanced(f) && Traced(f, pc, prev) && Traced(f, pc, incoming)
    ensures var (m, dropped) := MergeWith(prev, incoming);
            dropped == {} && Traced(f, pc, m) && Leq(prev, m) && Leq(incoming, m)
            && (m != prev ==> Weight(prev) < Weight(m))
  {
    JoinTraced(f, pc, prev, incoming);
    hide MergeWith, Leq, Weight, Balanced, PathState;
    MergeSameDepth(prev, incoming);
  }

  lemma LeqReflexive(s: State)
    ensures Leq(s, s)
  {
  }

  lemma RecordedWithin(before: Containment, after: Containment, a: Action, pc: nat, m: State)
    requires after == if a.Build? then before[pc := Within(before, pc) + Contained(a, pc, m)] else before
    ensures forall p :: Within(before, p) <= Within(after, p)
    ensures Contained(a, pc, m) <= Within(after, pc)
  {
  }

  /** Skipping an entry the recorded state already covers. */
  lemma SkipStep(f: Body, policy: Policy, states: InStates, work: Work,
                 escaped: set<nat>, containment: Containment, pc: nat, incoming: State)
    requires LoopInvariant(f, policy, states, work + [(pc, incoming)], escaped, containment)
    requires pc < |states| && states[pc].Some? && MergeWith(states[pc].value, incoming) == (states[pc].value, {})
    ensures LoopInvariant(f, policy, states, work, escaped, containment)
    ensures Backlog(|f.code|, work) < Backlog(|f.code|, work + [(pc, incoming)])
  {
    hide MergeWith, Balanced, Witnessed, Settled, Bounded, Traced, Leq, Backlog, Weight;
    SkipShrinksLoad(|f.code|, work, (pc, incoming));
    assert forall w | w in work :: w in work + [(pc, incoming)];
    if Balanced(f) {
      PendingTraced(f, policy, states, work, escaped, containment, pc, incoming);
      MergeFacts(f, pc, states[pc].value, incoming);
      SkipKeepsSettled(f, policy, states, work, escaped, containment, pc, incoming);
      SkipKeepsWitnessed(f, policy, states, work, escaped, containment, pc, incoming);
    }
  }

  lemma PendingBounded(f: Body, policy: Policy, states: InStates, work: Work,
                       escaped: set<nat>, containment: Containment, pc: nat, incoming: State)
    requires LoopInvariant(f, policy, states, work + [(pc, incoming)], escaped, containment)
    ensures pc < |f.code| && Bounded(f, incoming)
    ensures states[pc].Some? ==> Bounded(f, states[pc].value)
  {
    hide Balanced, Witnessed, Settled, Bounded;
    assert (pc, incoming) in work + [(pc, incoming)];
  }

  /** The state recorded when an entry is processed. */
  function Recorded(before: Option<State>, incoming: State): (State, set<nat>) {
    if before.Some? then MergeWith(before.value, incoming) else (incoming, {})
  }

  function Noted(containment: Containment, a: Action, pc: nat, m: State): Containment {
    if a.Build? then containment[pc := Within(containment, pc) + Contained(a, pc, m)] else containment
  }

  lemma ProcessKeepsBounded(f: Body, policy: Policy, states: InStates, work: Work,
                            escaped: set<nat>, containment: Containment, pc: nat, incoming: State)
    requires LoopInvariant(f, policy, states, work + [(pc, incoming)], escaped, containment)
    requires pc < |f.code|
    ensures var m := Recorded(states[pc], incoming).0;
            Bounded(f, m)
            && AllBounded(f, states[pc := Some(m)],
                          work + Pushed(StepSuccs(ActionAt(f, pc), pc), |f.code|, StepOut(ActionAt(f, pc), pc, m)))
  {
    hide MergeWith, Balanced, Witnessed, Settled, Bounded, StepOut, StepSuccs, ActionAt, Weight;
    PendingBounded(f, policy, states, work, escaped, containment, pc, incoming);
    if states[pc].Some? {
      MergeBounded(f, states[pc].value, incoming);
    }
    var m := Recorded(states[pc], incoming).0;
    StepBounded(f, pc, m);
    assert forall w | w in work :: w in work + [(pc, incoming)];
  }

  lemma ProcessExact(f: Body, policy: Policy, states: InStates, work: Work,
                     escaped: set<nat>, containment: Containment, pc: nat, incoming: State)
    requires LoopInvariant(f, policy, states, work + [(pc, incoming)], escaped, containment)
    requires pc < |f.code| && Balanced(f)
    ensures var (m, dropped) := Recorded(states[pc], incoming);
            var a := ActionAt(f, pc);
            var work' := work + Pushed(StepSuccs(a, pc), |f.code|, StepOut(a, pc, m));
            var escaped' := escaped + dropped + Leaked(a, m, policy);
            Witnessed(f, policy, states[pc := Some(m)], work', escaped', Noted(containment, a, pc, m))
            && Settled(f, policy, states[pc := Some(m)], work', escaped', Noted(containment, a, pc, m))
  {
    hide MergeWith, Balanced, Witnessed, Settled, Bounded, Traced, StepOut, StepSuccs, ActionAt, Leaked, Contained, Leq, Within, Weight;
    PendingTraced(f, policy, states, work, escaped, containment, pc, incoming);
    if states[pc].Some? {
      MergeFacts(f, pc, states[pc].value, incoming);
    } else {
      LeqReflexive(incoming);
    }
    var (m, dropped) := Recorded(states[pc], incoming);
    assert dropped == {} && escaped + dropped == escaped;
    var a := ActionAt(f, pc);
    RecordedWithin(containment, Noted(containment, a, pc, m), a, pc, m);
    ProcessKeepsWitnessed(f, policy, states, work, escaped, containment, pc, incoming, m);
    ProcessKeepsSettled(f, policy, states, work, escaped, containment, pc, incoming, m,
                        work + Pushed(StepSuccs(a, pc), |f.code|, StepOut(a, pc, m)),
                        escaped + Leaked(a, m, policy), Noted(containment, a, pc, m));
  }

  /** Processing an entry keeps the invariant and makes progress. */
  lemma ProcessStep(f: Body, policy: Policy, states: InStates, work: Work,
                    escaped: set<nat>, containment: Containment, pc: nat, incoming: State)
    requires LoopInvariant(f, policy, states, work + [(pc, incoming)], escaped, containment)
    requires pc < |states|
    requires states[pc].Some? ==> MergeWith(states[pc].value, incoming) != (states[pc].value, {})
    ensures var (m, dropped) := Recorded(states[pc], incoming);
            var a := ActionAt(f, pc);
            var next := states[pc := Some(m)];
            var work' := work + Pushed(StepSuccs(a, pc), |f.code|, StepOut(a, pc, m));
            LoopInvariant(f, policy, next, work', escaped + dropped + Leaked(a, m, policy), Noted(containment, a, pc, m))
            && Lower(Progress(f, next, work'), Progress(f, states, work + [(pc, incoming)]))
  {
    hide MergeWith, Balanced, Witnessed, Settled, Bounded, StepOut, StepSuccs, ActionAt, Leaked, Noted, Backlog, Marks, Heights, Rooms, Total, Weight;
    PendingBounded(f, policy, states, work, escaped, containment, pc, incoming);
    ProcessKeepsBounded(f, policy, states, work, escaped, containment, pc, incoming);
    var (m, dropped) := Recorded(states[pc], incoming);
    var a := ActionAt(f, pc);
    if states[pc].Some? {
      MergeBounded(f, states[pc].value, incoming);
    }
    RecordProgress(f, states, pc, m);
    if states[pc].Some? && m == states[pc].value {
      PushedFew(a, pc, |f.code|, StepOut(a, pc, m));
      ReprocessShrinksLoad(a, |f.code|, work, pc, m, incoming, Pushed(StepSuccs(a, pc), |f.code|, StepOut(a, pc, m)));
    }
    if Balanced(f) {
      ProcessExact(f, policy, states, work, escaped, containment, pc, incoming);
    }
  }

  lemma PushedFew(a: Action, pc: nat, n: nat, out: State)
    ensures |Pushed(StepSuccs(a, pc), n, out)| <= 2
  {
    PushedLength(StepSuccs(a, pc), n, out);
  }

  lemma {:induction false} PushedLength(succs: seq<int>, n: nat, out: State)
    ensures |Pushed(succs, n, out)| <= |succs|
    decreases |succs|
  {
    if succs != [] { PushedLength(succs[1..], n, out); }
  }

  ghost function Progress(f: Body, states: InStates, work: Work): (nat, nat, nat, nat) {
    (Total(Marks(states)), Total(Heights(states)), Total(Rooms(f, states)), Backlog(|f.code|, work))
  }

  predicate Lower(a: (nat, nat, nat, nat), b: (nat, nat, nat, nat)) {
    a.0 < b.0 || (a.0 == b.0 && (a.1 < b.1 || (a.1 == b.1 && (a.2 < b.2 || (a.2 == b.2 && a.3 < b.3)))))
  }

  /** The worklist loop (escape.rs:324-352). It stops on every function, whether or not the
      verifier accepts it; on balanced code what it leaves is exact. */
  method Fixpoint(f: Body, policy: Policy) returns (ghost inState: InStates, escaped: set<nat>, containment: Containment)
    requires f.code != []
    ensures |inState| == |f.code|
    ensures Balanced(f) ==> Settled(f, policy, inState, [], escaped, containment)
    ensures Balanced(f) ==> Witnessed(f, policy, inState, [], escaped, containment)
  {
    hide MergeWith, Balanced, Witnessed, Settled, AllBounded, StepOut, StepSuccs, ActionAt, Leaked, Contained, Backlog, Marks, Heights, Rooms, Total, Entry, Within;
    var n := |f.code|;
    var states: InStates := seq(n, _ => None);
    escaped := {};
    containment := map[];
    var work: Work := [(0, Entry(f.localsCount, f.arity))];
    StartHolds(f, policy);
    while work != []
      invariant LoopInvariant(f, policy, states, work, escaped, containment)
      decreases Total(Marks(states)), Total(Heights(states)), Total(Rooms(f, states)), Backlog(n, work)
    {
      var (pc, incoming) := work[|work| - 1];
      assert work == work[..|work| - 1] + [(pc, incoming)];
      work := work[..|work| - 1];
      PendingBounded(f, policy, states, work, escaped, containment, pc, incoming);
      var merged, newEscapes: set<nat> := incoming, {};
      if states[pc].Some? {
        var joined := MergeWith(states[pc].value, incoming);
        merged, newEscapes := joined.0, joined.1;
        if merged == states[pc].value && newEscapes == {} {
          SkipStep(f, policy, states, work, escaped, containment, pc, incoming);
          continue;
        }
      }
      ProcessStep(f, policy, states, work, escaped, containment, pc, incoming);
      var a := ActionAt(f, pc);
      escaped := escaped + newEscapes;
      states := states[pc := Some(merged)];
      if a.Build? {
        containment := containment[pc := Within(containment, pc) + Contained(a, pc, merged)];
      }
      escaped := escaped + Leaked(a, merged, policy);
      work := work + Pushed(StepSuccs(a, pc), n, StepOut(a, pc, merged));
    }
    inState := states;
  }

  /** The whole analysis (escape.rs:289-381), on a function the verifier accepts. */
  method AnalyzeFunction(f: Bytecode.Function, policy: Policy) returns (report: EscapeReport)
    requires Bytecode.Unfused(f.code)
    ensures Accepted(f) ==> ExactReport(f, policy, report)
  {
    hide *;
    var pcs := Inventory(f.code);
    if pcs == [] {
      report := EscapeReport(f.name, []);
      ReportExact(f, policy, pcs, {}, []);
      return;
    }
    assert f.code != [] by { assert pcs[0] in pcs; }
    var body := Lowered(f);
    var inState, seed, containment := Fixpoint(body, policy);
    var escaped := Close(seed, containment);
    var sites := seq(|pcs|, i requires 0 <= i < |pcs| =>
      assert pcs[i] in pcs; SiteFor(f.code[pcs[i]], pcs[i], pcs[i] in escaped));
    if Accepted(f) {
      AcceptedExactly(f);
      ClosureIsEscapes(body, policy, inState, seed, containment, escaped);
      ReportExact(f, policy, pcs, escaped, sites);
    }
    report := EscapeReport(f.name, sites);
  }
}
