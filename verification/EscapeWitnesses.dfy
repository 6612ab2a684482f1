/** No site is flagged without cause: what the analysis marks at an instruction is what the instruction hands over,
    and every mark and every containment along a possible path happens in a run. */
module EscapeWitnesses {
  import opened Options
  import opened Bodies
  import opened EscapeDomain
  import opened EscapeStep
  import opened EscapePaths
  import opened FrameMachine
  import opened EscapeSoundness
  import opened EscapeOrigins
  import opened EscapeLeaves
  import opened EscapeReads

  /** Operands from the top an instruction hands over, or copies. */
  function Given(b: Behaviour, policy: Policy): nat {
    if b.Copies? then 1 else HandCount(b, policy)
  }

  /** What a step marks as escaping are the sites of exactly the operands that are handed over; a duplication, which
      hands nothing over, marks what it copies. */
  lemma MarksHandedOver(b: Behaviour, s: State, policy: Policy)
    ensures !b.Copies? ==> Leaked(Abstracts(b), s, policy) == SitesOf(Popped(s.stack, HandCount(b, policy)))
    ensures b.Copies? ==> HandCount(b, policy) == 0 && Leaked(Abstracts(b), s, policy) == SitesOf(Popped(s.stack, 1))
    ensures Contained(Abstracts(b), 0, s) != {} ==> b.Builds?
    ensures b.Builds? ==> forall pc: nat :: Contained(Abstracts(b), pc, s) == SitesOf(Popped(s.stack, b.n)) - {pc}
  {
    NoSites(s);
    MarkCount(b, policy);
    AbstractBuilds(b);
    hide SitesOf, Popped, Abstracts, LeakCount, HandCount;
    var a := Abstracts(b);
    assert Leaked(a, s, policy) == SitesOf(Popped(s.stack, LeakCount(a, policy)));
    forall pc: nat ensures Contained(a, pc, s) == SitesOf(Popped(s.stack, if a.Build? then a.n else 0)) - {pc} {}
  }

  lemma MarkCount(b: Behaviour, policy: Policy)
    ensures LeakCount(Abstracts(b), policy) == if b.Copies? then 1 else HandCount(b, policy)
    ensures b.Copies? ==> HandCount(b, policy) == 0
  {
  }

  lemma NoSites(s: State)
    ensures Popped(s.stack, 0) == [] && SitesOf([]) == {}
  {
  }

  // ---- one operand ----

  /** The operand is an aggregate built at `site`. */
  predicate OperandIs(s: Frame, n: nat, i: nat, site: nat) {
    n <= |s.stack| && |s.stack| - n <= i < |s.stack| && s.stack[i].Ref? && s.stack[i].id < |s.heap| && s.heap[s.stack[i].id].site == site
  }

  /** Whatever site an operand slot tracks at the end of a path was built there in every run along it. */
  lemma SlotHolds(f: Body, policy: Policy, p: Path, run: seq<Frame>, n: nat, i: nat, site: nat)
    requires Unmoving(f) && Tracks(f, policy, p, run) && IsPath(f.code, p)
    requires n <= |PathState(f, p).stack| && |PathState(f, p).stack| - n <= i < |PathState(f, p).stack|
    requires site in Sites(Get(PathState(f, p).stack, i))
    ensures |run| == |p| > 0 && OperandIs(run[|p| - 1], n, i, site)
  {
    hide *;
    TracksEnd(f, policy, p, run);
    var s := run[|p| - 1];
    TrackedHas(f, p, run, s);
    SitesOfSlot(PathState(f, p), i);
    BornSites(f, p, FromStack(i), site);
    BornOrigin(f, p, FromStack(i));
    var k := Born(f, p, FromStack(i)).value;
    SlotTracked(f, p, run, s, i);
    TrackedIs(f, p, run, s.gone, FromStack(i), s.stack[i]);
    OriginBuilds(f, p, FromStack(i));
    PathWithin(f.code, p, k);
    BuiltThere(f, policy, p, run, k);
    MakeOperand(s, n, i, |run[k].heap|, site);
  }

  lemma SitesOfSlot(s: State, i: nat)
    ensures SourceSites(FromStack(i), 0, s) == Sites(Get(s.stack, i))
  {
  }

  lemma MakeOperand(s: Frame, n: nat, i: nat, id: nat, site: nat)
    requires n <= |s.stack| && |s.stack| - n <= i < |s.stack| && s.stack[i] == Ref(id) && id < |s.heap| && s.heap[id].site == site
    ensures OperandIs(s, n, i, site)
  {
  }

  /** A site tracked by one of the top slots. */
  lemma InTop(stack: seq<Slot>, n: nat, site: nat) returns (i: nat)
    requires n <= |stack| && site in SitesOf(Popped(stack, n))
    ensures |stack| - n <= i < |stack| && site in Sites(Get(stack, i))
  {
    PoppedSites(stack, n, site);
    i :| |stack| - Min(n, |stack|) <= i && site in Sites(Get(stack, i));
  }

  // ---- every mark happens ----

  /** The run ends where an aggregate built at `site` is handed over, or copied. */
  ghost predicate Gives(f: Body, policy: Policy, run: seq<Frame>, site: nat) {
    && IsRun(f, policy, run) && |run| > 0 && run[|run| - 1].pc < |f.code|
    && var s := run[|run| - 1];
       exists i: nat :: OperandIs(s, Given(BehaviourAt(f, s.pc), policy), i, site)
  }

  /** If an instruction at the end of a possible path, with its operands there, is marked as leaking a site, a run along
      that path hands over, or copies, an aggregate built there. */
  lemma LeakHappens(f: Body, policy: Policy, p: Path, site: nat) returns (run: seq<Frame>)
    requires Unmoving(f) && LeaksAlong(f, policy, p, site) && Possible(f, p)
    requires Operands(ActionAt(f, Last(p))) <= |PathState(f, p).stack|
    ensures Tracks(f, policy, p, run) && Gives(f, policy, run, site)
  {
    hide *;
    LeaksHas(f, policy, p, site);
    run := RunAlong(f, policy, p);
    TracksEnd(f, policy, p, run);
    PathStarts(f.code, p);
    var b, ps := BehaviourAt(f, Last(p)), PathState(f, p);
    ActionIs(f, Last(p));
    MarksHandedOver(b, ps, policy);
    GivenOperands(b, policy);
    var i := InTop(ps.stack, Given(b, policy), site);
    SlotHolds(f, policy, p, run, Given(b, policy), i, site);
    MakeGives(f, policy, run, i, site);
  }

  lemma LeaksHas(f: Body, policy: Policy, p: Path, site: nat)
    requires LeaksAlong(f, policy, p, site)
    ensures IsPath(f.code, p) && Last(p) < |f.code| && site in Leaked(ActionAt(f, Last(p)), PathState(f, p), policy)
  {
    hide PathState, Leaked, Abstracts;
  }

  lemma GivenOperands(b: Behaviour, policy: Policy)
    ensures Given(b, policy) <= Operands(Abstracts(b))
    ensures Given(b, policy) == if b.Copies? then 1 else HandCount(b, policy)
  {
  }

  lemma MakeGives(f: Body, policy: Policy, run: seq<Frame>, i: nat, site: nat)
    requires IsRun(f, policy, run) && |run| > 0 && run[|run| - 1].pc < |f.code|
    requires var s := run[|run| - 1]; OperandIs(s, Given(BehaviourAt(f, s.pc), policy), i, site)
    ensures Gives(f, policy, run, site)
  {
    hide IsRun, OperandIs, Given;
  }

  /** What is given, if not just copied, leaves. */
  lemma GivenLeaves(f: Body, policy: Policy, run: seq<Frame>, site: nat) returns (id: nat)
    requires Gives(f, policy, run, site)
    ensures |run| > 0 && run[|run| - 1].pc < |f.code|
    ensures var s, b := run[|run| - 1], BehaviourAt(f, run[|run| - 1].pc);
            && id < |s.heap| && s.heap[id].site == site
            && (if b.Copies? then s.stack != [] && s.stack[|s.stack| - 1] == Ref(id) else id in Leaving(b, policy, s))
  {
    hide IsRun;
    var s := run[|run| - 1];
    var b := BehaviourAt(f, s.pc);
    var n := Given(b, policy);
    var i: nat :| OperandIs(s, n, i, site);
    id := s.stack[i].id;
    if !b.Copies? {
      hide *;
      OperandHas(s, n, i, site);
      GivenOperands(b, policy);
      TopIs(s.stack, n, i - (|s.stack| - n));
      TopLength(s.stack, n);
      DeepIs(s.heap, id);
      DeepInAll(s.heap, Top(s.stack, n), |s.heap|, i - (|s.stack| - n), id);
      LeavingIs(b, policy, s, id);
    }
  }

  lemma OperandHas(s: Frame, n: nat, i: nat, site: nat)
    requires OperandIs(s, n, i, site)
    ensures n <= |s.stack| && |s.stack| - n <= i < |s.stack| && s.stack[i].Ref? && s.stack[i].id < |s.heap|
    ensures s.heap[s.stack[i].id].site == site
  {
  }

  // ---- every containment happens ----

  /** The run ends where an aggregate is built at `parent` out of one built at `child`. */
  ghost predicate Nests(f: Body, policy: Policy, run: seq<Frame>, parent: nat, child: nat) {
    && IsRun(f, policy, run) && |run| > 0 && run[|run| - 1].pc < |f.code|
    && var s, b := run[|run| - 1], BehaviourAt(f, run[|run| - 1].pc);
       s.pc == parent && b.Builds? && exists i: nat :: OperandIs(s, b.n, i, child)
  }

  lemma HoldHappens(f: Body, policy: Policy, p: Path, parent: nat, child: nat) returns (run: seq<Frame>)
    requires Unmoving(f) && HoldsAlong(f, p, parent, child) && Possible(f, p)
    requires Operands(ActionAt(f, Last(p))) <= |PathState(f, p).stack|
    ensures Tracks(f, policy, p, run) && Nests(f, policy, run, parent, child)
  {
    hide *;
    HoldsHas(f, p, parent, child);
    run := RunAlong(f, policy, p);
    TracksEnd(f, policy, p, run);
    PathStarts(f.code, p);
    var b, ps := BehaviourAt(f, Last(p)), PathState(f, p);
    ActionIs(f, Last(p));
    var n := ContainedIn(b, parent, ps, child);
    var i := InTop(ps.stack, n, child);
    SlotHolds(f, policy, p, run, n, i, child);
    MakeNests(f, policy, run, i, parent, child);
  }

  lemma HoldsHas(f: Body, p: Path, parent: nat, child: nat)
    requires HoldsAlong(f, p, parent, child)
    ensures IsPath(f.code, p) && Last(p) == parent < |f.code| && child in Contained(ActionAt(f, parent), parent, PathState(f, p))
  {
    hide PathState, Contained, Abstracts;
  }

  lemma ContainedIn(b: Behaviour, pc: nat, s: State, child: nat) returns (n: nat)
    requires child in Contained(Abstracts(b), pc, s)
    ensures b == Builds(n) && Operands(Abstracts(b)) == n && child in SitesOf(Popped(s.stack, n))
  {
    NoSites(s);
    hide SitesOf, Popped;
    assert b.Builds?;
    n := b.n;
  }

  lemma MakeNests(f: Body, policy: Policy, run: seq<Frame>, i: nat, parent: nat, child: nat)
    requires IsRun(f, policy, run) && |run| > 0 && run[|run| - 1].pc == parent < |f.code|
    requires var b := BehaviourAt(f, parent); b.Builds? && OperandIs(run[|run| - 1], b.n, i, child)
    ensures Nests(f, policy, run, parent, child)
  {
    hide IsRun, OperandIs;
  }

  // ---- so every flag has its runs ----

  /** On balanced code as the analysis meets it: a site escapes exactly when a chain of runs gives away the first of a
      sequence of sites and nests each other one in the one before it. */
  ghost predicate GivenChain(f: Body, policy: Policy, c: seq<nat>) {
    && |c| > 0 && (exists run :: Gives(f, policy, run, c[0]))
    && forall j, k | 0 <= j < k < |c| && k <= j + 1 :: SomeRunNests(f, policy, c[j], c[k])
  }

  ghost predicate SomeRunNests(f: Body, policy: Policy, parent: nat, child: nat) {
    exists run :: Nests(f, policy, run, parent, child)
  }

  /** A flagged site has them. */
  lemma FlaggedHappens(f: Body, policy: Policy, site: nat) returns (c: seq<nat>)
    requires Balanced(f) && Early(f) && Escapes(f, policy, site)
    ensures GivenChain(f, policy, c) && c[|c| - 1] == site
  {
    c :| Chain(f, policy, c) && c[|c| - 1] == site;
    hide Balanced, Early, Escapes, LeakedBy, Holds, Gives, Nests;
    SomeLeakHappens(f, policy, c[0]);
    forall j, k | 0 <= j < k < |c| && k <= j + 1 ensures SomeRunNests(f, policy, c[j], c[k]) {
      assert Holds(f, c[j], c[k]);
      SomeHoldHappens(f, policy, c[j], c[k]);
    }
  }

  lemma SomeLeakHappens(f: Body, policy: Policy, site: nat)
    requires Balanced(f) && Early(f) && LeakedBy(f, policy, site)
    ensures exists run :: Gives(f, policy, run, site)
  {
    var p :| LeaksAlong(f, policy, p, site);
    hide *;
    LeaksHas(f, policy, p, site);
    EarlyPossible(f, p);
    PathHeight(f, p);
    var run := LeakHappens(f, policy, p, site);
  }

  lemma SomeHoldHappens(f: Body, policy: Policy, parent: nat, child: nat)
    requires Balanced(f) && Early(f) && Holds(f, parent, child)
    ensures SomeRunNests(f, policy, parent, child)
  {
    var p :| HoldsAlong(f, p, parent, child);
    hide IsPath, HoldsAlong, Balanced, Early, Nests, Tracks, PathState;
    HoldsHas(f, p, parent, child);
    EarlyPossible(f, p);
    PathHeight(f, p);
    var run := HoldHappens(f, policy, p, parent, child);
  }
}
