/** What the escape analysis is meant to report, stated over control-flow paths, with no fixpoint,
    no joins and no worklist: a site escapes when some path leaks it, or when it sits, through a
    chain of aggregates, inside a site some path leaks. */
module EscapePaths {
  import opened Options
  import opened Bodies
  import opened EscapeDomain
  import opened EscapeStep

  /** Abstract state on arrival at the end of one path. */
  ghost function PathState(f: Body, p: Path): State
    requires IsPath(f.code, p)
    decreases |p|
  {
    if |p| == 1 then Entry(f.localsCount, f.arity)
    else
      PathPrefix(f.code, p);
      var q := p[..|p| - 1];
      StepOut(ActionAt(f, Last(q)), Last(q), PathState(f, q))
  }

  ghost predicate LeaksAlong(f: Body, policy: Policy, p: Path, site: nat)
  {
    IsPath(f.code, p) && site in Leaked(ActionAt(f, Last(p)), PathState(f, p), policy)
  }

  ghost predicate HoldsAlong(f: Body, p: Path, parent: nat, child: nat)
  {
    PathTo(f.code, p, parent) && child in Contained(ActionAt(f, parent), parent, PathState(f, p))
  }

  /** Some path ends in an instruction that leaks `site`. */
  ghost predicate LeakedBy(f: Body, policy: Policy, site: nat)
  {
    exists p :: LeaksAlong(f, policy, p, site)
  }

  /** Some path ends in `parent` being built with `child` among its operands. */
  ghost predicate Holds(f: Body, parent: nat, child: nat)
  {
    exists p :: HoldsAlong(f, p, parent, child)
  }

  /** A leaked site followed by ever deeper contents, each link with a path of its own. */
  ghost predicate Chain(f: Body, policy: Policy, c: seq<nat>)
  {
    |c| > 0 && LeakedBy(f, policy, c[0])
    && forall j, k | 0 <= j < k < |c| && k <= j + 1 :: Holds(f, c[j], c[k])
  }

  ghost predicate Escapes(f: Body, policy: Policy, site: nat)
  {
    exists c :: Chain(f, policy, c) && c[|c| - 1] == site
  }

  // ---- reads out of an aggregate ----

  /** `p` ends where `parent` is built, with `child` as its `i`-th operand, the same site included. */
  ghost predicate BuiltFrom(f: Body, p: Path, parent: nat, i: nat, child: nat)
  {
    && PathTo(f.code, p, parent) && ActionAt(f, parent).Build?
    && var stack, n := PathState(f, p).stack, ActionAt(f, parent).n;
       i < n <= |stack| && child in Sites(Get(stack, |stack| - n + i))
  }

  ghost predicate MadeFrom(f: Body, parent: nat, i: nat, child: nat)
  {
    exists p :: BuiltFrom(f, p, parent, i, child)
  }

  /** `p` ends in a field or element read, and goes on, of an operand that tracks `site`, and selects the
      `i`-th part of what is built there. */
  ghost predicate ReadsAlong(f: Body, p: Path, site: nat, i: nat)
  {
    && IsPath(f.code, p) && f.code[Last(p)].Projects? && Last(p) + 1 < |f.code|
    && PathState(f, p).stack != [] && site in Sites(Get(PathState(f, p).stack, |PathState(f, p).stack| - 1))
    && Picked(f, site, f.code[Last(p)].sel) == Some(i)
  }

  /** Some read selects a part that was built here and does not escape: what it yields is no longer tracked. */
  ghost predicate Peels(f: Body, policy: Policy)
  {
    exists p, parent, i, child ::
      ReadsAlong(f, p, parent, i) && MadeFrom(f, parent, i, child) && !Escapes(f, policy, child)
  }

  lemma MadeFromHolds(f: Body, policy: Policy, parent: nat, i: nat, child: nat)
    requires MadeFrom(f, parent, i, child)
    ensures parent == child || Holds(f, parent, child)
    ensures Escapes(f, policy, parent) ==> Escapes(f, policy, child)
  {
    var p :| BuiltFrom(f, p, parent, i, child);
    if parent != child {
      HeldFrom(f, p, parent, i, child);
      hide Escapes, Holds;
      if Escapes(f, policy, parent) { ContentsEscape(f, policy, parent, child); }
    }
  }

  lemma HeldFrom(f: Body, p: Path, parent: nat, i: nat, child: nat)
    requires BuiltFrom(f, p, parent, i, child) && parent != child
    ensures Holds(f, parent, child)
  {
    var s := PathState(f, p);
    ContainedFrom(ActionAt(f, parent), parent, s, child);
    hide PathState, Abstracts;
    assert HoldsAlong(f, p, parent, child);
  }

  /** What `verify_function` accepts and no path underflows. */
  ghost predicate Balanced(f: Body)
  {
    Consistent(f.code)
    && forall p | IsPath(f.code, p) :: Operands(ActionAt(f, Last(p))) <= PathDepth(f.code, p)
  }

  lemma LeakedEscapes(f: Body, policy: Policy, site: nat)
    requires LeakedBy(f, policy, site)
    ensures Escapes(f, policy, site)
  {
    assert Chain(f, policy, [site]);
  }

  lemma ContentsEscape(f: Body, policy: Policy, parent: nat, child: nat)
    requires Escapes(f, policy, parent) && Holds(f, parent, child)
    ensures Escapes(f, policy, child)
  {
    hide Holds, LeakedBy;
    var c :| Chain(f, policy, c) && c[|c| - 1] == parent;
    var d := c + [child];
    forall k | 0 < k < |d| ensures Holds(f, d[k - 1], d[k]) {
      if k < |c| { assert Holds(f, c[k - 1], c[k]); }
    }
    assert Chain(f, policy, d) && d[|d| - 1] == child;
  }

  /** `Escapes` is the least set that holds every leaked site and the contents of its members. */
  lemma {:induction false} EscapesLeast(f: Body, policy: Policy, closed: set<nat>, c: seq<nat>)
    requires Chain(f, policy, c)
    requires forall s | LeakedBy(f, policy, s) :: s in closed
    requires forall s, t | s in closed && Holds(f, s, t) :: t in closed
    ensures c[|c| - 1] in closed
    decreases |c|
  {
    hide Holds, LeakedBy;
    if |c| > 1 {
      var d := c[..|c| - 1];
      forall k | 0 < k < |d| ensures Holds(f, d[k - 1], d[k]) {
        assert Holds(f, c[k - 1], c[k]);
      }
      EscapesLeast(f, policy, closed, d);
      assert Holds(f, c[|c| - 2], c[|c| - 1]);
    }
  }

  lemma PathStateExtends(f: Body, p: Path, next: nat)
    requires IsPath(f.code, p) && Edge(f.code, Last(p), next)
    ensures IsPath(f.code, p + [next])
    ensures PathState(f, p + [next]) == StepOut(ActionAt(f, Last(p)), Last(p), PathState(f, p))
  {
    ExtendPath(f.code, p, next);
    assert (p + [next])[..|p|] == p;
  }

  /** On balanced code the abstract stack is as high as the verifier says, at every pc. */
  lemma {:induction false} PathHeight(f: Body, p: Path)
    requires Balanced(f) && IsPath(f.code, p)
    ensures |PathState(f, p).stack| == PathDepth(f.code, p) >= Operands(ActionAt(f, Last(p)))
    decreases |p|
  {
    if |p| > 1 {
      PathPrefix(f.code, p);
      var q := p[..|p| - 1];
      PathHeight(f, q);
      StepHeight(ActionAt(f, Last(q)), Last(q), PathState(f, q));
    }
  }

}
