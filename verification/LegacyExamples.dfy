/** Two legacy pulls: one that another client's continuation makes miss an op, and one that never ends. */
module LegacyExamples {
  import opened Options
  import opened History
  import opened Cursors
  import opened OpsSince
  import opened PullLaws
  import opened LegacyPull
  import opened LegacyLoss
  import opened PullBounds

  // ---- a foreign continuation ----

  /** The two requests of `ForeignContinuationLoses`, as a whole pull in a run: it ends, and one of the two lines has not
      been received, as `LossExactly` has it. */
  lemma ForeignPullLoses(h: Indexing, r: OpId, x: OpId, s: OpId, m: OpId, now: nat) returns (p: Pull, mine: OpId)
    requires Documented(h) && r != x && r != s && r != m && x != s && x != m && s != m
    ensures Run(h, p.run) && Placed(p) && |p.exchanges| == 2 && mine in {x, s} && Legacy(h, p, Some(mine))
    ensures TakenAt(p, 0).Some? && OpsAt(h, p, 0) == [m] && TakenAt(p, 1).None? && OpsAt(h, p, 1) == []
    ensures LogAt(p, 1) == Diamond(r, x, s, m) && p.exchanges[1].branchHead == Some(m)
    ensures TargetAt(p, 0).At? && !Harmless(h, p, Some(mine), 0)
    ensures !(Since(LogAt(p, 1), m, Some(mine)) <= ReceivedBy(h, p, 1))
  {
    hide *;
    ForeignContinuationLoses(h, r, x, s, m, now);
    DiamondStored(r, x, s, m);
    var log, empty := Diamond(r, x, s, m), Cache([], [], []);
    EmptyCoherent(h, log);
    var other := Handle(h, log, empty, Some(m), Request(None, None, Some(3)), now);
    mine := other.0.ops[2];
    var next := Handle(h, log, other.1, Some(m), Request(Some(mine), None, Some(3)), now);
    p := Pull([System(log, empty), System(log, other.1), System(log, next.1)],
              [Exchange(1, Some(m), Request(Some(mine), None, Some(3)), now), Exchange(2, Some(m), Request(Some(m), None, Some(3)), now)]);
    TwoServes(h, p, Some(m), Request(None, None, Some(3)), now);
    TwoPages(h, p, log, other.1, next.1, m, mine, now);
    MissesFirst(h, p, log, m, mine, other.0.ops[1]);
    FirstResumption(h, p);
    SameLog(p, log, m, Some(mine));
    LossExactly(h, p, Some(mine));
  }

  lemma TwoServes(h: Indexing, p: Pull, head: Option<OpId>, req: Request, now: nat)
    requires |p.run| == 3 && |p.exchanges| == 2 && p.exchanges[0].when == 1 && p.exchanges[1].when == 2
    requires Stored(p.run[0].log) && Coherent(h, p.run[0])
    requires p.run[1] == System(p.run[0].log, Handle(h, p.run[0].log, p.run[0].cache, head, req, now).1)
    requires var x := p.exchanges[0];
             p.run[2] == System(p.run[0].log, Handle(h, p.run[0].log, p.run[1].cache, x.branchHead, x.req, x.now).1)
    ensures Run(h, p.run) && Placed(p)
  {
    hide Handle, Coherent, Stored;
    assert Serves(h, p.run[0], p.run[1]);
    assert Serves(h, p.run[1], p.run[2]);
    hide Serves;
    forall i | 0 < i < |p.run| ensures Step(h, p.run[i - 1], p.run[i]) {
      assert i == 1 || i == 2;
    }
  }

  lemma TwoPages(h: Indexing, p: Pull, log: Log, c: Cache, d: Cache, m: OpId, mine: OpId, now: nat)
    requires Placed(p) && |p.run| == 3 && p.run[1] == System(log, c) && p.run[2] == System(log, d) && m in log
    requires p.exchanges == [Exchange(1, Some(m), Request(Some(mine), None, Some(3)), now),
                             Exchange(2, Some(m), Request(Some(m), None, Some(3)), now)]
    requires Handle(h, log, c, Some(m), Request(Some(mine), None, Some(3)), now).0 == Page([m], None)
    requires Handle(h, log, d, Some(m), Request(Some(m), None, Some(3)), now).0 == Page([], None)
    requires Take(Expire(c.continuations, now), m, mine).0.Some? && Take(Expire(d.continuations, now), m, m).0.None?
    ensures OpsAt(h, p, 0) == [m] && OpsAt(h, p, 1) == [] && TakenAt(p, 0).Some? && TakenAt(p, 1).None?
    ensures LogAt(p, 0) == LogAt(p, 1) == log && Legacy(h, p, Some(mine)) && TargetAt(p, 0).At?
  {
    hide Handle, Take, Expire, EncodeCursor, DecodeCursor;
  }

  lemma MissesFirst(h: Indexing, p: Pull, log: Log, m: OpId, mine: OpId, lost: OpId)
    requires Placed(p) && |p.exchanges| == 2 && OpsAt(h, p, 0) == [m] && OpsAt(h, p, 1) == []
    requires lost in Since(log, m, Some(mine)) && lost != m
    ensures !(Since(log, m, Some(mine)) <= ReceivedBy(h, p, 1))
  {
    hide OpsAt, Since, Placed;
    assert lost !in ReceivedBy(h, p, 1);
  }

  lemma FirstResumption(h: Indexing, p: Pull)
    requires Placed(p) && |p.exchanges| == 2
    ensures LastResumption(h, p, 1) == 0
  {
    LastResumptionIs(h, p, 1);
  }

  lemma SameLog(p: Pull, log: Log, head: OpId, base: Option<OpId>)
    requires Placed(p) && |p.exchanges| == 2 && LogAt(p, 0) == LogAt(p, 1) == log && head in log
    ensures Undisturbed(LogAt(p, 0), LogAt(p, 1), head, base)
  {
  }

  // ---- a pull that never ends ----

  /** Two unrelated ops, merged by m. */
  function Fork(a: OpId, b: OpId, m: OpId): Log {
    map[a := {}, b := {}, m := {a, b}]
  }

  lemma ForkStored(a: OpId, b: OpId, m: OpId)
    requires a != b && a != m && b != m
    ensures Stored(Fork(a, b, m)) && a in Fork(a, b, m) && b in Fork(a, b, m) && m in Fork(a, b, m)
  {
    var rank: OpId -> nat := o => if o == m then 1 else 0;
    assert Ranks(rank, Fork(a, b, m));
  }

  /** Outside one line there are the other and the merge. */
  lemma ForkListing(h: Indexing, a: OpId, b: OpId, m: OpId)
    requires Documented(h) && a != b && a != m && b != m
    ensures Listing(h.linearize, Fork(a, b, m), m, Some(a)) == [b, m]
    ensures Listing(h.linearize, Fork(a, b, m), m, Some(b)) == [a, m]
    ensures Since(Fork(a, b, m), m, Some(a)) == {b, m}
  {
    var log := Fork(a, b, m);
    assert log[a] == {} && log[b] == {} && log[m] == {a, b} && log.Keys == {a, b, m};
    ForkStored(a, b, m);
    hide Fork, Ancestry;
    Root(log, a);
    Root(log, b);
    Child(log, m, a, b);
    LinearizerIsFaithful(h);
    ListingIs(h.linearize, log, m, Some(a));
    ListingIs(h.linearize, log, m, Some(b));
    assert Since(log, m, Some(a)) == {b, m} && Since(log, m, Some(b)) == {a, m};
    assert a in Below(log, m)[m] && b in Below(log, m)[m];
    hide Documented, Listing, Below;
    TwoInOrder(Listing(h.linearize, log, m, Some(a)), Below(log, m), b, m);
    TwoInOrder(Listing(h.linearize, log, m, Some(b)), Below(log, m), a, m);
  }

  function Other(a: OpId, b: OpId, k: nat): OpId {
    if k % 2 == 0 then b else a
  }

  /** After the one line a page of one op is the other, and the other way round. */
  lemma ForkPage(h: Indexing, a: OpId, b: OpId, m: OpId, k: nat, now: nat)
    requires Documented(h) && a != b && a != m && b != m
    ensures var r := Handle(h, Fork(a, b, m), Cache([], [], []), Some(m), Request(Some(Other(a, b, k + 1)), None, Some(1)), now);
            r.0.Page? && r.0.ops == [Other(a, b, k)]
  {
    var log, x := Fork(a, b, m), Other(a, b, k + 1);
    hide *;
    OtherOther(a, b, k);
    ForkListing(h, a, b, m);
    ForkStored(a, b, m);
    FallsBack(m, x, 1, now);
    PageOfFresh(h, log, Position(m, Some(x), 0), [Other(a, b, k), m], Request(Some(x), None, Some(1)), now);
    FirstOf([Other(a, b, k), m], Position(m, Some(x), 0), 1);
  }

  lemma OtherOther(a: OpId, b: OpId, k: nat)
    ensures Other(a, b, k + 2) == Other(a, b, k)
    ensures (Other(a, b, k + 1) == a && Other(a, b, k) == b) || (Other(a, b, k + 1) == b && Other(a, b, k) == a)
    ensures Other(a, b, 1) == a
  {
  }

  /** Continuations of one page after the other lost, a pull page by page of two merged lines goes back and forth between
      them, for any number of pages, and the merge is never received. */
  lemma FallbackNeverEnds(h: Indexing, a: OpId, b: OpId, m: OpId, n: nat, now: nat) returns (p: Pull)
    requires Documented(h) && a != b && a != m && b != m && n > 0
    ensures Run(h, p.run) && Placed(p) && |p.exchanges| == n && Legacy(h, p, Some(a)) && TakesSafely(h, p, Some(a))
    ensures forall k | 0 <= k < n :: OpsAt(h, p, k) == [Other(a, b, k)]
    ensures m in Since(LogAt(p, n - 1), m, Some(a)) && p.exchanges[n - 1].branchHead == Some(m)
    ensures m !in ReceivedBy(h, p, n - 1)
  {
    hide *;
    ForkStored(a, b, m);
    ForkListing(h, a, b, m);
    var log, empty := Fork(a, b, m), Cache([], [], []);
    var req := (k: nat) => Request(Some(Other(a, b, k + 1)), None, Some(1));
    p := Pull(seq(2 * n, j requires 0 <= j < 2 * n =>
                System(log, if j % 2 == 0 then empty else Handle(h, log, empty, Some(m), req(j / 2), now).1)),
              seq(n, k requires 0 <= k < n => Exchange(2 * k, Some(m), req(k), now)));
    EmptyCoherent(h, log);
    Restarts(h, p, log, m, req, n, now);
    forall k | 0 <= k < n ensures OpsAt(h, p, k) == [Other(a, b, k)] && LogAt(p, k) == log && BackAndForth(h, p, log, m, a, b, k) {
      ForkPage(h, a, b, m, k, now);
      AtRestart(h, p, log, m, a, b, k, now);
    }
    NamesLast(h, p, log, m, a, b);
    OnlyLines(h, p, a, b, m);
    IsMerged(log, a, b, m);
  }

  lemma IsMerged(log: Log, a: OpId, b: OpId, m: OpId)
    requires Since(log, m, Some(a)) == {b, m}
    ensures m in Since(log, m, Some(a))
  {
  }

  lemma Restarts(h: Indexing, p: Pull, log: Log, m: OpId, req: nat -> Request, n: nat, now: nat)
    requires Stored(log) && Coherent(h, System(log, Cache([], [], []))) && n > 0 && |p.run| == 2 * n && |p.exchanges| == n
    requires forall j | 0 <= j < 2 * n ::
               p.run[j] == System(log, if j % 2 == 0 then Cache([], [], [])
                                       else Handle(h, log, Cache([], [], []), Some(m), req(j / 2), now).1)
    requires forall k | 0 <= k < n :: p.exchanges[k] == Exchange(2 * k, Some(m), req(k), now)
    ensures Run(h, p.run) && Placed(p)
  {
    hide Handle, Coherent, Stored;
    forall i | 0 < i < |p.run| ensures Step(h, p.run[i - 1], p.run[i]) {
      if i % 2 == 1 {
        assert p.run[i].cache == Handle(h, log, p.run[i - 1].cache, Some(m), req(i / 2), now).1;
        assert Serves(h, p.run[i - 1], p.run[i]);
      } else {
        assert Loses(p.run[i - 1], p.run[i]);
      }
    }
  }

  lemma AtRestart(h: Indexing, p: Pull, log: Log, m: OpId, a: OpId, b: OpId, k: nat, now: nat)
    requires Placed(p) && k < |p.exchanges| && 2 * k < |p.run| && p.run[2 * k] == System(log, Cache([], [], []))
    requires p.exchanges[k] == Exchange(2 * k, Some(m), Request(Some(Other(a, b, k + 1)), None, Some(1)), now)
    requires var r := Handle(h, log, Cache([], [], []), Some(m), p.exchanges[k].req, now).0; r.Page? && r.ops == [Other(a, b, k)]
    ensures BackAndForth(h, p, log, m, a, b, k) && OpsAt(h, p, k) == [Other(a, b, k)] && LogAt(p, k) == log
  {
    TakesNothing(m, Other(a, b, k + 1), now);
    hide Handle, Take, Expire, Other;
  }

  /** The `k`-th exchange falls back and gets the other line. */
  ghost predicate BackAndForth(h: Indexing, p: Pull, log: Log, m: OpId, a: OpId, b: OpId, k: nat)
    requires Placed(p) && k < |p.exchanges|
  {
    && OpsAt(h, p, k) == [Other(a, b, k)] && TakenAt(p, k).None? && LogAt(p, k) == log
    && p.exchanges[k].branchHead == Some(m) && p.exchanges[k].req == Request(Some(Other(a, b, k + 1)), None, Some(1))
  }

  lemma NamesLast(h: Indexing, p: Pull, log: Log, m: OpId, a: OpId, b: OpId)
    requires Placed(p) && m in log && forall k | 0 <= k < |p.exchanges| :: BackAndForth(h, p, log, m, a, b, k)
    ensures Legacy(h, p, Some(a)) && TakesSafely(h, p, Some(a))
  {
    hide OpsAt, TakenAt, LogAt, Other, Own, Harmless, TargetAt;
    OtherOther(a, b, 0);
    assert BackAndForth(h, p, log, m, a, b, 0);
    forall k | 0 < k < |p.exchanges| ensures AsksAfter(h, p, k) {
      assert BackAndForth(h, p, log, m, a, b, k) && BackAndForth(h, p, log, m, a, b, k - 1);
      OtherOther(a, b, k - 1);
    }
    forall k | 0 <= k < |p.exchanges|
      ensures p.exchanges[k].req.cursor.None? && PositiveLimit(p.exchanges[k].req)
      ensures p.exchanges[k].branchHead == Some(m) && LogAt(p, k) == log && TakenAt(p, k).None?
    {
      assert BackAndForth(h, p, log, m, a, b, k);
    }
  }

  lemma OnlyLines(h: Indexing, p: Pull, a: OpId, b: OpId, m: OpId)
    requires Placed(p) && a != m && b != m && forall k | 0 <= k < |p.exchanges| :: OpsAt(h, p, k) == [Other(a, b, k)]
    ensures m !in ReceivedBy(h, p, |p.exchanges| - 1)
  {
    hide OpsAt, Placed;
  }
}
