/** When `/v1/ops/since` panics: a continuation that ends past the listing as it is now
    (crates/lex-api/src/ops_since_http.rs:346-449). */
module PullCrash {
  import opened Options
  import opened History
  import opened Cursors
  import opened OpsSince
  import opened CacheLaws
  import opened PullLaws
  import opened PullBounds
  import Text

  /** The request takes a continuation that ends past the delta the server then has, cached or computed. */
  ghost predicate Overruns(h: Indexing, s: System, branchHead: Option<OpId>, req: Request, now: nat) {
    && req.cursor.None? && branchHead.Some? && req.limit.Some? && req.after.Some?
    && var taken := Take(Expire(s.cache.continuations, now), branchHead.value, req.after.value).0;
       && taken.Some?
       && |DeltaFor(h, s.log, branchHead.value, taken.value.base, s.cache).0.order| < taken.value.end
  }

  /** In every state a request is answered with a panic exactly then. */
  lemma CrashExactly(h: Indexing, s: System, branchHead: Option<OpId>, req: Request, now: nat)
    ensures Handle(h, s.log, s.cache, branchHead, req, now).0 == Crash <==> Overruns(h, s, branchHead, req, now)
  {
    hide Respond, DeltaFor, EncodeCursor, DecodeCursor, Take, Expire;
    var (target, c1) := Resolve(s.cache, branchHead, req, now);
    if target.At? {
      var at := target.position;
      ResolveKeepsCaches(s.cache, branchHead, req, now);
      SameDelta(h, s.log, at.head, at.base, s.cache, c1);
      var (d, c2) := DeltaFor(h, s.log, at.head, at.base, c1);
      PastTheEnd(c2, d, at, req, now);
    }
  }

  lemma SameDelta(h: Indexing, log: Log, head: OpId, base: Option<OpId>, c: Cache, d: Cache)
    requires c.indexes == d.indexes && c.deltas == d.deltas
    ensures DeltaFor(h, log, head, base, c).0 == DeltaFor(h, log, head, base, d).0
  {
    hide BuildDelta, Touch, Insert;
  }

  /** With coherent caches that delta is the listing as it is now. */
  lemma OverrunsListing(h: Indexing, s: System, branchHead: Option<OpId>, req: Request, now: nat)
    requires Documented(h) && Coherent(h, s) && branchHead.Some? && req.after.Some?
    requires Take(Expire(s.cache.continuations, now), branchHead.value, req.after.value).0.Some?
    ensures var c := Take(Expire(s.cache.continuations, now), branchHead.value, req.after.value).0.value;
            Overruns(h, s, branchHead, req, now)
            <==> req.cursor.None? && req.limit.Some? && |Listing(h.linearize, s.log, branchHead.value, c.base)| < c.end
  {
    hide Documented, Coherent, DeltaFor, Listing, Take, Expire;
    var c := Take(Expire(s.cache.continuations, now), branchHead.value, req.after.value).0.value;
    DeltaIsListing(h, s, branchHead.value, c.base);
  }

  lemma SameCaches(h: Indexing, s: System, branchHead: Option<OpId>, req: Request, now: nat)
    requires Coherent(h, s)
    ensures Coherent(h, s.(cache := Resolve(s.cache, branchHead, req, now).1))
  {
    ResolveKeepsCaches(s.cache, branchHead, req, now);
    hide Resolve, Below, Listing;
  }

  lemma PastTheEnd(c: Cache, d: Delta, at: Position, req: Request, now: nat)
    ensures Respond(c, d, at, req, now).0 == Crash <==> req.cursor.None? && at.offset > |d.order|
  {
    hide EncodeCursor;
  }

  // ---- runs without one ----

  /** Every continuation ends inside the listing it points into. */
  ghost predicate Fitting(h: Indexing, s: System) {
    forall c | c in s.cache.continuations :: c.end <= |Listing(h.linearize, s.log, c.head, c.base)|
  }

  lemma FittingNeverCrashes(h: Indexing, s: System, branchHead: Option<OpId>, req: Request, now: nat)
    requires Documented(h) && Coherent(h, s) && Fitting(h, s)
    ensures Handle(h, s.log, s.cache, branchHead, req, now).0 != Crash
  {
    CrashExactly(h, s, branchHead, req, now);
    hide Documented, Coherent, Handle, Listing;
    if Overruns(h, s, branchHead, req, now) {
      OverrunsListing(h, s, branchHead, req, now);
      TakenWasHeld(s.cache.continuations, branchHead.value, req.after.value, now);
    }
  }

  lemma TakenWasHeld(cs: seq<Continuation>, head: OpId, last: OpId, now: nat)
    ensures var (taken, rest) := Take(Expire(cs, now), head, last);
            && (taken.Some? ==> taken.value in cs && taken.value.head == head)
            && forall c | c in rest :: c in cs
  {
    var held := Expire(cs, now);
    var hits := Hits(held, head, last);
    assert hits != [] ==> hits[0] in hits;
  }

  /** A request records no end that does not fit. */
  lemma ServesFitting(h: Indexing, s: System, branchHead: Option<OpId>, req: Request, now: nat)
    requires Documented(h) && Coherent(h, s) && Fitting(h, s)
    ensures Fitting(h, s.(cache := Handle(h, s.log, s.cache, branchHead, req, now).1))
  {
    hide Documented, Coherent, Respond, Resolve, DeltaFor, Listing, EncodeCursor, Fitting;
    var (target, c1) := Resolve(s.cache, branchHead, req, now);
    ResolveHolds(s.cache, branchHead, req, now);
    assert Fitting(h, s.(cache := c1)) by { FewerFit(h, s, c1); }
    if target.At? {
      var at := target.position;
      SameCaches(h, s, branchHead, req, now);
      DeltaIsListing(h, s.(cache := c1), at.head, at.base);
      var (d, c2) := DeltaFor(h, s.log, at.head, at.base, c1);
      RespondHolds(c2, d, at, req, now);
      RecordedFit(h, s.(cache := c1), at, Respond(c2, d, at, req, now).1);
    }
  }

  lemma FewerFit(h: Indexing, s: System, c: Cache)
    requires Fitting(h, s) && forall o | o in c.continuations :: o in s.cache.continuations
    ensures Fitting(h, s.(cache := c))
  {
    hide Listing;
  }

  lemma RecordedFit(h: Indexing, s: System, at: Position, c: Cache)
    requires Fitting(h, s)
    requires forall o | o in c.continuations ::
               o in s.cache.continuations
               || (o.head == at.head && o.base == at.base && o.end < |Listing(h.linearize, s.log, at.head, at.base)|)
    ensures Fitting(h, s.(cache := c))
  {
    hide Listing;
  }

  lemma ResolveHolds(c: Cache, branchHead: Option<OpId>, req: Request, now: nat)
    ensures forall o | o in Resolve(c, branchHead, req, now).1.continuations :: o in c.continuations
  {
    hide Take, Expire;
    if branchHead.Some? && req.after.Some? {
      TakenWasHeld(c.continuations, branchHead.value, req.after.value, now);
    }
  }

  /** What a response leaves was held before, or is the end of its page. */
  lemma RespondHolds(c: Cache, d: Delta, at: Position, req: Request, now: nat)
    ensures forall o | o in Respond(c, d, at, req, now).1.continuations ::
              o in c.continuations || (o.head == at.head && o.base == at.base && o.end < |d.order|)
  {
    hide EncodeCursor, Expire, Forget, Record;
    var end := EndOf(d.order, at, req.limit);
    forall o | o in Respond(c, d, at, req, now).1.continuations
      ensures o in c.continuations || (o.head == at.head && o.base == at.base && o.end < |d.order|)
    {
      var ops := if at.offset <= end then d.order[at.offset..end] else [];
      var forgets := req.cursor.Some? && req.after.Some?;
      var left := if forgets then Forget(Expire(c.continuations, now), at.head, req.after.value) else c.continuations;
      StillHeld(c.continuations, left, at.head, if forgets then req.after.value else "", now);
      if end < |d.order| && req.cursor.None? && ops != [] {
        var page := Continuation(at.head, ops[|ops| - 1], at.base, end, now);
        RecordHolds(Expire(left, now), page, o);
        ExpireKeeps(left, now, o);
      }
    }
  }

  lemma StillHeld(cs: seq<Continuation>, left: seq<Continuation>, head: OpId, last: OpId, now: nat)
    requires left == cs || left == Forget(Expire(cs, now), head, last)
    ensures forall o | o in left :: o in cs
  {
  }

  /** As a step, but what is lost is only lost, and a push disturbs no listing a continuation points into. */
  ghost predicate CalmStep(h: Indexing, s: System, t: System) {
    || Serves(h, s, t)
    || (Loses(s, t) && forall c | c in t.cache.continuations :: c in s.cache.continuations)
    || (Pushes(s, t) && forall c | c in s.cache.continuations :: Undisturbed(s.log, t.log, c.head, c.base))
  }

  ghost predicate CalmRun(h: Indexing, run: seq<System>) {
    && run != [] && Stored(run[0].log) && Coherent(h, run[0]) && Fitting(h, run[0])
    && forall i, j | 0 <= i < j < |run| && j <= i + 1 :: CalmStep(h, run[i], run[j])
  }

  lemma CalmIsStep(h: Indexing, s: System, t: System)
    requires CalmStep(h, s, t)
    ensures Step(h, s, t)
  {
    hide Serves, Loses, Pushes, Undisturbed;
  }

  lemma CalmStepFits(h: Indexing, s: System, t: System)
    requires Documented(h) && Stored(s.log) && Coherent(h, s) && Fitting(h, s) && CalmStep(h, s, t)
    ensures Fitting(h, t)
  {
    hide Documented, Coherent, Handle, Listing, Undisturbed;
    if Serves(h, s, t) {
      var branchHead, req, now :| t.cache == Handle(h, s.log, s.cache, branchHead, req, now).1;
      ServesFitting(h, s, branchHead, req, now);
      assert t == s.(cache := t.cache);
    } else if !Loses(s, t) {
      forall c | c in t.cache.continuations ensures c.end <= |Listing(h.linearize, t.log, c.head, c.base)| {
        ListingStable(h.linearize, s.log, t.log, c.head, c.base);
      }
    }
  }

  /** On such a run, from a server without continuations on, no request is answered with a panic. */
  lemma {:induction false} CalmRunNeverCrashes(h: Indexing, run: seq<System>, i: nat, branchHead: Option<OpId>, req: Request, now: nat)
    requires Documented(h) && CalmRun(h, run) && i < |run|
    ensures Fitting(h, run[i]) && Coherent(h, run[i]) && Stored(run[i].log)
    ensures Handle(h, run[i].log, run[i].cache, branchHead, req, now).0 != Crash
  {
    hide Documented, Coherent, CalmStep, Stored, Fitting, Handle;
    if i > 0 {
      CalmRunNeverCrashes(h, run, i - 1, branchHead, req, now);
      CalmIsStep(h, run[i - 1], run[i]);
      StepCoherent(h, run[i - 1], run[i]);
      CalmStepFits(h, run[i - 1], run[i]);
    }
    FittingNeverCrashes(h, run[i], branchHead, req, now);
  }

  // ---- and a family with one ----

  /** Where a push disturbs a listing whose cached entries were evicted, but not the continuation of a page that
      reaches past what is left of it, the client's next request by last op is answered with a panic. */
  lemma PushedCutoffCrashes(h: Indexing, log: Log, later: Log, head: OpId, b: OpId, n: nat, m: nat, now: nat)
    requires Documented(h) && Stored(log) && Stored(later) && Grows(log, later)
    requires head in log && !Undisturbed(log, later, head, Some(b))
    requires var order := Listing(h.linearize, log, head, Some(b));
             |Listing(h.linearize, later, head, Some(b))| < n < |order|
    ensures var order := Listing(h.linearize, log, head, Some(b));
            var first := Handle(h, log, Cache([], [], []), Some(head), Request(Some(b), None, Some(n)), now);
            var kept := Cache([], [], first.1.continuations);
            && first.0.Page? && first.0.ops == order[..n]
            && Loses(System(log, first.1), System(log, kept)) && Pushes(System(log, kept), System(later, kept))
            && Handle(h, later, kept, Some(head), Request(Some(order[n - 1]), None, Some(m)), now).0 == Crash
  {
    hide *;
    var order := Listing(h.linearize, log, head, Some(b));
    FirstPageLeft(h, log, head, b, order, n, now);
    var page := Continuation(head, order[n - 1], Some(b), n, now);
    TakesOnly(page, now);
    var kept := Cache([], [], [page]);
    OnlyKept(h, log, later, Handle(h, log, Cache([], [], []), Some(head), Request(Some(b), None, Some(n)), now).1, kept);
    CrashExactly(h, System(later, kept), Some(head), Request(Some(order[n - 1]), None, Some(m)), now);
    TakenOverruns(h, later, kept, head, order[n - 1], page, m, now);
  }

  lemma FirstPageLeft(h: Indexing, log: Log, head: OpId, b: OpId, order: seq<OpId>, n: nat, now: nat)
    requires Documented(h) && order == Listing(h.linearize, log, head, Some(b)) && 0 < n < |order|
    ensures var first := Handle(h, log, Cache([], [], []), Some(head), Request(Some(b), None, Some(n)), now);
            && first.0.Page? && first.0.ops == order[..n]
            && first.1.continuations == [Continuation(head, order[n - 1], Some(b), n, now)]
  {
    hide Documented, Listing, DeltaFor, EncodeCursor, Coherent, Resolve, Take;
    var empty, req, at := Cache([], [], []), Request(Some(b), None, Some(n)), Position(head, Some(b), 0);
    FallsBack(head, b, n, now);
    EmptyCoherent(h, log);
    DeltaIsListing(h, System(log, empty), head, Some(b));
    var (d, c) := DeltaFor(h, log, head, Some(b), empty);
    RecordsFirst(Continuation(head, order[n - 1], Some(b), n, now), now);
    hide Record, Expire;
    assert d.order == order && order[0..n] == order[..n] && order[..n][n - 1] == order[n - 1];
  }

  lemma OnlyKept(h: Indexing, log: Log, later: Log, c: Cache, kept: Cache)
    requires Grows(log, later) && Stored(later) && kept.indexes == [] && kept.deltas == []
    ensures Loses(System(log, c), System(log, kept)) && Pushes(System(log, kept), System(later, kept))
    ensures Coherent(h, System(later, kept))
  {
    hide Stored, Grows, Undisturbed;
  }

  lemma TakenOverruns(h: Indexing, later: Log, kept: Cache, head: OpId, last: OpId, page: Continuation, m: nat, now: nat)
    requires Documented(h) && Coherent(h, System(later, kept))
    requires Take(Expire(kept.continuations, now), head, last).0 == Some(page)
    requires |Listing(h.linearize, later, head, page.base)| < page.end
    ensures Overruns(h, System(later, kept), Some(head), Request(Some(last), None, Some(m)), now)
  {
    hide *;
    OverrunsListing(h, System(later, kept), Some(head), Request(Some(last), None, Some(m)), now);
  }
}
