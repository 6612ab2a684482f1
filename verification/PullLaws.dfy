/** Whole pulls over `/v1/ops/since`: other clients' requests, evictions, expiries, restarts, branch moves
    and pushes may come between any two pages. */
module PullLaws {
  import opened Options
  import opened History
  import opened Cursors
  import opened OpsSince
  import Text

  datatype System = System(log: Log, cache: Cache)

  // ---- the caches ----

  /** Every cached entry is what would be computed now. */
  ghost predicate Coherent(h: Indexing, s: System) {
    && (forall x | x in s.cache.indexes :: x.below == Below(s.log, x.head))
    && (forall d | d in s.cache.deltas ::
          d.index.below == Below(s.log, d.index.head)
          && d.order == Listing(h.linearize, s.log, d.index.head, d.base))
  }

  lemma BuildsListing(h: Indexing, log: Log, head: OpId, base: Option<OpId>)
    requires Documented(h)
    ensures BuildDelta(h, log, Index(head, Below(log, head)), base).order == Listing(h.linearize, log, head, base)
  {
    var index := Index(head, Below(log, head));
    if base.Some? && base.value in index.below { AncestryBelow(log, head, base.value); }
    assert index.below.Keys - Excluded(h, log, index, base) == Since(log, head, base);
  }

  /** A request is answered from the listing as it is now, whatever was cached, and leaves the caches coherent. */
  lemma DeltaIsListing(h: Indexing, s: System, head: OpId, base: Option<OpId>)
    requires Documented(h) && Coherent(h, s)
    ensures var r := DeltaFor(h, s.log, head, base, s.cache);
            && r.0.order == Listing(h.linearize, s.log, head, base)
            && r.0.index.below == Below(s.log, head)
            && Coherent(h, s.(cache := r.1)) && r.1.continuations == s.cache.continuations
  {
    hide Listing, Below, Documented;
    if FindDelta(s.cache, head, base).None? {
      var r := IndexFor(h, s.log, head, s.cache);
      assert h.build(s.log, head) == Below(s.log, head) by { BuildsIndex(h, s.log, head); }
      assert r.0 == Index(head, Below(s.log, head));
      BuildsListing(h, s.log, head, base);
    }
  }

  lemma BuildsIndex(h: Indexing, log: Log, head: OpId)
    requires Documented(h)
    ensures h.build(log, head) == Below(log, head)
  {
  }

  lemma RespondKeepsCaches(c: Cache, d: Delta, at: Position, req: Request, now: nat)
    ensures var c' := Respond(c, d, at, req, now).1; c'.indexes == c.indexes && c'.deltas == c.deltas
  {
  }

  lemma ResolveKeepsCaches(c: Cache, branchHead: Option<OpId>, req: Request, now: nat)
    ensures var c' := Resolve(c, branchHead, req, now).1; c'.indexes == c.indexes && c'.deltas == c.deltas
  {
  }

  lemma HandleCoherent(h: Indexing, s: System, branchHead: Option<OpId>, req: Request, now: nat)
    requires Documented(h) && Coherent(h, s)
    ensures Coherent(h, s.(cache := Handle(h, s.log, s.cache, branchHead, req, now).1))
  {
    hide Documented, Respond, Resolve, DeltaFor;
    var (target, c1) := Resolve(s.cache, branchHead, req, now);
    ResolveKeepsCaches(s.cache, branchHead, req, now);
    if target.At? {
      var at := target.position;
      DeltaIsListing(h, s.(cache := c1), at.head, at.base);
      var (d, c2) := DeltaFor(h, s.log, at.head, at.base, c1);
      RespondKeepsCaches(c2, d, at, req, now);
    }
  }

  // ---- steps ----

  /** Any client's request, on whatever head its branch has. */
  ghost predicate Serves(h: Indexing, s: System, t: System) {
    t.log == s.log
    && exists branchHead, req, now :: t.cache == Handle(h, s.log, s.cache, branchHead, req, now).1
  }

  /** Eviction, expiry, restart: cached entries may be gone, continuations may be anything. */
  ghost predicate Loses(s: System, t: System) {
    t.log == s.log
    && (forall x | x in t.cache.indexes :: x in s.cache.indexes)
    && (forall d | d in t.cache.deltas :: d in s.cache.deltas)
  }

  /** Ops are stored that disturb no cached entry. */
  ghost predicate Pushes(s: System, t: System) {
    && t.cache == s.cache && Grows(s.log, t.log) && Stored(t.log)
    && (forall x | x in s.cache.indexes :: Undisturbed(s.log, t.log, x.head, None))
    && (forall d | d in s.cache.deltas :: Undisturbed(s.log, t.log, d.index.head, d.base))
  }

  ghost predicate Step(h: Indexing, s: System, t: System) {
    Serves(h, s, t) || Loses(s, t) || Pushes(s, t)
  }

  lemma StepCoherent(h: Indexing, s: System, t: System)
    requires Documented(h) && Stored(s.log) && Coherent(h, s) && Step(h, s, t)
    ensures Coherent(h, t) && Stored(t.log) && Grows(s.log, t.log)
  {
    hide Documented, Handle, Listing, Below;
    if Serves(h, s, t) {
      var branchHead, req, now :| t.cache == Handle(h, s.log, s.cache, branchHead, req, now).1;
      HandleCoherent(h, s, branchHead, req, now);
      assert t == s.(cache := t.cache);
    } else if Pushes(s, t) {
      forall x | x in t.cache.indexes ensures x.below == Below(t.log, x.head) {
        assert Undisturbed(s.log, t.log, x.head, None);
        BelowStable(s.log, t.log, x.head);
      }
      forall d | d in t.cache.deltas
        ensures d.index.below == Below(t.log, d.index.head)
        ensures d.order == Listing(h.linearize, t.log, d.index.head, d.base) {
        assert Undisturbed(s.log, t.log, d.index.head, d.base);
        BelowStable(s.log, t.log, d.index.head);
        ListingStable(h.linearize, s.log, t.log, d.index.head, d.base);
      }
    }
  }

  ghost predicate Run(h: Indexing, run: seq<System>) {
    && run != [] && Stored(run[0].log) && Coherent(h, run[0])
    && forall i, j | 0 <= i < j < |run| && j <= i + 1 :: Step(h, run[i], run[j])
  }

  /** At every point of every run, every cached listing is what would be computed there. */
  lemma {:induction false} RunCoherent(h: Indexing, run: seq<System>, i: nat)
    requires Documented(h) && Run(h, run) && i < |run|
    ensures Coherent(h, run[i]) && Stored(run[i].log)
  {
    hide Documented, Coherent, Step, Stored;
    if i > 0 {
      RunCoherent(h, run, i - 1);
      StepCoherent(h, run[i - 1], run[i]);
    }
  }

  lemma {:induction false} RunGrows(h: Indexing, run: seq<System>, i: nat, j: nat)
    requires Documented(h) && Run(h, run) && i <= j < |run|
    ensures Grows(run[i].log, run[j].log)
    decreases j
  {
    hide Documented, Coherent, Step, Stored;
    if i < j {
      RunGrows(h, run, i, j - 1);
      RunCoherent(h, run, j - 1);
      StepCoherent(h, run[j - 1], run[j]);
    }
  }

  /** A listing whose head was not pushed stays what it was exactly when it is undisturbed. */
  lemma StaleExactly(lin: Linearizer, log: Log, later: Log, head: OpId, base: Option<OpId>)
    requires Faithful(lin) && Stored(log) && Stored(later) && Grows(log, later) && (head in log || head !in later)
    ensures Listing(lin, later, head, base) == Listing(lin, log, head, base) <==> Undisturbed(log, later, head, base)
  {
    if Undisturbed(log, later, head, base) {
      ListingStable(lin, log, later, head, base);
    } else {
      DisturbedSince(log, later, head, base);
      ListingIs(lin, log, head, base);
      ListingIs(lin, later, head, base);
    }
  }

  lemma DisturbedSince(log: Log, later: Log, head: OpId, base: Option<OpId>)
    requires Stored(log) && Grows(log, later) && (head in log || head !in later) && !Undisturbed(log, later, head, base)
    ensures Since(later, head, base) < Since(log, head, base)
  {
    AncestryStable(log, later, head);
    UnstoredReachesNothing(log, base.value);
    hide Ancestry;
    var o :| o in Ancestry(later, base.value) && o in Ancestry(log, head);
    assert o in Since(log, head, base) && o !in Since(later, head, base);
  }

  /** A listing whose head was pushed was empty, and still is exactly when the cutoff reaches the head. */
  lemma HeadStaleExactly(lin: Linearizer, log: Log, later: Log, head: OpId, base: Option<OpId>)
    requires Faithful(lin) && Stored(log) && Stored(later) && Grows(log, later) && head !in log && head in later
    ensures Listing(lin, later, head, base) == Listing(lin, log, head, base) <==> head in CutOff(later, base)
  {
    UnstoredReachesNothing(log, head);
    ReachesSelf(later, head);
    ListingIs(lin, log, head, base);
    ListingIs(lin, later, head, base);
    if head in CutOff(later, base) {
      forall o ensures o !in Since(later, head, base) {
        if o in Ancestry(later, head) { ReachesThrough(later, base.value, head, o); }
      }
      NoElements(Listing(lin, later, head, base));
    }
    NoElements(Listing(lin, log, head, base));
    hide Ancestry, Listing, Faithful, CutOff;
    assert head in Since(later, head, base) <==> head !in CutOff(later, base);
  }

  lemma NoElements(ops: seq<OpId>)
    ensures Elements(ops) == {} ==> ops == []
  {
    if ops != [] { assert ops[0] in Elements(ops); }
  }

  /** A push under unchanged caches leaves them coherent exactly when it disturbs no entry. */
  lemma PushesExactly(h: Indexing, s: System, later: Log)
    requires Documented(h) && Coherent(h, s) && Stored(s.log) && Stored(later) && Grows(s.log, later)
    ensures Coherent(h, System(later, s.cache)) <==> Pushes(s, System(later, s.cache))
  {
    var t := System(later, s.cache);
    hide Documented, Listing, Below, Undisturbed;
    if Pushes(s, t) {
      assert Step(h, s, t);
      StepCoherent(h, s, t);
    }
    if Coherent(h, t) {
      forall x | x in s.cache.indexes ensures Undisturbed(s.log, later, x.head, None) {
        HeadSettled(s.log, later, x.head);
      }
      forall d | d in s.cache.deltas ensures Undisturbed(s.log, later, d.index.head, d.base) {
        HeadSettled(s.log, later, d.index.head);
        assert d.index.head in s.log || d.index.head !in later;
        LinearizerIsFaithful(h);
        StaleExactly(h.linearize, s.log, later, d.index.head, d.base);
      }
    }
  }

  lemma HeadSettled(log: Log, later: Log, head: OpId)
    requires Below(later, head) == Below(log, head)
    ensures (head in log || head !in later) && Undisturbed(log, later, head, None)
  {
    if head !in log && head in later { PushedHead(log, later, head); }
  }

  lemma PushedHead(log: Log, later: Log, head: OpId)
    requires head !in log && head in later
    ensures head in Below(later, head) && head !in Below(log, head)
  {
    UnstoredReachesNothing(log, head);
    ReachesSelf(later, head);
  }

  // ---- a pull inside a run ----

  datatype Exchange = Exchange(when: nat, branchHead: Option<OpId>, req: Request, now: nat)

  /** One client's exchanges, in order, at points of the run. */
  datatype Pull = Pull(run: seq<System>, exchanges: seq<Exchange>)

  ghost predicate Placed(p: Pull) {
    && p.exchanges != []
    && (forall k | 0 <= k < |p.exchanges| :: p.exchanges[k].when < |p.run|)
    && forall j, k | 0 <= j < k < |p.exchanges| :: p.exchanges[j].when <= p.exchanges[k].when
  }

  ghost function SystemAt(p: Pull, k: nat): System
    requires Placed(p) && k < |p.exchanges|
  {
    p.run[p.exchanges[k].when]
  }

  ghost function LogAt(p: Pull, k: nat): Log
    requires Placed(p) && k < |p.exchanges|
  {
    SystemAt(p, k).log
  }

  ghost function TargetAt(p: Pull, k: nat): Target
    requires Placed(p) && k < |p.exchanges|
  {
    var x := p.exchanges[k];
    Resolve(SystemAt(p, k).cache, x.branchHead, x.req, x.now).0
  }

  ghost function ResponseAt(h: Indexing, p: Pull, k: nat): Response
    requires Placed(p) && k < |p.exchanges|
  {
    var x := p.exchanges[k];
    Handle(h, LogAt(p, k), SystemAt(p, k).cache, x.branchHead, x.req, x.now).0
  }

  /** The answer to a request that resumes at `at` in `order`. */
  function Slice(order: seq<OpId>, at: Position, req: Request): Response {
    var end := EndOf(order, at, req.limit);
    if at.offset > end then (if req.cursor.Some? then BadRequest else Crash)
    else Page(order[at.offset..end], if end < |order| then Some(EncodeCursor(Position(at.head, at.base, end))) else None)
  }

  /** What an exchange is answered with, at any point of any run. */
  lemma Answered(h: Indexing, p: Pull, k: nat)
    requires Documented(h) && Run(h, p.run) && Placed(p) && k < |p.exchanges|
    requires TargetAt(p, k).At? && TargetAt(p, k).position.head in LogAt(p, k)
    ensures var at := TargetAt(p, k).position;
            ResponseAt(h, p, k) == Slice(Listing(h.linearize, LogAt(p, k), at.head, at.base), at, p.exchanges[k].req)
  {
    var s, x := SystemAt(p, k), p.exchanges[k];
    RunCoherent(h, p.run, x.when);
    hide Documented, Run, DeltaFor, Resolve, Listing;
    var c1 := Resolve(s.cache, x.branchHead, x.req, x.now).1;
    ResolveKeepsCaches(s.cache, x.branchHead, x.req, x.now);
    var at := TargetAt(p, k).position;
    DeltaIsListing(h, s.(cache := c1), at.head, at.base);
    ReachesSelf(s.log, at.head);
    assert at.head in Below(s.log, at.head).Keys;
    hide Coherent, Below, EncodeCursor;
  }

  lemma LogsGrow(h: Indexing, p: Pull, j: nat, k: nat)
    requires Documented(h) && Run(h, p.run) && Placed(p) && j <= k < |p.exchanges|
    ensures Grows(LogAt(p, j), LogAt(p, k)) && Stored(LogAt(p, j)) && Stored(LogAt(p, k))
  {
    RunGrows(h, p.run, p.exchanges[j].when, p.exchanges[k].when);
    RunCoherent(h, p.run, p.exchanges[j].when);
    RunCoherent(h, p.run, p.exchanges[k].when);
  }

  ghost predicate PositiveLimit(req: Request) {
    req.limit.Some? && req.limit.value > 0
  }

  // ---- pulls that follow the cursor ----

  /** Each request passes back the cursor of the answer before it; the last answer has none. */
  ghost predicate Follows(h: Indexing, p: Pull, from: nat, cursor: string)
    requires Placed(p)
  {
    && from < |p.exchanges| && p.exchanges[from].req.cursor == Some(cursor)
    && (forall k | from <= k < |p.exchanges| :: PositiveLimit(p.exchanges[k].req))
    && (forall k | from < k < |p.exchanges| ::
          p.exchanges[k].req.cursor.Some? && ResponseAt(h, p, k - 1).Page?
          && ResponseAt(h, p, k - 1).next == p.exchanges[k].req.cursor)
    && (ResponseAt(h, p, |p.exchanges| - 1).Page? ==> ResponseAt(h, p, |p.exchanges| - 1).next.None?)
  }

  function OpsOf(r: Response): seq<OpId> {
    if r.Page? then r.ops else []
  }

  /** The pages from the `from`-th on, one after the other. */
  ghost function Received(h: Indexing, p: Pull, from: nat): seq<OpId>
    requires Placed(p) && from <= |p.exchanges|
    decreases |p.exchanges| - from
  {
    if from == |p.exchanges| then [] else OpsOf(ResponseAt(h, p, from)) + Received(h, p, from + 1)
  }

  /** One page of a followed cursor. */
  lemma CursorPage(h: Indexing, p: Pull, k: nat, at: Position)
    requires Documented(h) && Run(h, p.run) && Placed(p) && Encodable(at) && k < |p.exchanges|
    requires p.exchanges[k].req.cursor == Some(EncodeCursor(at)) && at.head in LogAt(p, k)
    ensures ResponseAt(h, p, k) == Slice(Listing(h.linearize, LogAt(p, k), at.head, at.base), at, p.exchanges[k].req)
  {
    hide Documented, Run, Listing, EncodeCursor, DecodeCursor, Encodable, Slice, ResponseAt;
    CursorRoundTrip(at);
    assert TargetAt(p, k) == At(at);
    Answered(h, p, k);
  }

  /** From one exchange to the next the listing stays, and stays undisturbed. */
  lemma ListingKept(h: Indexing, p: Pull, k: nat, at: Position)
    requires Documented(h) && Run(h, p.run) && Placed(p) && k + 1 < |p.exchanges|
    requires at.head in LogAt(p, k) && Undisturbed(LogAt(p, k), LogAt(p, |p.exchanges| - 1), at.head, at.base)
    ensures at.head in LogAt(p, k + 1)
    ensures Undisturbed(LogAt(p, k + 1), LogAt(p, |p.exchanges| - 1), at.head, at.base)
    ensures Listing(h.linearize, LogAt(p, k + 1), at.head, at.base) == Listing(h.linearize, LogAt(p, k), at.head, at.base)
  {
    LogsGrow(h, p, k, k + 1);
    LogsGrow(h, p, k + 1, |p.exchanges| - 1);
    hide Documented, Run, Listing, LogAt, Placed, Undisturbed;
    UndisturbedParts(LogAt(p, k), LogAt(p, k + 1), LogAt(p, |p.exchanges| - 1), at.head, at.base);
    ListingStable(h.linearize, LogAt(p, k), LogAt(p, k + 1), at.head, at.base);
  }

  lemma FollowsNext(h: Indexing, p: Pull, from: nat, at: Position, order: seq<OpId>)
    requires Placed(p) && Follows(h, p, from, EncodeCursor(at)) && at.offset <= |order|
    requires ResponseAt(h, p, from) == Slice(order, at, p.exchanges[from].req)
    ensures var end := EndOf(order, at, p.exchanges[from].req.limit);
            && at.offset <= end <= |order| && ResponseAt(h, p, from).Page? && ResponseAt(h, p, from).ops == order[at.offset..end]
            && if from + 1 < |p.exchanges| then Follows(h, p, from + 1, EncodeCursor(at.(offset := end)))
               else end == |order|
  {
    hide EncodeCursor, ResponseAt, Placed;
    if from + 1 < |p.exchanges| {
      assert ResponseAt(h, p, from).next == p.exchanges[from + 1].req.cursor;
    }
  }

  /** Following cursors delivers the rest of the listing the first cursor points into, whatever happens
      in between, as long as the listing is undisturbed. */
  lemma {:induction false} CursorPull(h: Indexing, p: Pull, from: nat, at: Position)
    requires Documented(h) && Run(h, p.run) && Placed(p) && Encodable(at)
    requires Follows(h, p, from, EncodeCursor(at)) && at.head in LogAt(p, from)
    requires Undisturbed(LogAt(p, from), LogAt(p, |p.exchanges| - 1), at.head, at.base)
    requires var order := Listing(h.linearize, LogAt(p, from), at.head, at.base);
             at.offset <= |order| < Text.USIZE_LIMIT
    ensures forall k | from <= k < |p.exchanges| :: ResponseAt(h, p, k).Page?
    ensures Received(h, p, from) == Listing(h.linearize, LogAt(p, from), at.head, at.base)[at.offset..]
    decreases |p.exchanges| - from
  {
    hide *;
    FollowsFirst(h, p, from, EncodeCursor(at));
    var order := Listing(h.linearize, LogAt(p, from), at.head, at.base);
    CursorPage(h, p, from, at);
    FollowsNext(h, p, from, at, order);
    var end := EndOf(order, at, p.exchanges[from].req.limit);
    if from + 1 < |p.exchanges| {
      ListingKept(h, p, from, at);
      NextEncodable(at, end);
      CursorPull(h, p, from + 1, at.(offset := end));
      assert order[at.offset..] == order[at.offset..end] + order[end..];
    }
    ReceivedStep(h, p, from);
  }

  lemma NextEncodable(at: Position, end: nat)
    requires Encodable(at) && end < Text.USIZE_LIMIT
    ensures Encodable(at.(offset := end))
  {
  }

  lemma FollowsFirst(h: Indexing, p: Pull, from: nat, cursor: string)
    requires Placed(p) && Follows(h, p, from, cursor)
    ensures from < |p.exchanges| && p.exchanges[from].req.cursor == Some(cursor)
  {
  }

  /** A whole pull: a first page asked for with `after` alone, the rest with cursors. It delivers exactly
      what the branch's head reaches outside the cutoff's ancestry, each op once, parents first. */
  lemma WholeCursorPull(h: Indexing, p: Pull, head: OpId, after: Option<OpId>)
    requires Documented(h) && Run(h, p.run) && Placed(p)
    requires Encodable(Position(head, after, 0)) && head in LogAt(p, 0)
    requires var x := p.exchanges[0]; x.req.cursor.None? && x.branchHead == Some(head) && PositiveLimit(x.req)
    requires TargetAt(p, 0) == At(Position(head, after, 0))
    requires if |p.exchanges| == 1 then ResponseAt(h, p, 0).Page? && ResponseAt(h, p, 0).next.None?
             else ResponseAt(h, p, 0).Page? && ResponseAt(h, p, 0).next.Some?
                  && Follows(h, p, 1, ResponseAt(h, p, 0).next.value)
    requires Undisturbed(LogAt(p, 0), LogAt(p, |p.exchanges| - 1), head, after)
    requires |Listing(h.linearize, LogAt(p, 0), head, after)| < Text.USIZE_LIMIT
    ensures var got := Received(h, p, 0);
            && got == Listing(h.linearize, LogAt(p, 0), head, after)
            && Distinct(got) && Elements(got) == Since(LogAt(p, 0), head, after)
            && ParentsFirst(Below(LogAt(p, 0), head), got)
  {
    hide *;
    assert |p.exchanges| > 0 by { HasFirst(p); }
    var at := Position(head, after, 0);
    var order := Listing(h.linearize, LogAt(p, 0), head, after);
    Answered(h, p, 0);
    LogsGrow(h, p, 0, |p.exchanges| - 1);
    LogIsStored(LogAt(p, 0));
    LinearizerIsFaithful(h);
    ListingIs(h.linearize, LogAt(p, 0), head, after);
    var end := EndOf(order, at, p.exchanges[0].req.limit);
    FirstPage(order, at, p.exchanges[0].req);
    ReceivedStep(h, p, 0);
    if |p.exchanges| > 1 {
      ListingKept(h, p, 0, at);
      NextEncodable(at, end);
      CursorPull(h, p, 1, at.(offset := end));
      assert order == order[..end] + order[end..];
    }
  }

  lemma HasFirst(p: Pull)
    requires Placed(p)
    ensures |p.exchanges| > 0
  {
  }

  lemma LogIsStored(log: Log)
    requires Stored(log)
    ensures ParentsStored(log) && Acyclic(log)
  {
  }

  lemma LinearizerIsFaithful(h: Indexing)
    requires Documented(h)
    ensures Faithful(h.linearize)
  {
  }

  lemma FirstPage(order: seq<OpId>, at: Position, req: Request)
    requires at.offset == 0 && req.cursor.None?
    ensures var end := EndOf(order, at, req.limit);
            && end <= |order|
            && Slice(order, at, req) == Page(order[..end], if end < |order| then Some(EncodeCursor(at.(offset := end))) else None)
  {
    hide EncodeCursor;
  }

  lemma ReceivedStep(h: Indexing, p: Pull, k: nat)
    requires Placed(p) && k < |p.exchanges|
    ensures ResponseAt(h, p, k).Page? ==> Received(h, p, k) == ResponseAt(h, p, k).ops + Received(h, p, k + 1)
    ensures k + 1 == |p.exchanges| ==> Received(h, p, k + 1) == []
  {
    hide ResponseAt;
  }
}
