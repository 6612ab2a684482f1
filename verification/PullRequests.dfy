/** What one request to `/v1/ops/since` is refused for, and what it leaves of the remembered page ends
    (crates/lex-api/src/ops_since_http.rs:346-449), said of the whole handler. */
module PullRequests {
  import opened Options
  import opened History
  import opened Cursors
  import opened OpsSince
  import opened CacheLaws
  import opened PullLaws

  predicate Unexpired(o: Continuation, now: nat) {
    now <= o.at + CONTINUATION_TTL_SECS
  }

  lemma DeltaKeepsContinuations(h: Indexing, log: Log, head: OpId, base: Option<OpId>, c: Cache)
    ensures DeltaFor(h, log, head, base, c).1.continuations == c.continuations
  {
    hide BuildDelta, Touch, Insert;
  }

  // ---- refusals ----

  /** A cursor that does not decode is refused, and nothing changes. */
  lemma MalformedRefused(h: Indexing, log: Log, c: Cache, branchHead: Option<OpId>, req: Request, now: nat)
    requires req.cursor.Some? && DecodeCursor(req.cursor.value).None?
    ensures Handle(h, log, c, branchHead, req, now) == (BadRequest, c)
  {
    hide DecodeCursor, DeltaFor, Respond;
  }

  /** A cursor that names a head not stored, or a place past the end of the listing, is refused: with coherent caches a
      cursor is answered with a page exactly when it does neither. */
  lemma CursorPageExactly(h: Indexing, s: System, branchHead: Option<OpId>, req: Request, now: nat)
    requires Documented(h) && Coherent(h, s) && req.cursor.Some?
    ensures var r := Handle(h, s.log, s.cache, branchHead, req, now);
            && (r.0.Page? || r == (BadRequest, r.1))
            && (r.0.Page? <==>
                  var at := DecodeCursor(req.cursor.value);
                  && at.Some? && at.value.head in s.log
                  && at.value.offset <= |Listing(h.linearize, s.log, at.value.head, at.value.base)|)
  {
    hide *;
    var at := DecodeCursor(req.cursor.value);
    if at.None? {
      MalformedRefused(h, s.log, s.cache, branchHead, req, now);
    } else {
      CursorResolves(s.cache, branchHead, req, now);
      DeltaIsListing(h, s, at.value.head, at.value.base);
      EmptyIndex(s.log, at.value.head);
      CursorResponds(h, s.log, s.cache, branchHead, req, now);
    }
  }

  lemma CursorResolves(c: Cache, branchHead: Option<OpId>, req: Request, now: nat)
    requires req.cursor.Some? && DecodeCursor(req.cursor.value).Some?
    ensures Resolve(c, branchHead, req, now) == (At(DecodeCursor(req.cursor.value).value), c)
  {
    hide DecodeCursor;
  }

  lemma EmptyIndex(log: Log, head: OpId)
    ensures Below(log, head).Keys == {} <==> head !in log
  {
    if head in log {
      ReachesSelf(log, head);
      assert head in Below(log, head).Keys;
    } else {
      UnstoredReachesNothing(log, head);
    }
  }

  lemma CursorResponds(h: Indexing, log: Log, c: Cache, branchHead: Option<OpId>, req: Request, now: nat)
    requires req.cursor.Some? && DecodeCursor(req.cursor.value).Some?
    requires Resolve(c, branchHead, req, now) == (At(DecodeCursor(req.cursor.value).value), c)
    ensures var at := DecodeCursor(req.cursor.value).value;
            var (d, c2) := DeltaFor(h, log, at.head, at.base, c);
            var r := Handle(h, log, c, branchHead, req, now);
            && r == Respond(c2, d, at, req, now)
            && (r.0.Page? <==> d.index.below.Keys != {} && at.offset <= |d.order|)
            && (!r.0.Page? ==> r == (BadRequest, c2))
  {
    hide DecodeCursor, DeltaFor, Resolve, EncodeCursor, Forget, Expire, Record;
  }

  // ---- a cursor request ----

  /** A page answered to a cursor leaves no page end of the cursor's head on its `after`; every other one that has not
      expired is kept, and none is added. Without an `after`, and when it is refused, nothing is forgotten. */
  lemma CursorForgets(h: Indexing, log: Log, c: Cache, branchHead: Option<OpId>, req: Request, now: nat)
    requires req.cursor.Some?
    ensures var r := Handle(h, log, c, branchHead, req, now);
            && (r.0.Page? ==> DecodeCursor(req.cursor.value).Some?)
            && (r.0.Page? && req.after.Some? ==>
                  var head := DecodeCursor(req.cursor.value).value.head;
                  forall o :: o in r.1.continuations <==>
                    o in c.continuations && Unexpired(o, now) && !(o.head == head && o.last == req.after.value))
            && (!r.0.Page? || req.after.None? ==> r.1.continuations == c.continuations)
  {
    hide *;
    if DecodeCursor(req.cursor.value).None? {
      MalformedRefused(h, log, c, branchHead, req, now);
    } else {
      var at := DecodeCursor(req.cursor.value).value;
      CursorResolves(c, branchHead, req, now);
      CursorResponds(h, log, c, branchHead, req, now);
      DeltaKeepsContinuations(h, log, at.head, at.base, c);
      var (d, c2) := DeltaFor(h, log, at.head, at.base, c);
      CursorLeaves(c2, d, at, req, now);
    }
  }

  lemma CursorLeaves(c: Cache, d: Delta, at: Position, req: Request, now: nat)
    requires req.cursor.Some?
    ensures var r := Respond(c, d, at, req, now);
            && (r.0.Page? && req.after.Some? ==>
                  forall o :: o in r.1.continuations <==>
                    o in c.continuations && Unexpired(o, now) && !(o.head == at.head && o.last == req.after.value))
            && (!r.0.Page? || req.after.None? ==> r.1.continuations == c.continuations)
  {
    hide EncodeCursor, Record, Expire, EndOf;
    forall o ensures o in Expire(c.continuations, now) <==> o in c.continuations && Unexpired(o, now) {
      ExpireKeeps(c.continuations, now, o);
    }
  }

  // ---- a request by last op ----

  /** A request without a cursor takes the continuation it resumes at: none that ends on its `after` is left then, but for
      the end of its own page. */
  ghost predicate Remains(c: Cache, head: OpId, req: Request, now: nat, o: Continuation) {
    && o in c.continuations
    && (req.after.Some? ==> Unexpired(o, now))
    && (req.after.Some? && Take(Expire(c.continuations, now), head, req.after.value).0.Some? ==>
          !(o.head == head && o.last == req.after.value))
  }

  /** The end of the page answered. */
  function PageEnd(at: Position, ops: seq<OpId>, now: nat): Continuation
    requires ops != []
  {
    Continuation(at.head, ops[|ops| - 1], at.base, at.offset + |ops|, now)
  }

  /** Exactly that is left, with the end of a page that is not the last in place of an older copy, while the cap is not
      reached. */
  lemma LegacyLeaves(h: Indexing, log: Log, c: Cache, head: OpId, req: Request, now: nat)
    requires req.cursor.None? && req.limit.Some?
    ensures var r, target := Handle(h, log, c, Some(head), req, now), Resolve(c, Some(head), req, now).0;
            && target.At?
            && (r.0.Page? && r.0.next.Some? && r.0.ops != [] ==>
                  var end := PageEnd(target.position, r.0.ops, now);
                  && end in r.1.continuations
                  && (forall o | o in r.1.continuations :: o == end || (Remains(c, head, req, now, o) && Unexpired(o, now) && !SamePage(o, end)))
                  && (|c.continuations| < MAX_CONTINUATIONS ==>
                        forall o | Remains(c, head, req, now, o) && Unexpired(o, now) && !SamePage(o, end) :: o in r.1.continuations))
            && (!(r.0.Page? && r.0.next.Some? && r.0.ops != []) ==>
                  forall o :: o in r.1.continuations <==> Remains(c, head, req, now, o))
  {
    hide *;
    LegacyResolves(c, head, req, now);
    var (target, c1) := Resolve(c, Some(head), req, now);
    var at := target.position;
    DeltaKeepsContinuations(h, log, at.head, at.base, c1);
    var (d, c2) := DeltaFor(h, log, at.head, at.base, c1);
    HandlesBy(h, log, c, head, req, now);
    RespondLeaves(c2, d, at, req, now);
  }

  lemma HandlesBy(h: Indexing, log: Log, c: Cache, head: OpId, req: Request, now: nat)
    requires Resolve(c, Some(head), req, now).0.At?
    ensures var (target, c1) := Resolve(c, Some(head), req, now);
            var (d, c2) := DeltaFor(h, log, target.position.head, target.position.base, c1);
            Handle(h, log, c, Some(head), req, now) == Respond(c2, d, target.position, req, now)
  {
    hide Resolve, DeltaFor, Respond;
  }

  lemma LegacyResolves(c: Cache, head: OpId, req: Request, now: nat)
    requires req.cursor.None? && req.limit.Some?
    ensures var (target, c1) := Resolve(c, Some(head), req, now);
            target.At? && |c1.continuations| <= |c.continuations|
            && forall o :: o in c1.continuations <==> Remains(c, head, req, now, o)
  {
    hide Expire, Forget, Hits;
    if req.after.Some? {
      var held := Expire(c.continuations, now);
      forall o ensures o in held <==> o in c.continuations && Unexpired(o, now) { ExpireKeeps(c.continuations, now, o); }
      FewerExpired(c.continuations, now);
      ForgetKeeps(held, head, req.after.value);
    }
  }

  lemma FewerExpired(cs: seq<Continuation>, now: nat)
    ensures |Expire(cs, now)| <= |cs|
  {
  }

  lemma ForgetKeeps(cs: seq<Continuation>, head: OpId, last: OpId)
    ensures |Forget(cs, head, last)| <= |cs|
    ensures forall o :: o in Forget(cs, head, last) <==> o in cs && !(o.head == head && o.last == last)
  {
  }

  lemma RespondLeaves(c: Cache, d: Delta, at: Position, req: Request, now: nat)
    requires req.cursor.None?
    ensures var r := Respond(c, d, at, req, now);
            && (r.0.Page? && r.0.next.Some? && r.0.ops != [] ==>
                  var end := PageEnd(at, r.0.ops, now);
                  && end in r.1.continuations
                  && (forall o | o in r.1.continuations :: o == end || (o in c.continuations && Unexpired(o, now) && !SamePage(o, end)))
                  && (|c.continuations| < MAX_CONTINUATIONS ==>
                        forall o | o in c.continuations && Unexpired(o, now) && !SamePage(o, end) :: o in r.1.continuations))
            && (!(r.0.Page? && r.0.next.Some? && r.0.ops != []) ==> r.1.continuations == c.continuations)
  {
    hide EncodeCursor, Expire, Record, SamePage;
    var r := Respond(c, d, at, req, now);
    if r.0.Page? && r.0.next.Some? && r.0.ops != [] {
      var end := PageEnd(at, r.0.ops, now);
      RecordedEnd(c, d, at, req, now);
      RecordLeaves(c.continuations, end, now);
    }
  }

  lemma RecordedEnd(c: Cache, d: Delta, at: Position, req: Request, now: nat)
    requires req.cursor.None?
    ensures var r := Respond(c, d, at, req, now);
            r.0.Page? && r.0.next.Some? && r.0.ops != [] ==>
              r.1.continuations == Record(Expire(c.continuations, now), PageEnd(at, r.0.ops, now))
  {
    hide EncodeCursor, Expire, Record;
  }

  lemma RecordLeaves(cs: seq<Continuation>, end: Continuation, now: nat)
    ensures var left := Record(Expire(cs, now), end);
            && end in left
            && (forall o | o in left :: o == end || (o in cs && Unexpired(o, now) && !SamePage(o, end)))
            && (|cs| < MAX_CONTINUATIONS ==> forall o | o in cs && Unexpired(o, now) && !SamePage(o, end) :: o in left)
  {
    var held := Expire(cs, now);
    FewerExpired(cs, now);
    forall o ensures o in held <==> o in cs && Unexpired(o, now) { ExpireKeeps(cs, now, o); }
    hide Expire, SamePage;
    forall o ensures o in Record(held, end) ==> o == end || (o in held && !SamePage(o, end)) { RecordHolds(held, end, o); }
    RecordHolds(held, end, end);
    var kept := Keep(held, (o: Continuation) => !SamePage(o, end));
    assert |cs| < MAX_CONTINUATIONS ==> Record(held, end) == kept + [end];
  }

  // ---- the cached listings ----

  /** `after` is `before` with the entry used at its end: moved there, or put there in place of the oldest once
      `cap` are held. The others keep their order. */
  ghost predicate UsedLast<T>(before: seq<T>, after: seq<T>, cap: nat, hit: Option<nat>)
    requires cap > 0
  {
    && after != []
    && var n := |after| - 1;
       if hit.Some? then
         && hit.value < |before| && after[n] == before[hit.value]
         && after[..n] == before[..hit.value] + before[hit.value + 1..]
       else after[..n] == if |before| < cap then before else before[|before| + 1 - cap..]
  }

  predicate Serves(d: Delta, head: OpId, base: Option<OpId>) {
    d.index.head == head && d.base == base
  }

  /** Whatever a request asks of a listing, that listing is the newest afterwards, and only a listing that was not
      cached costs an entry: the one longest unused. The same goes for the index it is built from. */
  lemma ListingUsed(h: Indexing, log: Log, c: Cache, branchHead: Option<OpId>, req: Request, now: nat)
    requires Resolve(c, branchHead, req, now).0.At?
    ensures var at := Resolve(c, branchHead, req, now).0.position;
            var r := Handle(h, log, c, branchHead, req, now).1;
            exists hit: Option<nat> ::
              && UsedLast(c.deltas, r.deltas, MAX_DELTAS, hit)
              && Serves(r.deltas[|r.deltas| - 1], at.head, at.base)
              && (hit.None? ==> (forall d | d in c.deltas :: !Serves(d, at.head, at.base)))
              && (hit.Some? ==> r.indexes == c.indexes)
              && (hit.None? ==> exists known: Option<nat> ::
                    && UsedLast(c.indexes, r.indexes, MAX_INDEXES, known)
                    && r.indexes[|r.indexes| - 1].head == at.head
                    && (known.None? ==> forall x | x in c.indexes :: x.head != at.head))
  {
    hide DeltaFor, Respond, Take, Expire, DecodeCursor;
    var (target, c1) := Resolve(c, branchHead, req, now);
    var at := target.position;
    assert c1.deltas == c.deltas && c1.indexes == c.indexes;
    var (d, c2) := DeltaFor(h, log, at.head, at.base, c1);
    var known := IndexUsed(h, log, at.head, c1);
    var hit := DeltaUsed(h, log, at.head, at.base, c1);
    RespondKeepsLists(c2, d, at, req, now);
  }

  lemma RespondKeepsLists(c: Cache, d: Delta, at: Position, req: Request, now: nat)
    ensures var r := Respond(c, d, at, req, now).1; r.deltas == c.deltas && r.indexes == c.indexes
  {
    hide EncodeCursor, Expire, Record, Forget;
  }

  lemma IndexUsed(h: Indexing, log: Log, head: OpId, c: Cache) returns (known: Option<nat>)
    ensures var (x, r) := IndexFor(h, log, head, c);
            && UsedLast(c.indexes, r.indexes, MAX_INDEXES, known)
            && r.indexes[|r.indexes| - 1].head == head && r.deltas == c.deltas
            && (known.None? ==> forall x | x in c.indexes :: x.head != head)
  {
    hide Touch, Insert, Find;
    known := FindIndex(c, head);
    if known.Some? {
      TouchMovesLast(c.indexes, known.value);
    } else {
      InsertKeepsNewest(c.indexes, Index(head, h.build(log, head)), MAX_INDEXES);
    }
  }

  lemma DeltaUsed(h: Indexing, log: Log, head: OpId, base: Option<OpId>, c: Cache) returns (hit: Option<nat>)
    ensures var (d, r) := DeltaFor(h, log, head, base, c);
            && UsedLast(c.deltas, r.deltas, MAX_DELTAS, hit)
            && Serves(r.deltas[|r.deltas| - 1], head, base)
            && (hit.None? ==> forall d | d in c.deltas :: !Serves(d, head, base))
            && r.indexes == if hit.Some? then c.indexes else IndexFor(h, log, head, c).1.indexes
  {
    hide Touch, Insert, Find, IndexFor;
    hit := FindDelta(c, head, base);
    if hit.Some? {
      TouchMovesLast(c.deltas, hit.value);
    } else {
      var known := IndexUsed(h, log, head, c);
      var index := IndexFor(h, log, head, c).0;
      IndexServes(h, log, head, c);
      InsertKeepsNewest(c.deltas, BuildDelta(h, log, index, base), MAX_DELTAS);
    }
  }

  lemma IndexServes(h: Indexing, log: Log, head: OpId, c: Cache)
    ensures IndexFor(h, log, head, c).0.head == head
  {
    hide Touch, Insert;
  }
}
