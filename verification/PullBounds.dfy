/** Why the pull theorems have the conditions they have. */
module PullBounds {
  import opened Options
  import opened History
  import opened Cursors
  import opened OpsSince
  import opened PullLaws
  import Text

  lemma {:induction false} WalkStays(log: Log, within: set<OpId>, walk: seq<OpId>)
    requires Walk(log, walk) && walk[0] in within
    requires forall o, p | o in within && o in log && p in log[o] && p in log :: p in within
    ensures walk[|walk| - 1] in within
    decreases |walk|
  {
    if |walk| > 1 {
      assert Walk(log, walk[1..]);
      WalkStays(log, within, walk[1..]);
    }
  }

  lemma AncestryWithin(log: Log, from: OpId, within: set<OpId>)
    requires from in within
    requires forall o, p | o in within && o in log && p in log[o] && p in log :: p in within
    ensures Ancestry(log, from) <= within
  {
    forall o | o in Ancestry(log, from) ensures o in within {
      var walk :| Walk(log, walk) && walk[0] == from && walk[|walk| - 1] == o;
      WalkStays(log, within, walk);
    }
  }

  lemma Root(log: Log, r: OpId)
    requires r in log && log[r] == {}
    ensures Ancestry(log, r) == {r}
  {
    ReachesSelf(log, r);
    AncestryWithin(log, r, {r});
  }

  /** An op's ancestry is itself and its parents' (both, or the one given twice). */
  lemma Child(log: Log, o: OpId, p: OpId, q: OpId)
    requires o in log && log[o] == {p, q} && p in log && q in log
    ensures Ancestry(log, o) == {o} + Ancestry(log, p) + Ancestry(log, q)
  {
    ReachesSelf(log, o);
    ReachesParent(log, o, o, p);
    ReachesParent(log, o, o, q);
    forall a | a in Ancestry(log, p) ensures a in Ancestry(log, o) { ReachesThrough(log, o, p, a); }
    forall a | a in Ancestry(log, q) ensures a in Ancestry(log, o) { ReachesThrough(log, o, q, a); }
    forall a | a in Ancestry(log, o) && a != o ensures a in Ancestry(log, p) + Ancestry(log, q) {
      var parent := ReachedByParent(log, o, a);
    }
  }

  /** r, with x and s on it, merged by m. */
  function Diamond(r: OpId, x: OpId, s: OpId, m: OpId): Log {
    map[r := {}, x := {r}, s := {r}, m := {x, s}]
  }

  lemma DiamondAncestry(r: OpId, x: OpId, s: OpId, m: OpId)
    requires r != x && r != s && r != m && x != s && x != m && s != m
    ensures var log := Diamond(r, x, s, m);
            Ancestry(log, x) == {x, r} && Ancestry(log, s) == {s, r} && Ancestry(log, m) == {m, x, s, r}
  {
    var log := Diamond(r, x, s, m);
    assert log[r] == {} && log[x] == {r} && log[s] == {r} && log[m] == {x, s} && log.Keys == {r, x, s, m};
    hide Diamond, Ancestry;
    Root(log, r);
    Child(log, x, r, r);
    Child(log, s, r, r);
    Child(log, m, x, s);
  }

  /** The listing has r first, m last, and the two lines between them in one order or the other. */
  lemma DiamondListing(h: Indexing, r: OpId, x: OpId, s: OpId, m: OpId)
    requires Documented(h) && r != x && r != s && r != m && x != s && x != m && s != m
    ensures var order := Listing(h.linearize, Diamond(r, x, s, m), m, None);
            order == [r, s, x, m] || order == [r, x, s, m]
  {
    var log := Diamond(r, x, s, m);
    DiamondAncestry(r, x, s, m);
    var rank: OpId -> nat := o => if o == r then 0 else if o == m then 2 else 1;
    assert Ranks(rank, log);
    LinearizerIsFaithful(h);
    ListingIs(h.linearize, log, m, None);
    var order := Listing(h.linearize, log, m, None);
    assert Elements(order) == {r, x, s, m};
    var below := Below(log, m);
    assert r in below[x] && r in below[s] && x in below[m] && s in below[m];
    hide Documented, Listing, Ancestry, Below, Diamond;
    FourInOrder(order, below, r, x, s, m);
  }

  lemma FourInOrder(ops: seq<OpId>, below: Log, r: OpId, x: OpId, s: OpId, m: OpId)
    requires Distinct(ops) && Elements(ops) == {r, x, s, m} && ParentsFirst(below, ops)
    requires r != x && r != s && r != m && x != s && x != m && s != m
    requires x in below && s in below && m in below
    requires r in below[x] && r in below[s] && x in below[m] && s in below[m]
    ensures ops == [r, s, x, m] || ops == [r, x, s, m]
  {
    DistinctSize(ops);
    assert |{r, x, s, m}| == 4;
    assert r in Elements(ops) && x in Elements(ops) && s in Elements(ops) && m in Elements(ops);
    var a :| 0 <= a < |ops| && ops[a] == r;
    var b :| 0 <= b < |ops| && ops[b] == x;
    var c :| 0 <= c < |ops| && ops[c] == s;
    var d :| 0 <= d < |ops| && ops[d] == m;
    assert a < b < d && a < c < d;
  }

  /** Another client's continuation loses ops: one pull without a cutoff stops after the second of the two
      side lines; a client whose own head is that line is answered from there, then with an empty page, and never
      gets the other. */
  lemma ForeignContinuationLoses(h: Indexing, r: OpId, x: OpId, s: OpId, m: OpId, now: nat)
    requires Documented(h) && r != x && r != s && r != m && x != s && x != m && s != m
    ensures var log := Diamond(r, x, s, m);
            var other := Handle(h, log, Cache([], [], []), Some(m), Request(None, None, Some(3)), now);
            && other.0.Page? && |other.0.ops| == 3
            && var mine := other.0.ops[2];
               && mine in {x, s} && other.0.ops[1] in Since(log, m, Some(mine))
               && var next := Handle(h, log, other.1, Some(m), Request(Some(mine), None, Some(3)), now);
                  && next.0 == Page([m], None) && other.0.ops[1] != m
                  && Take(Expire(other.1.continuations, now), m, mine).0.Some?
                  && Handle(h, log, next.1, Some(m), Request(Some(m), None, Some(3)), now).0 == Page([], None)
                  && Take(Expire(next.1.continuations, now), m, m).0.None?
  {
    var log := Diamond(r, x, s, m);
    hide *;
    DiamondListing(h, r, x, s, m);
    DiamondSince(r, x, s, m);
    var order := Listing(h.linearize, log, m, None);
    var first, mine := order[1], order[2];
    AfterThree(h, log, r, mine, first, m, now);
    var other := Handle(h, log, Cache([], [], []), Some(m), Request(None, None, Some(3)), now);
    ResumesThere(h, log, other.1, order, mine, m, now);
    DiamondStored(r, x, s, m);
    ClosesThere(h, log, Handle(h, log, other.1, Some(m), Request(Some(mine), None, Some(3)), now).1, m, now);
  }

  lemma DiamondStored(r: OpId, x: OpId, s: OpId, m: OpId)
    requires r != x && r != s && r != m && x != s && x != m && s != m
    ensures Stored(Diamond(r, x, s, m)) && m in Diamond(r, x, s, m)
  {
    var rank: OpId -> nat := o => if o == r then 0 else if o == m then 2 else 1;
    assert Ranks(rank, Diamond(r, x, s, m));
  }

  /** Nothing is left past the head itself. */
  lemma ClosesThere(h: Indexing, log: Log, c: Cache, m: OpId, now: nat)
    requires Documented(h) && Coherent(h, System(log, c)) && Stored(log) && m in log && c.continuations == []
    ensures Handle(h, log, c, Some(m), Request(Some(m), None, Some(3)), now).0 == Page([], None)
    ensures Take(Expire(c.continuations, now), m, m).0.None?
  {
    hide Documented, Listing, DeltaFor, EncodeCursor, Take, Expire, Record, Forget, Stored;
    TakesNothing(m, m, now);
    var c2 := c.(continuations := []);
    assert c2 == c;
    assert Resolve(c, Some(m), Request(Some(m), None, Some(3)), now) == (At(Position(m, Some(m), 0)), c2);
    DeltaIsListing(h, System(log, c2), m, Some(m));
    NothingPastHead(h, log, m);
  }

  lemma NothingPastHead(h: Indexing, log: Log, m: OpId)
    requires Documented(h) && Stored(log)
    ensures Listing(h.linearize, log, m, Some(m)) == []
  {
    LinearizerIsFaithful(h);
    ListingIs(h.linearize, log, m, Some(m));
    NoElements(Listing(h.linearize, log, m, Some(m)));
  }

  lemma DiamondSince(r: OpId, x: OpId, s: OpId, m: OpId)
    requires r != x && r != s && r != m && x != s && x != m && s != m
    ensures s in Since(Diamond(r, x, s, m), m, Some(x)) && x in Since(Diamond(r, x, s, m), m, Some(s))
  {
    DiamondAncestry(r, x, s, m);
  }

  lemma AfterThree(h: Indexing, log: Log, r: OpId, x: OpId, s: OpId, m: OpId, now: nat)
    requires Documented(h) && Listing(h.linearize, log, m, None) == [r, s, x, m]
    ensures var other := Handle(h, log, Cache([], [], []), Some(m), Request(None, None, Some(3)), now);
            && other.0.Page? && other.0.ops == [r, s, x]
            && other.1.continuations == [Continuation(m, x, None, 3, now)] && Coherent(h, System(log, other.1))
  {
    hide Documented, Listing, DeltaFor, EncodeCursor, Coherent;
    var empty := Cache([], [], []);
    var req := Request(None, None, Some(3));
    assert Coherent(h, System(log, empty)) by { EmptyCoherent(h, log); }
    HandleCoherent(h, System(log, empty), Some(m), req, now);
    var (d, c1) := DeltaFor(h, log, m, None, empty);
    DeltaIsListing(h, System(log, empty), m, None);
    RecordsFirst(Continuation(m, x, None, 3, now), now);
    hide Record, Expire;
    assert [r, s, x, m][0..3] == [r, s, x];
    assert Handle(h, log, empty, Some(m), req, now) == Respond(c1, d, Position(m, None, 0), req, now);
  }

  lemma EmptyCoherent(h: Indexing, log: Log)
    ensures Coherent(h, System(log, Cache([], [], [])))
  {
  }

  lemma ResumesThere(h: Indexing, log: Log, c: Cache, order: seq<OpId>, x: OpId, m: OpId, now: nat)
    requires Documented(h) && Coherent(h, System(log, c)) && Listing(h.linearize, log, m, None) == order
    requires |order| == 4 && order[3] == m && c.continuations == [Continuation(m, x, None, 3, now)]
    ensures var r := Handle(h, log, c, Some(m), Request(Some(x), None, Some(3)), now);
            r.0 == Page([m], None) && r.1.continuations == [] && Coherent(h, System(log, r.1))
    ensures Take(Expire(c.continuations, now), m, x).0.Some?
  {
    hide Documented, Listing, DeltaFor, EncodeCursor, Take, Expire, Record, Forget;
    var req := Request(Some(x), None, Some(3));
    TakesOnly(Continuation(m, x, None, 3, now), now);
    var c2 := c.(continuations := []);
    assert Resolve(c, Some(m), req, now) == (At(Position(m, None, 3)), c2);
    DeltaIsListing(h, System(log, c2), m, None);
    HandleCoherent(h, System(log, c), Some(m), req, now);
    hide Coherent;
    assert order[3..4] == [m];
  }

  lemma RecordsFirst(c: Continuation, now: nat)
    ensures Record(Expire([], now), c) == [c]
  {
    assert Expire([], now) == [];
  }

  lemma TakesOnly(c: Continuation, now: nat)
    requires c.at == now
    ensures Take(Expire([c], now), c.head, c.last) == (Some(c), [])
  {
    OneKept(c, now);
  }

  lemma OneKept(c: Continuation, now: nat)
    requires c.at == now
    ensures Expire([c], now) == [c] && Hits([c], c.head, c.last) == [c] && Forget([c], c.head, c.last) == []
  {
    assert c in [c];
    assert c in Expire([c], now) && c in Hits([c], c.head, c.last);
    HasMember(Forget([c], c.head, c.last));
  }

  /** A request for a head that is not stored yet is refused, but leaves its empty history in the cache:
      once the head is pushed, a pull of it gets an empty page. */
  lemma UnknownHeadCached(h: Indexing, log: Log, later: Log, head: OpId, now: nat)
    requires Documented(h) && Stored(later) && Grows(log, later) && head !in log && head in later && IsOpId(head)
    ensures var probe := Request(None, Some(EncodeCursor(Position(head, None, 0))), Some(1));
            var refused := Handle(h, log, Cache([], [], []), None, probe, now);
            && refused.0 == BadRequest
            && Handle(h, later, refused.1, Some(head), Request(None, None, Some(1)), now).0 == Page([], None)
            && head in Since(later, head, None)
  {
    var empty := Cache([], [], []);
    var at := Position(head, None, 0);
    CursorRoundTrip(at);
    var (d, c) := DeltaFor(h, log, head, None, empty);
    DeltaIsListing(h, System(log, empty), head, None);
    UnstoredReachesNothing(log, head);
    assert d.index.below.Keys == {};
    ReachesSelf(later, head);
    EmptyListing(h, log, head);
    assert FindDelta(c, head, None) == Some(0);
    hide Documented, Listing, EncodeCursor, DecodeCursor;
  }

  lemma EmptyListing(h: Indexing, log: Log, head: OpId)
    requires Documented(h) && head !in log
    ensures Listing(h.linearize, log, head, None) == []
  {
    UnstoredReachesNothing(log, head);
    var below := Below(log, head);
    assert below.Keys == {};
    var rank: OpId -> nat := o => 0;
    assert Ranks(rank, below);
    var order := h.linearize(below, head, {});
    assert Elements(order) == {};
    NoElements(order);
    assert Since(log, head, None) == {};
  }

  /** A pull whose listing is disturbed between two pages is cut short by some page size: where the first page
      reaches as far as the new listing, the cursor answered from it after a restart gets an empty page, or
      a refusal when it points past its end. */
  lemma PushedCutoffCuts(h: Indexing, log: Log, later: Log, head: OpId, b: OpId, n: nat, now: nat)
    requires Documented(h) && Stored(log) && Stored(later) && Grows(log, later) && IsOpId(head) && IsOpId(b)
    requires head in log && !Undisturbed(log, later, head, Some(b))
    requires var order := Listing(h.linearize, log, head, Some(b));
             |Listing(h.linearize, later, head, Some(b))| <= n < |order| && 0 < n < Text.USIZE_LIMIT
    ensures var order, empty := Listing(h.linearize, log, head, Some(b)), Cache([], [], []);
            var first := Handle(h, log, empty, Some(head), Request(Some(b), None, Some(n)), now).0;
            && first == Page(order[..n], Some(EncodeCursor(Position(head, Some(b), n))))
            && Handle(h, later, empty, Some(head), Request(Some(b), first.next, Some(n)), now).0
               == if n == |Listing(h.linearize, later, head, Some(b))| then Page([], None) else BadRequest
  {
    hide *;
    var order := Listing(h.linearize, log, head, Some(b));
    var start, at := Position(head, Some(b), 0), Position(head, Some(b), n);
    PageOfFresh(h, log, start, order, Request(Some(b), None, Some(n)), now) by {
      TakesNothing(head, b, now);
      FallsBack(head, b, n, now);
    }
    CursorRoundTrip(at) by { IdsEncode(at); }
    IdsEncode(at);
    var next := Request(Some(b), Some(EncodeCursor(at)), Some(n));
    StaysStored(log, later, head);
    PageOfFresh(h, later, at, Listing(h.linearize, later, head, Some(b)), next, now) by {
      DecodesTo(head, at, next, now);
    }
    FirstOf(order, start, n);
    PastEnd(Listing(h.linearize, later, head, Some(b)), at, next);
  }

  lemma StaysStored(log: Log, later: Log, head: OpId)
    requires Grows(log, later) && head in log
    ensures head in later
  {
  }

  lemma FirstOf(order: seq<OpId>, at: Position, n: nat)
    requires at.offset == 0 && 0 < n < |order|
    ensures Slice(order, at, Request(at.base, None, Some(n))) == Page(order[..n], Some(EncodeCursor(at.(offset := n))))
  {
    hide EncodeCursor;
    assert order[0..n] == order[..n];
  }

  lemma PastEnd(order: seq<OpId>, at: Position, req: Request)
    requires |order| <= at.offset && req.cursor.Some?
    ensures Slice(order, at, req) == if at.offset == |order| then Page([], None) else BadRequest
  {
  }

  /** Such a page size exists: the new listing is shorter, and only a listing of one op has no room for it. */
  lemma CutSizeExists(h: Indexing, log: Log, later: Log, head: OpId, b: OpId)
    requires Documented(h) && Stored(log) && Stored(later) && Grows(log, later)
    requires head in log && !Undisturbed(log, later, head, Some(b)) && |Listing(h.linearize, log, head, Some(b))| != 1
    ensures var rest := |Listing(h.linearize, later, head, Some(b))|;
            (if rest == 0 then 1 else rest) < |Listing(h.linearize, log, head, Some(b))|
  {
    ShorterWhenDisturbed(h, log, later, head, b);
  }

  lemma ShorterWhenDisturbed(h: Indexing, log: Log, later: Log, head: OpId, b: OpId)
    requires Documented(h) && Stored(log) && Stored(later) && Grows(log, later)
    requires head in log && !Undisturbed(log, later, head, Some(b))
    ensures |Listing(h.linearize, later, head, Some(b))| < |Listing(h.linearize, log, head, Some(b))|
  {
    hide *;
    LinearizerIsFaithful(h);
    LogIsStored(log);
    LogIsStored(later);
    DisturbedSince(log, later, head, Some(b));
    ListingIs(h.linearize, log, head, Some(b));
    ListingIs(h.linearize, later, head, Some(b));
    DistinctSize(Listing(h.linearize, log, head, Some(b)));
    DistinctSize(Listing(h.linearize, later, head, Some(b)));
    SmallerSet(Since(later, head, Some(b)), Since(log, head, Some(b)));
  }

  lemma SmallerSet<T>(a: set<T>, b: set<T>)
    requires a < b
    ensures |a| < |b|
  {
    assert b == a + (b - a);
    assert b - a != {};
  }

  /** A cutoff pushed between two pages shifts the listing under the cursor: after a restart the pull
      of r, x outside an unknown b ends without x, which b does not reach. */
  lemma PushedCutoffSkips(h: Indexing, r: OpId, x: OpId, b: OpId, now: nat)
    requires Documented(h) && r != x && r != b && x != b && IsOpId(r) && IsOpId(x) && IsOpId(b)
    ensures var log, later, empty := map[r := {}, x := {r}], map[r := {}, x := {r}, b := {r}], Cache([], [], []);
            var first := Handle(h, log, empty, Some(x), Request(Some(b), None, Some(1)), now).0;
            && first == Page([r], Some(EncodeCursor(Position(x, Some(b), 1))))
            && Handle(h, later, empty, Some(x), Request(Some(b), first.next, Some(1)), now).0 == Page([], None)
            && x in Since(later, x, Some(b))
  {
    var log, later, empty := map[r := {}, x := {r}], map[r := {}, x := {r}, b := {r}], Cache([], [], []);
    hide *;
    LineListing(h, r, x, b);
    PageOfFresh(h, log, Position(x, Some(b), 0), [r, x], Request(Some(b), None, Some(1)), now) by {
      TakesNothing(x, b, now);
      FallsBack(x, b, 1, now);
    }
    var at := Position(x, Some(b), 1);
    OneFits();
    CursorRoundTrip(at) by { IdsEncode(at); }
    IdsEncode(at);
    PageOfFresh(h, later, at, [x], Request(Some(b), Some(EncodeCursor(at)), Some(1)), now) by {
      DecodesTo(x, at, Request(Some(b), Some(EncodeCursor(at)), Some(1)), now);
    }
    FirstOf([r, x], Position(x, Some(b), 0), 1);
    assert [r, x][..1] == [r];
    PastEnd([x], at, Request(Some(b), Some(EncodeCursor(at)), Some(1)));
  }

  lemma OneFits()
    ensures 1 < Text.USIZE_LIMIT
  {
  }

  lemma IdsEncode(at: Position)
    requires IsOpId(at.head) && (at.base.Some? ==> IsOpId(at.base.value)) && at.offset < Text.USIZE_LIMIT
    ensures Encodable(at)
  {
  }

  lemma FallsBack(head: OpId, after: OpId, n: nat, now: nat)
    ensures Resolve(Cache([], [], []), Some(head), Request(Some(after), None, Some(n)), now)
         == (At(Position(head, Some(after), 0)), Cache([], [], []))
  {
    TakesNothing(head, after, now);
  }

  lemma DecodesTo(head: OpId, at: Position, req: Request, now: nat)
    requires req.cursor.Some? && DecodeCursor(req.cursor.value) == Some(at)
    ensures Resolve(Cache([], [], []), Some(head), req, now) == (At(at), Cache([], [], []))
  {
  }

  /** A server that has just started answers from the listing. */
  lemma PageOfFresh(h: Indexing, log: Log, at: Position, order: seq<OpId>, req: Request, now: nat)
    requires Documented(h) && Listing(h.linearize, log, at.head, at.base) == order && at.head in log
    requires Resolve(Cache([], [], []), Some(at.head), req, now) == (At(at), Cache([], [], []))
    ensures Handle(h, log, Cache([], [], []), Some(at.head), req, now).0 == Slice(order, at, req)
  {
    hide Documented, Listing, DeltaFor, EncodeCursor, Resolve;
    var empty := Cache([], [], []);
    EmptyCoherent(h, log);
    DeltaIsListing(h, System(log, empty), at.head, at.base);
    ReachesSelf(log, at.head);
    assert at.head in Below(log, at.head).Keys;
    hide Coherent, Below;
  }

  lemma TakesNothing(head: OpId, last: OpId, now: nat)
    ensures Take(Expire([], now), head, last) == (None, [])
  {
    assert Expire([], now) == [];
  }

  lemma LineListing(h: Indexing, r: OpId, x: OpId, b: OpId)
    requires Documented(h) && r != x && r != b && x != b
    ensures Listing(h.linearize, map[r := {}, x := {r}], x, Some(b)) == [r, x]
    ensures var later := map[r := {}, x := {r}, b := {r}];
            Listing(h.linearize, later, x, Some(b)) == [x] && x in Since(later, x, Some(b))
  {
    var log, later := map[r := {}, x := {r}], map[r := {}, x := {r}, b := {r}];
    LineAncestry(log, r, x);
    LineAncestry(later, r, x);
    LineAncestry(later, r, b);
    UnstoredReachesNothing(log, b);
    assert Since(log, x, Some(b)) == {r, x} && Since(later, x, Some(b)) == {x};
    var rank: OpId -> nat := o => if o == r then 0 else 1;
    assert Ranks(rank, log) && Ranks(rank, later);
    ListingIs(h.linearize, log, x, Some(b));
    ListingIs(h.linearize, later, x, Some(b));
    assert r in Below(log, x)[x];
    hide Documented, Listing, Ancestry, Below;
    TwoInOrder(Listing(h.linearize, log, x, Some(b)), Below(log, x), r, x);
    OneListed(Listing(h.linearize, later, x, Some(b)), x);
  }

  lemma LineAncestry(log: Log, r: OpId, x: OpId)
    requires r in log && x in log && log[r] == {} && log[x] == {r}
    ensures Ancestry(log, x) == {r, x}
  {
    Root(log, r);
    assert log[x] == {r, r};
    Child(log, x, r, r);
  }

  lemma TwoInOrder(ops: seq<OpId>, below: Log, r: OpId, x: OpId)
    requires Distinct(ops) && Elements(ops) == {r, x} && r != x && ParentsFirst(below, ops)
    requires x in below && r in below[x]
    ensures ops == [r, x]
  {
    assert r in Elements(ops) && x in Elements(ops);
    var i :| 0 <= i < |ops| && ops[i] == r;
    var j :| 0 <= j < |ops| && ops[j] == x;
    assert forall k | 0 <= k < |ops| :: ops[k] in Elements(ops);
    assert i < j;
    DistinctSize(ops);
    assert |{r, x}| == 2;
  }

  lemma OneListed(ops: seq<OpId>, x: OpId)
    requires Distinct(ops) && Elements(ops) == {x}
    ensures ops == [x]
  {
    assert x in Elements(ops);
    assert forall k | 0 <= k < |ops| :: ops[k] in Elements(ops);
    DistinctSize(ops);
  }

  lemma {:induction false} DistinctSize(ops: seq<OpId>)
    requires Distinct(ops)
    ensures |Elements(ops)| == |ops|
  {
    if ops != [] {
      var rest := ops[1..];
      DistinctSize(rest);
      ElementsCons(ops[0], rest);
      assert ops == [ops[0]] + rest;
      assert ops[0] !in Elements(rest);
    }
  }
}
