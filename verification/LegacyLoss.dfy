/** When a legacy pull ends, and what it has then missed. */
module LegacyLoss {
  import opened Options
  import opened History
  import opened Cursors
  import opened OpsSince
  import opened PullLaws
  import opened LegacyPull

  // ---- the page that closes a pull ----

  /** The head is the last op of every listing of its history; so nothing is left outside the ancestry of a listed
      op exactly when it is the last one. */
  lemma NothingAfterLast(lin: Linearizer, log: Log, head: OpId, base: Option<OpId>, i: nat)
    requires Faithful(lin) && Acyclic(log) && i < |Listing(lin, log, head, base)|
    ensures Since(log, head, Some(Listing(lin, log, head, base)[i])) == {} <==> i == |Listing(lin, log, head, base)| - 1
  {
    ListedBelow(lin, log, head, base);
    hide Listing, CutOff, Faithful, Acyclic;
    var order := Listing(lin, log, head, base);
    HeadOfListed(log, head, base, order[i]);
    var last :| 0 <= last < |order| && order[last] == head;
    assert order[|order| - 1] in Ancestry(log, head);
    EarlierThan(lin, log, head, base, |order| - 1, last);
    if i != |order| - 1 && head in Ancestry(log, order[i]) {
      EarlierThan(lin, log, head, base, last, i);
    }
    NothingPast(log, head, order[i]);
  }

  /** A head with something listed is itself listed. */
  lemma HeadOfListed(log: Log, head: OpId, base: Option<OpId>, o: OpId)
    requires o in Ancestry(log, head) && o !in CutOff(log, base)
    ensures head in Ancestry(log, head) && head !in CutOff(log, base)
  {
    var walk :| Walk(log, walk) && walk[0] == head && walk[|walk| - 1] == o;
    ReachesSelf(log, head);
    if base.Some? && head in Ancestry(log, base.value) { ReachesThrough(log, base.value, head, o); }
  }

  lemma EarlierThan(lin: Linearizer, log: Log, head: OpId, base: Option<OpId>, i: nat, j: nat)
    requires Faithful(lin) && Acyclic(log) && i < |Listing(lin, log, head, base)| && j < |Listing(lin, log, head, base)|
    requires Listing(lin, log, head, base)[i] in Ancestry(log, Listing(lin, log, head, base)[j])
    ensures i <= j
  {
    hide Listing, Faithful, Acyclic;
    var order := Listing(lin, log, head, base);
    var walk :| Walk(log, walk) && walk[0] == order[j] && walk[|walk| - 1] == order[i];
    AncestorsEarlier(lin, log, head, base, walk, i, j);
  }

  lemma NothingPast(log: Log, head: OpId, o: OpId)
    requires head in log
    ensures Since(log, head, Some(o)) == {} <==> head in Ancestry(log, o)
  {
    ReachesSelf(log, head);
    if head in Ancestry(log, o) {
      forall a | a in Ancestry(log, head) ensures a in Ancestry(log, o) { ReachesThrough(log, o, head, a); }
    } else {
      assert head in Since(log, head, Some(o));
    }
  }

  /** A request that falls back on the last op received, on an unmoved head, gets an empty page exactly when the page
      before it reached the end of its listing. */
  lemma ClosesExactly(h: Indexing, p: Pull, after: Option<OpId>, n: nat)
    requires Documented(h) && Run(h, p.run) && Placed(p) && Legacy(h, p, after) && 0 < n < |p.exchanges|
    requires TakenAt(p, n).None? && p.exchanges[n].branchHead == p.exchanges[n - 1].branchHead
    ensures TargetAt(p, n - 1).At? && (OpsAt(h, p, n) == [] <==> EndAt(h, p, n - 1) == |ListingAt(h, p, n - 1)|)
  {
    hide *;
    LegacyTarget(h, p, after, n - 1);
    LegacyTarget(h, p, after, n);
    LegacyNext(h, p, after, n - 1);
    var at := TargetAt(p, n - 1).position;
    PageInside(h, p, after, n - 1);
    LegacyPage(h, p, after, n - 1);
    LogsGrow(h, p, n - 1, n);
    var log, later, order, end := LogAt(p, n - 1), LogAt(p, n), ListingAt(h, p, n - 1), EndAt(h, p, n - 1);
    ListingOf(h, p, n - 1);
    ListingOf(h, p, n);
    LinearizerIsFaithful(h);
    LogIsStored(log);
    LogIsStored(later);
    ListedIsStored(h.linearize, log, at.head, at.base, order);
    LastOfSlice(order, at.offset, end);
    var x := order[end - 1];
    assert OpsAt(h, p, n - 1)[|OpsAt(h, p, n - 1)| - 1] == x;
    NothingAfterLast(h.linearize, log, at.head, at.base, end - 1);
    StoredUndisturbed(log, later, at.head, x);
    SinceUndisturbed(log, later, at.head, Some(x));
    EmptyListed(h.linearize, later, at.head, Some(x));
    LegacyPage(h, p, after, n);
    WholeSlice(ListingAt(h, p, n), EndAt(h, p, n));
  }

  lemma LastOfSlice(order: seq<OpId>, a: nat, b: nat)
    requires a <= b <= |order| && order[a..b] != []
    ensures 0 < b && order[a..b][|order[a..b]| - 1] == order[b - 1]
  {
  }

  lemma WholeSlice(order: seq<OpId>, end: nat)
    requires end <= |order| && (0 < |order| ==> order[0..end] != [])
    ensures order[0..end] == [] <==> order == []
  {
  }

  lemma EmptyListed(lin: Linearizer, log: Log, head: OpId, base: Option<OpId>)
    requires Faithful(lin) && Acyclic(log)
    ensures Listing(lin, log, head, base) == [] <==> Since(log, head, base) == {}
  {
    ListingIs(lin, log, head, base);
    hide Listing, Since;
    NoElements(Listing(lin, log, head, base));
    if Listing(lin, log, head, base) != [] {
      assert Listing(lin, log, head, base)[0] in Elements(Listing(lin, log, head, base));
    }
  }

  lemma StoredUndisturbed(log: Log, later: Log, head: OpId, base: OpId)
    requires head in log && base in log
    ensures Undisturbed(log, later, head, Some(base))
  {
  }

  lemma SinceUndisturbed(log: Log, later: Log, head: OpId, base: Option<OpId>)
    requires Stored(log) && Grows(log, later) && Undisturbed(log, later, head, base)
    ensures Since(later, head, base) == Since(log, head, base)
  {
    CutOffUndisturbed(log, later, head, base);
    SinceByCommon(log, later, head, base);
  }

  /** A page with ops starts inside its listing. */
  lemma PageInside(h: Indexing, p: Pull, after: Option<OpId>, k: nat)
    requires Documented(h) && Run(h, p.run) && Placed(p) && Legacy(h, p, after) && k < |p.exchanges|
    requires OpsAt(h, p, k) != [] || ResponseAt(h, p, k).Page?
    ensures TargetAt(p, k).At? && TargetAt(p, k).position.offset <= |ListingAt(h, p, k)|
  {
    LegacyTarget(h, p, after, k);
    hide Documented, Run, Legacy, TargetAt, LogAt, Listing, ResponseAt, Placed, EncodeCursor;
    Answered(h, p, k);
  }

  // ---- pages that each go on from the one before ----

  /** The `i`-th request takes the continuation of the page before it. */
  ghost predicate GoesOn(h: Indexing, p: Pull, i: nat)
    requires Placed(p) && 0 < i < |p.exchanges|
  {
    TakenAt(p, i).Some? && OwnFrom(h, p, i - 1, i)
  }

  /** The last of the first `n` requests that does not. */
  ghost function LastResumption(h: Indexing, p: Pull, n: nat): (k: nat)
    requires Placed(p) && 0 < n <= |p.exchanges|
    ensures k < n
  {
    if n > 1 && GoesOn(h, p, n - 1) then LastResumption(h, p, n - 1) else n - 1
  }

  lemma ResumesAt(h: Indexing, p: Pull, after: Option<OpId>, k: nat)
    requires Documented(h) && Run(h, p.run) && Placed(p) && Legacy(h, p, after) && 0 < k < |p.exchanges|
    requires TargetAt(p, k - 1).At? && GoesOn(h, p, k)
    ensures var at := TargetAt(p, k - 1).position;
            TargetAt(p, k) == At(Position(at.head, at.base, EndAt(h, p, k - 1)))
    ensures ListingAt(h, p, k) == ListingAt(h, p, k - 1)
  {
    hide *;
    LegacyTarget(h, p, after, k);
    LogsGrow(h, p, k - 1, k);
    GoesOnHas(h, p, k);
    var at := TargetAt(p, k - 1).position;
    LogIsStored(LogAt(p, k - 1));
    ListingStable(h.linearize, LogAt(p, k - 1), LogAt(p, k), at.head, at.base);
    ListingOf(h, p, k - 1);
    ListingOf(h, p, k);
  }

  lemma GoesOnHas(h: Indexing, p: Pull, k: nat)
    requires Placed(p) && 0 < k < |p.exchanges| && GoesOn(h, p, k)
    ensures TakenAt(p, k).Some? && TargetAt(p, k - 1).At?
    ensures var at, c := TargetAt(p, k - 1).position, TakenAt(p, k).value;
            && c.head == at.head && c.base == at.base && c.end == EndAt(h, p, k - 1)
            && Undisturbed(LogAt(p, k - 1), LogAt(p, k), at.head, at.base)
  {
    hide TakenAt, TargetAt, EndAt, LogAt, Undisturbed, OpsAt, ListingAt;
  }

  lemma ElementsSplit(order: seq<OpId>, a: nat, b: nat, c: nat)
    requires a <= b <= c <= |order|
    ensures Elements(order[a..c]) == Elements(order[a..b]) + Elements(order[b..c])
  {
    var front, back, all := order[a..b], order[b..c], order[a..c];
    assert forall i | 0 <= i < |front| :: front[i] == all[i];
    assert forall i | 0 <= i < |back| :: back[i] == all[i + b - a];
    assert forall i | 0 <= i < |all| :: all[i] == if i < b - a then front[i] else back[i - (b - a)];
  }

  lemma BeforeIsBy(h: Indexing, p: Pull, k: nat)
    requires Placed(p) && 0 < k < |p.exchanges|
    ensures ReceivedBefore(h, p, k) == ReceivedBy(h, p, k - 1)
  {
    hide OpsAt, Placed;
  }

  /** Since its last resumption a pull has received the listing it resumed in, up to where its last page ended, one
      op a page at least. */
  lemma {:induction false} ReceivedSince(h: Indexing, p: Pull, after: Option<OpId>, n: nat)
    requires Documented(h) && Run(h, p.run) && Placed(p) && Legacy(h, p, after) && 0 < n <= |p.exchanges|
    requires OpsAt(h, p, n - 1) != []
    ensures var k := LastResumption(h, p, n);
            && TargetAt(p, k).At? && TargetAt(p, n - 1).At?
            && var at, order := TargetAt(p, k).position, ListingAt(h, p, k);
               && TargetAt(p, n - 1).position.head == at.head && ListingAt(h, p, n - 1) == order
               && at.offset + (n - k) <= EndAt(h, p, n - 1) <= |order|
               && ReceivedBy(h, p, n - 1) == ReceivedBefore(h, p, k) + Elements(order[at.offset..EndAt(h, p, n - 1)])
    decreases n
  {
    hide *;
    LastResumptionIs(h, p, n);
    PageInside(h, p, after, n - 1);
    LegacyPage(h, p, after, n - 1);
    ReceivedBeforeGrows(h, p, n - 1);
    var k := LastResumption(h, p, n);
    if k < n - 1 {
      LegacyNext(h, p, after, n - 2);
      ReceivedSince(h, p, after, n - 1);
      ResumesAt(h, p, after, n - 1);
      BeforeIsBy(h, p, n - 1);
      ElementsSplit(ListingAt(h, p, k), TargetAt(p, k).position.offset, EndAt(h, p, n - 2), EndAt(h, p, n - 1));
    }
  }

  lemma LastResumptionIs(h: Indexing, p: Pull, n: nat)
    requires Placed(p) && 0 < n <= |p.exchanges|
    ensures LastResumption(h, p, n) == n - 1
         || (n > 1 && GoesOn(h, p, n - 1) && LastResumption(h, p, n) == LastResumption(h, p, n - 1) < n - 1)
  {
    hide GoesOn;
  }

  /** So a pull whose requests each take the continuation before them has as many pages as its listing has ops left, at
      most. */
  lemma PagesAreFew(h: Indexing, p: Pull, after: Option<OpId>, n: nat)
    requires Documented(h) && Run(h, p.run) && Placed(p) && Legacy(h, p, after) && 0 < n <= |p.exchanges|
    requires OpsAt(h, p, n - 1) != []
    ensures var k := LastResumption(h, p, n);
            TargetAt(p, k).At? && n - k <= |ListingAt(h, p, k)| - TargetAt(p, k).position.offset
  {
    ReceivedSince(h, p, after, n);
  }

  // ---- exactly what a pull misses ----

  /** A pull that ends, by falling back on a head unmoved since its last resumption, has received what it had before it and
      the rest of the listing it resumed in, no more and no less; so it misses an op it wants exactly when that resumption
      was not harmless. */
  lemma LossExactly(h: Indexing, p: Pull, after: Option<OpId>)
    requires Documented(h) && Run(h, p.run) && Placed(p) && Legacy(h, p, after)
    requires var last := |p.exchanges| - 1;
             && last > 0 && TakenAt(p, last).None? && OpsAt(h, p, last) == []
             && var k := LastResumption(h, p, last);
                && p.exchanges[k].branchHead == p.exchanges[last].branchHead
                && Undisturbed(LogAt(p, k), LogAt(p, last), p.exchanges[last].branchHead.value, after)
    ensures var last := |p.exchanges| - 1;
            var k := LastResumption(h, p, last);
            && TargetAt(p, k).At?
            && var at, order := TargetAt(p, k).position, ListingAt(h, p, k);
               && at.offset <= |order| && p.exchanges[last].branchHead == Some(at.head)
               && ReceivedBy(h, p, last) == ReceivedBefore(h, p, k) + Elements(order[at.offset..])
               && (Since(LogAt(p, last), at.head, after) <= ReceivedBy(h, p, last) <==> Harmless(h, p, after, k))
  {
    hide *;
    var n := |p.exchanges| - 1;
    var k := LastResumption(h, p, n);
    ClosingDelivers(h, p, after);
    LegacyTarget(h, p, after, k);
    LogsGrow(h, p, k, n);
    var at := TargetAt(p, k).position;
    SinceUndisturbed(LogAt(p, k), LogAt(p, n), at.head, after);
    HarmlessIs(h, p, after, k);
  }

  lemma ClosingDelivers(h: Indexing, p: Pull, after: Option<OpId>)
    requires Documented(h) && Run(h, p.run) && Placed(p) && Legacy(h, p, after)
    requires var last := |p.exchanges| - 1;
             && last > 0 && TakenAt(p, last).None? && OpsAt(h, p, last) == []
             && p.exchanges[LastResumption(h, p, last)].branchHead == p.exchanges[last].branchHead
    ensures var last := |p.exchanges| - 1;
            var k := LastResumption(h, p, last);
            && TargetAt(p, k).At?
            && var at, order := TargetAt(p, k).position, ListingAt(h, p, k);
               && at.offset <= |order| && p.exchanges[last].branchHead == Some(at.head)
               && ReceivedBy(h, p, last) == ReceivedBefore(h, p, k) + Elements(order[at.offset..])
  {
    hide *;
    var n := |p.exchanges| - 1;
    var k := LastResumption(h, p, n);
    LegacyNext(h, p, after, n - 1);
    ReceivedSince(h, p, after, n);
    LegacyTarget(h, p, after, k);
    LegacyTarget(h, p, after, n - 1);
    LegacyTarget(h, p, after, n);
    ClosesExactly(h, p, after, n);
    var at, order := TargetAt(p, k).position, ListingAt(h, p, k);
    assert order[at.offset..|order|] == order[at.offset..];
    ReceivedBeforeGrows(h, p, n);
    BeforeIsBy(h, p, n);
    NothingIn(OpsAt(h, p, n));
  }

  lemma NothingIn(ops: seq<OpId>)
    ensures ops == [] ==> Elements(ops) == {}
  {
  }

  lemma HarmlessIs(h: Indexing, p: Pull, after: Option<OpId>, k: nat)
    requires Placed(p) && k < |p.exchanges| && TargetAt(p, k).At?
    requires TargetAt(p, k).position.offset <= |ListingAt(h, p, k)|
    ensures var at, order := TargetAt(p, k).position, ListingAt(h, p, k);
            Harmless(h, p, after, k)
            <==> Since(LogAt(p, k), at.head, after) <= ReceivedBefore(h, p, k) + Elements(order[at.offset..])
  {
  }
}
