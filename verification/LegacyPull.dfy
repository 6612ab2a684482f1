/** Legacy `after=` pulls lose nothing. */
module LegacyPull {
  import opened Options
  import opened History
  import opened Cursors
  import opened OpsSince
  import opened PullLaws

  // ---- ancestors come earlier in a listing ----

  lemma {:induction false} AncestorsEarlier(lin: Linearizer, log: Log, head: OpId, base: Option<OpId>, walk: seq<OpId>, i: nat, j: nat)
    requires Faithful(lin) && Acyclic(log)
    requires var order := Listing(lin, log, head, base);
             Walk(log, walk) && i < |order| && j < |order| && walk[0] == order[j] && walk[|walk| - 1] == order[i]
    ensures i <= j
    decreases |walk|
  {
    var order := Listing(lin, log, head, base);
    ListingIs(lin, log, head, base);
    assert order[i] in Elements(order) && order[j] in Elements(order);
    if |walk| == 1 {
    } else {
      var next, rest := walk[1], walk[1..];
      assert Walk(log, rest);
      InDeltaToo(log, head, base, walk);
      assert next in Elements(order);
      var k :| 0 <= k < |order| && order[k] == next;
      assert next in Below(log, head)[order[j]];
      assert k < j;
      AncestorsEarlier(lin, log, head, base, rest, i, k);
    }
  }

  /** A walk between two ops of a delta stays in the delta. */
  lemma InDeltaToo(log: Log, head: OpId, base: Option<OpId>, walk: seq<OpId>)
    requires Walk(log, walk) && |walk| > 1
    requires walk[0] in Since(log, head, base) && walk[|walk| - 1] in Since(log, head, base)
    ensures walk[1] in Since(log, head, base)
  {
    var next, last, rest := walk[1], walk[|walk| - 1], walk[1..];
    ReachesParent(log, head, walk[0], next);
    assert Walk(log, rest) && rest[0] == next && rest[|rest| - 1] == last;
    if base.Some? && next in Ancestry(log, base.value) {
      ReachesThrough(log, base.value, next, last);
    }
  }

  /** Everything below an op of a listing was cut off or is listed no later than it. */
  lemma AncestryCovered(lin: Linearizer, log: Log, head: OpId, base: Option<OpId>, j: nat, o: OpId)
    requires Faithful(lin) && Acyclic(log) && j < |Listing(lin, log, head, base)|
    requires o in Ancestry(log, Listing(lin, log, head, base)[j])
    ensures o in CutOff(log, base) || o in Listing(lin, log, head, base)[..j + 1]
  {
    var order := Listing(lin, log, head, base);
    ListingIs(lin, log, head, base);
    assert order[j] in Elements(order);
    ReachesThrough(log, head, order[j], o);
    if o !in CutOff(log, base) {
      assert o in Elements(order);
      var i :| 0 <= i < |order| && order[i] == o;
      var walk :| Walk(log, walk) && walk[0] == order[j] && walk[|walk| - 1] == o;
      AncestorsEarlier(lin, log, head, base, walk, i, j);
      assert order[..j + 1][i] == o;
    }
  }

  // ---- the pull ----

  ghost function OpsAt(h: Indexing, p: Pull, k: nat): seq<OpId>
    requires Placed(p) && k < |p.exchanges|
  {
    OpsOf(ResponseAt(h, p, k))
  }

  ghost function ListingAt(h: Indexing, p: Pull, k: nat): seq<OpId>
    requires Placed(p) && k < |p.exchanges| && TargetAt(p, k).At?
  {
    var at := TargetAt(p, k).position;
    Listing(h.linearize, LogAt(p, k), at.head, at.base)
  }

  ghost function EndAt(h: Indexing, p: Pull, k: nat): nat
    requires Placed(p) && k < |p.exchanges| && TargetAt(p, k).At?
  {
    EndOf(ListingAt(h, p, k), TargetAt(p, k).position, p.exchanges[k].req.limit)
  }

  /** The continuation the `k`-th request takes, if any. */
  ghost function TakenAt(p: Pull, k: nat): Option<Continuation>
    requires Placed(p) && k < |p.exchanges|
  {
    var x := p.exchanges[k];
    if x.branchHead.Some? && x.req.after.Some?
    then Take(Expire(SystemAt(p, k).cache.continuations, x.now), x.branchHead.value, x.req.after.value).0
    else None
  }

  /** It is the one the `j`-th exchange of this same pull recorded. */
  ghost predicate RecordedBy(h: Indexing, p: Pull, j: nat, c: Continuation)
    requires Placed(p) && j < |p.exchanges|
  {
    && TargetAt(p, j).At? && OpsAt(h, p, j) != [] && EndAt(h, p, j) < |ListingAt(h, p, j)|
    && var at := TargetAt(p, j).position;
       c.head == at.head && c.base == at.base && c.end == EndAt(h, p, j)
  }

  /** Such a one, over a listing undisturbed since. */
  ghost predicate OwnFrom(h: Indexing, p: Pull, j: nat, k: nat)
    requires Placed(p) && j < k < |p.exchanges| && TakenAt(p, k).Some?
  {
    && RecordedBy(h, p, j, TakenAt(p, k).value)
    && var at := TargetAt(p, j).position; Undisturbed(LogAt(p, j), LogAt(p, k), at.head, at.base)
  }

  ghost predicate Own(h: Indexing, p: Pull, k: nat)
    requires Placed(p) && k < |p.exchanges| && TakenAt(p, k).Some?
  {
    exists j | 0 <= j < k :: OwnFrom(h, p, j, k)
  }

  /** What the pages before the `k`-th delivered. */
  ghost function ReceivedBefore(h: Indexing, p: Pull, k: nat): set<OpId>
    requires Placed(p) && k <= |p.exchanges|
  {
    set j, i | 0 <= j < k && 0 <= i < |OpsAt(h, p, j)| :: OpsAt(h, p, j)[i]
  }

  /** The listing the `k`-th request resumes in goes on with every op its head reaches outside the first
      cutoff's ancestry and not received yet. */
  ghost predicate Harmless(h: Indexing, p: Pull, after: Option<OpId>, k: nat)
    requires Placed(p) && k < |p.exchanges| && TargetAt(p, k).At?
  {
    var at, order := TargetAt(p, k).position, ListingAt(h, p, k);
    at.offset <= |order|
    && Since(LogAt(p, k), at.head, after) <= ReceivedBefore(h, p, k) + Elements(order[at.offset..])
  }

  /** Every continuation the pull takes is its own, or harmless. */
  ghost predicate TakesSafely(h: Indexing, p: Pull, after: Option<OpId>)
    requires Placed(p)
  {
    forall k | 0 <= k < |p.exchanges| && TakenAt(p, k).Some? ::
      Own(h, p, k) || (TargetAt(p, k).At? && Harmless(h, p, after, k))
  }

  /** Each request names the last op of the page before it; the branch may have moved. */
  ghost predicate Legacy(h: Indexing, p: Pull, after: Option<OpId>)
    requires Placed(p)
  {
    && p.exchanges[0].req.after == after
    && (forall k | 0 <= k < |p.exchanges| ::
          var x := p.exchanges[k];
          x.req.cursor.None? && PositiveLimit(x.req) && x.branchHead.Some? && x.branchHead.value in LogAt(p, k))
    && forall k | 0 < k < |p.exchanges| :: AsksAfter(h, p, k)
  }

  ghost predicate AsksAfter(h: Indexing, p: Pull, k: nat)
    requires Placed(p) && 0 < k < |p.exchanges|
  {
    OpsAt(h, p, k - 1) != [] && p.exchanges[k].req.after == Some(OpsAt(h, p, k - 1)[|OpsAt(h, p, k - 1)| - 1])
  }

  ghost function ReceivedBy(h: Indexing, p: Pull, k: nat): set<OpId>
    requires Placed(p) && k < |p.exchanges|
  {
    set j, i | 0 <= j <= k && 0 <= i < |OpsAt(h, p, j)| :: OpsAt(h, p, j)[i]
  }

  /** What a page leaves behind: what its cutoff takes from the head's history, the listing up to its end,
      and its last op's ancestry have been received or were cut off from the start. */
  ghost predicate Covered(h: Indexing, p: Pull, after: Option<OpId>, k: nat)
    requires Placed(p) && k < |p.exchanges|
  {
    && Resumes(h, p, after, k)
    && EndAt(h, p, k) <= |ListingAt(h, p, k)|
    && var got := ReceivedBy(h, p, k) + CutOff(LogAt(p, k), after);
       && (forall i | 0 <= i < EndAt(h, p, k) :: ListingAt(h, p, k)[i] in got)
       && (OpsAt(h, p, k) != [] ==> Ancestry(LogAt(p, k), OpsAt(h, p, k)[|OpsAt(h, p, k)| - 1]) <= got)
  }

  /** What it needs to start with. */
  ghost predicate Resumes(h: Indexing, p: Pull, after: Option<OpId>, k: nat)
    requires Placed(p) && k < |p.exchanges|
  {
    && TargetAt(p, k).At? && TargetAt(p, k).position.offset <= |ListingAt(h, p, k)|
    && var at, got := TargetAt(p, k).position, ReceivedBy(h, p, k) + CutOff(LogAt(p, k), after);
       && at.head in LogAt(p, k)
       && (forall i | 0 <= i < at.offset :: ListingAt(h, p, k)[i] in got)
       && Ancestry(LogAt(p, k), at.head) * CutOff(LogAt(p, k), at.base) <= got
  }

  /** Where a request resumes: where the continuation it took ended, or at the start of the listing
      outside its `after`'s ancestry. */
  lemma LegacyTarget(h: Indexing, p: Pull, after: Option<OpId>, k: nat)
    requires Placed(p) && Legacy(h, p, after) && k < |p.exchanges|
    ensures var x := p.exchanges[k];
            && x.req.cursor.None? && PositiveLimit(x.req)
            && x.branchHead.Some? && x.branchHead.value in LogAt(p, k)
            && TargetAt(p, k) == At(match TakenAt(p, k)
                                    case Some(c) => Position(x.branchHead.value, c.base, c.end)
                                    case None => Position(x.branchHead.value, x.req.after, 0))
            && (TakenAt(p, k).Some? ==> TakenAt(p, k).value.head == x.branchHead.value)
  {
    hide OpsAt, Expire;
    var x := p.exchanges[k];
    if x.req.after.Some? {
      TakenFromHead(Expire(SystemAt(p, k).cache.continuations, x.now), x.branchHead.value, x.req.after.value);
    }
  }

  lemma TakenFromHead(cs: seq<Continuation>, head: OpId, last: OpId)
    ensures Take(cs, head, last).0.Some? ==> Take(cs, head, last).0.value.head == head
  {
    var hits := Hits(cs, head, last);
    assert hits != [] ==> hits[0] in hits;
  }

  /** A request that resumes inside its listing gets the page from there to its end. */
  lemma LegacyPage(h: Indexing, p: Pull, after: Option<OpId>, k: nat)
    requires Documented(h) && Run(h, p.run) && Placed(p) && Legacy(h, p, after) && k < |p.exchanges|
    requires TargetAt(p, k).At? && TargetAt(p, k).position.offset <= |ListingAt(h, p, k)|
    ensures var at := TargetAt(p, k).position;
            && at.offset <= EndAt(h, p, k) <= |ListingAt(h, p, k)|
            && OpsAt(h, p, k) == ListingAt(h, p, k)[at.offset..EndAt(h, p, k)]
            && (at.offset < |ListingAt(h, p, k)| ==> OpsAt(h, p, k) != [])
  {
    LegacyTarget(h, p, after, k);
    hide Documented, Run, Legacy, TargetAt, LogAt, Listing, ResponseAt, Placed, EncodeCursor;
    Answered(h, p, k);
  }

  /** From what the request starts with to what its page leaves behind. */
  lemma PageCovers(h: Indexing, p: Pull, after: Option<OpId>, k: nat)
    requires Documented(h) && Run(h, p.run) && Placed(p) && Legacy(h, p, after) && k < |p.exchanges|
    requires Resumes(h, p, after, k)
    ensures Covered(h, p, after, k)
  {
    hide *;
    ResumesHas(h, p, after, k);
    LegacyPage(h, p, after, k);
    LogsGrow(h, p, k, k);
    LinearizerIsFaithful(h);
    LogIsStored(LogAt(p, k));
    ListingOf(h, p, k);
    var at, got := TargetAt(p, k).position, ReceivedBy(h, p, k) + CutOff(LogAt(p, k), after);
    PageReceived(h, p, k);
    PrefixCovers(h.linearize, LogAt(p, k), at, EndAt(h, p, k), OpsAt(h, p, k), got);
    MakeCovered(h, p, after, k);
  }

  lemma ResumesHas(h: Indexing, p: Pull, after: Option<OpId>, k: nat)
    requires Placed(p) && k < |p.exchanges| && Resumes(h, p, after, k)
    ensures TargetAt(p, k).At? && TargetAt(p, k).position.offset <= |ListingAt(h, p, k)|
    ensures var at, got := TargetAt(p, k).position, ReceivedBy(h, p, k) + CutOff(LogAt(p, k), after);
            && at.head in LogAt(p, k)
            && (forall i | 0 <= i < at.offset :: ListingAt(h, p, k)[i] in got)
            && Ancestry(LogAt(p, k), at.head) * CutOff(LogAt(p, k), at.base) <= got
  {
  }

  lemma PageReceived(h: Indexing, p: Pull, k: nat)
    requires Placed(p) && k < |p.exchanges|
    ensures forall o | o in OpsAt(h, p, k) :: o in ReceivedBy(h, p, k)
  {
    hide OpsAt, Placed;
  }

  lemma MakeCovered(h: Indexing, p: Pull, after: Option<OpId>, k: nat)
    requires Placed(p) && k < |p.exchanges| && Resumes(h, p, after, k) && EndAt(h, p, k) <= |ListingAt(h, p, k)|
    requires var got := ReceivedBy(h, p, k) + CutOff(LogAt(p, k), after);
             && (forall i | 0 <= i < EndAt(h, p, k) :: ListingAt(h, p, k)[i] in got)
             && (OpsAt(h, p, k) != [] ==> Ancestry(LogAt(p, k), OpsAt(h, p, k)[|OpsAt(h, p, k)| - 1]) <= got)
    ensures Covered(h, p, after, k)
  {
  }

  /** The page from a position on, with what was received before it, covers its last op's ancestry. */
  lemma PrefixCovers(lin: Linearizer, log: Log, at: Position, end: nat, ops: seq<OpId>, got: set<OpId>)
    requires Faithful(lin) && Acyclic(log)
    requires var order := Listing(lin, log, at.head, at.base);
             && at.offset <= end <= |order| && ops == order[at.offset..end]
             && forall i | 0 <= i < at.offset :: order[i] in got
    requires (forall o | o in ops :: o in got) && Ancestry(log, at.head) * CutOff(log, at.base) <= got
    ensures forall i | 0 <= i < end :: Listing(lin, log, at.head, at.base)[i] in got
    ensures ops != [] ==> Ancestry(log, ops[|ops| - 1]) <= got
  {
    hide Faithful, Acyclic, Listing, CutOff, Ancestry;
    var order := Listing(lin, log, at.head, at.base);
    forall i | 0 <= i < end ensures order[i] in got {
      if i >= at.offset { assert ops[i - at.offset] == order[i]; }
    }
    if ops != [] {
      var last := ops[|ops| - 1];
      assert last == order[end - 1];
      ListedBelow(lin, log, at.head, at.base);
      forall o | o in Ancestry(log, last) ensures o in got {
        ReachesThrough(log, at.head, last, o);
        AncestryCovered(lin, log, at.head, at.base, end - 1, o);
        if o in order[..end] {
          var i :| 0 <= i < end && order[..end][i] == o;
        }
      }
    }
  }

  lemma ReceivedGrows(h: Indexing, p: Pull, j: nat, k: nat)
    requires Placed(p) && j <= k < |p.exchanges|
    ensures ReceivedBy(h, p, j) <= ReceivedBy(h, p, k)
  {
    hide OpsAt, Placed;
  }

  /** Nothing that was covered is uncovered later. */
  lemma GotGrows(h: Indexing, p: Pull, after: Option<OpId>, j: nat, k: nat)
    requires Documented(h) && Run(h, p.run) && Placed(p) && j <= k < |p.exchanges|
    ensures ReceivedBy(h, p, j) + CutOff(LogAt(p, j), after) <= ReceivedBy(h, p, k) + CutOff(LogAt(p, k), after)
  {
    LogsGrow(h, p, j, k);
    ReceivedGrows(h, p, j, k);
    hide Documented, Run, Placed, LogAt, Ancestry, ReceivedBy;
    if after.Some? { AncestryGrows(LogAt(p, j), LogAt(p, k), after.value); }
  }

  lemma ListedBelow(lin: Linearizer, log: Log, head: OpId, base: Option<OpId>)
    requires Faithful(lin) && Acyclic(log)
    ensures var order := Listing(lin, log, head, base);
            && Distinct(order)
            && (forall i | 0 <= i < |order| :: order[i] in Ancestry(log, head) && order[i] !in CutOff(log, base))
            && (forall o | o in Ancestry(log, head) && o !in CutOff(log, base) :: o in order)
  {
    ListingIs(lin, log, head, base);
    var order := Listing(lin, log, head, base);
    hide Listing, Ancestry, CutOff;
    forall i | 0 <= i < |order| ensures order[i] in Since(log, head, base) { assert order[i] in Elements(order); }
    forall o | o in Ancestry(log, head) && o !in CutOff(log, base) ensures o in order {
      assert o in Since(log, head, base) && o in Elements(order);
    }
  }

  /** A fallback on the last op of the previous page. */
  lemma FallbackCovers(h: Indexing, p: Pull, after: Option<OpId>, k: nat)
    requires Documented(h) && Run(h, p.run) && Placed(p) && Legacy(h, p, after)
    requires 0 < k < |p.exchanges| && TakenAt(p, k).None? && Covered(h, p, after, k - 1)
    ensures Covered(h, p, after, k)
  {
    hide *;
    LegacyTarget(h, p, after, k);
    LastReceived(h, p, after, k - 1);
    LogsGrow(h, p, k - 1, k);
    GotGrows(h, p, after, k - 1, k);
    var x := OpsAt(h, p, k - 1)[|OpsAt(h, p, k - 1)| - 1];
    LogIsStored(LogAt(p, k - 1));
    AncestryStable(LogAt(p, k - 1), LogAt(p, k), x);
    MakeResumes(h, p, after, k, x);
    PageCovers(h, p, after, k);
  }

  lemma MakeResumes(h: Indexing, p: Pull, after: Option<OpId>, k: nat, x: OpId)
    requires Placed(p) && k < |p.exchanges| && TargetAt(p, k).At?
    requires TargetAt(p, k).position.base == Some(x) && TargetAt(p, k).position.offset == 0
    requires TargetAt(p, k).position.head in LogAt(p, k)
    requires Ancestry(LogAt(p, k), x) <= ReceivedBy(h, p, k) + CutOff(LogAt(p, k), after)
    ensures Resumes(h, p, after, k)
  {
    hide TargetAt, LogAt, Ancestry, ReceivedBy, ListingAt, Placed;
  }

  lemma LastReceived(h: Indexing, p: Pull, after: Option<OpId>, k: nat)
    requires Documented(h) && Run(h, p.run) && Placed(p) && Legacy(h, p, after)
    requires k + 1 < |p.exchanges| && Covered(h, p, after, k)
    ensures OpsAt(h, p, k) != [] && p.exchanges[k + 1].req.after == Some(OpsAt(h, p, k)[|OpsAt(h, p, k)| - 1])
    ensures OpsAt(h, p, k)[|OpsAt(h, p, k)| - 1] in LogAt(p, k)
    ensures Ancestry(LogAt(p, k), OpsAt(h, p, k)[|OpsAt(h, p, k)| - 1]) <= ReceivedBy(h, p, k) + CutOff(LogAt(p, k), after)
  {
    hide *;
    LegacyNext(h, p, after, k);
    CoveredHas(h, p, after, k);
    LegacyPage(h, p, after, k);
    var at := TargetAt(p, k).position;
    ListedIsStored(h.linearize, LogAt(p, k), at.head, at.base, ListingAt(h, p, k)) by {
      LogsGrow(h, p, k, k);
      LinearizerIsFaithful(h);
      LogIsStored(LogAt(p, k));
      ListingOf(h, p, k);
    }
  }

  lemma LegacyNext(h: Indexing, p: Pull, after: Option<OpId>, k: nat)
    requires Placed(p) && Legacy(h, p, after) && k + 1 < |p.exchanges|
    ensures OpsAt(h, p, k) != [] && p.exchanges[k + 1].req.after == Some(OpsAt(h, p, k)[|OpsAt(h, p, k)| - 1])
  {
    hide OpsAt, Placed, LogAt;
    assert AsksAfter(h, p, k + 1);
  }

  lemma CoveredHas(h: Indexing, p: Pull, after: Option<OpId>, k: nat)
    requires Placed(p) && k < |p.exchanges| && Covered(h, p, after, k)
    ensures TargetAt(p, k).At? && TargetAt(p, k).position.offset <= |ListingAt(h, p, k)|
    ensures var at, got := TargetAt(p, k).position, ReceivedBy(h, p, k) + CutOff(LogAt(p, k), after);
            && at.head in LogAt(p, k)
            && EndAt(h, p, k) <= |ListingAt(h, p, k)|
            && (forall i | 0 <= i < EndAt(h, p, k) :: ListingAt(h, p, k)[i] in got)
            && Ancestry(LogAt(p, k), at.head) * CutOff(LogAt(p, k), at.base) <= got
            && (OpsAt(h, p, k) != [] ==> Ancestry(LogAt(p, k), OpsAt(h, p, k)[|OpsAt(h, p, k)| - 1]) <= got)
  {
  }

  lemma ListingOf(h: Indexing, p: Pull, k: nat)
    requires Placed(p) && k < |p.exchanges| && TargetAt(p, k).At?
    ensures var at := TargetAt(p, k).position;
            ListingAt(h, p, k) == Listing(h.linearize, LogAt(p, k), at.head, at.base)
  {
  }

  lemma ListedIsStored(lin: Linearizer, log: Log, head: OpId, base: Option<OpId>, order: seq<OpId>)
    requires Faithful(lin) && Acyclic(log) && order == Listing(lin, log, head, base)
    ensures forall i | 0 <= i < |order| :: order[i] in log
    ensures order == [] ==> Since(log, head, base) == {}
  {
    ListingIs(lin, log, head, base);
    forall i | 0 <= i < |order| ensures order[i] in log { assert order[i] in Elements(order); }
  }

  /** Resuming at a continuation this pull recorded. */
  lemma ResumeCovers(h: Indexing, p: Pull, after: Option<OpId>, j: nat, k: nat)
    requires Documented(h) && Run(h, p.run) && Placed(p) && Legacy(h, p, after)
    requires j < k < |p.exchanges| && TakenAt(p, k).Some? && OwnFrom(h, p, j, k) && Covered(h, p, after, j)
    ensures Covered(h, p, after, k) && OpsAt(h, p, k) != []
  {
    LegacyTarget(h, p, after, k);
    CoveredHas(h, p, after, j);
    var at, bt := TargetAt(p, j).position, TargetAt(p, k).position;
    assert bt == Position(at.head, at.base, EndAt(h, p, j));
    LogsGrow(h, p, j, k);
    GotGrows(h, p, after, j, k);
    var log, later := LogAt(p, j), LogAt(p, k);
    hide Documented, Run, Legacy, Placed, TargetAt, LogAt, TakenAt, Ancestry, CutOff, ReceivedBy, OpsAt, Listing, EndAt, Undisturbed, Covered;
    ListingStable(h.linearize, log, later, at.head, at.base);
    CutOffUndisturbed(log, later, at.head, at.base);
    assert ListingAt(h, p, k) == ListingAt(h, p, j);
    assert Resumes(h, p, after, k);
    PageCovers(h, p, after, k);
    LegacyPage(h, p, after, k);
  }

  lemma ReceivedBeforeGrows(h: Indexing, p: Pull, k: nat)
    requires Placed(p) && k < |p.exchanges|
    ensures ReceivedBefore(h, p, k) <= ReceivedBy(h, p, k)
    ensures ReceivedBy(h, p, k) == ReceivedBefore(h, p, k) + Elements(OpsAt(h, p, k))
  {
    hide OpsAt, Placed;
  }

  /** Resuming harmlessly at any position, whoever recorded it. */
  lemma HarmlessCovers(h: Indexing, p: Pull, after: Option<OpId>, k: nat)
    requires Documented(h) && Run(h, p.run) && Placed(p) && Legacy(h, p, after)
    requires k < |p.exchanges| && TargetAt(p, k).At? && TargetAt(p, k).position.head in LogAt(p, k)
    requires Harmless(h, p, after, k)
    ensures Covered(h, p, after, k)
  {
    var at, log, order := TargetAt(p, k).position, LogAt(p, k), ListingAt(h, p, k);
    LogsGrow(h, p, k, k);
    ReceivedBeforeGrows(h, p, k);
    hide Documented, Run, Legacy, Placed, TargetAt, LogAt, Ancestry, CutOff, ReceivedBy, ReceivedBefore, Faithful, Listing;
    LinearizerIsFaithful(h);
    ListedBelow(h.linearize, log, at.head, at.base);
    RestApart(order, at.offset);
    var got := ReceivedBy(h, p, k) + CutOff(log, after);
    forall o | o in Ancestry(log, at.head) && (o in CutOff(log, at.base) || o in order[..at.offset]) ensures o in got {
      assert o !in Elements(order[at.offset..]);
      assert o in CutOff(log, after) || o in Since(log, at.head, after);
    }
    forall i | 0 <= i < at.offset ensures order[i] in got { assert order[i] in order[..at.offset]; }
    PageCovers(h, p, after, k);
  }

  lemma RestApart(order: seq<OpId>, n: nat)
    requires Distinct(order) && n <= |order|
    ensures forall o | o in order[..n] :: o !in Elements(order[n..])
    ensures forall o | o in Elements(order[n..]) :: o in order
  {
  }

  lemma {:induction false} LegacyCovered(h: Indexing, p: Pull, after: Option<OpId>, k: nat)
    requires Documented(h) && Run(h, p.run) && Placed(p) && Legacy(h, p, after)
    requires TakesSafely(h, p, after) && k < |p.exchanges|
    ensures Covered(h, p, after, k)
    decreases k
  {
    hide Documented, Run, Placed, Legacy, Covered, OwnFrom, TakenAt, OpsAt, Harmless, LogAt, TargetAt;
    if TakenAt(p, k).Some? {
      if Own(h, p, k) {
        var j :| 0 <= j < k && OwnFrom(h, p, j, k);
        LegacyCovered(h, p, after, j);
        ResumeCovers(h, p, after, j, k);
      } else {
        LegacyTarget(h, p, after, k);
        HarmlessCovers(h, p, after, k);
      }
    } else if k > 0 {
      LegacyCovered(h, p, after, k - 1);
      FallbackCovers(h, p, after, k);
    } else {
      FirstCovers(h, p, after);
    }
  }

  lemma FirstCovers(h: Indexing, p: Pull, after: Option<OpId>)
    requires Documented(h) && Run(h, p.run) && Placed(p) && Legacy(h, p, after) && TakenAt(p, 0).None?
    ensures Covered(h, p, after, 0)
  {
    LegacyTarget(h, p, after, 0);
    assert p.exchanges[0].req.after == after;
    hide Documented, Run, Legacy, Placed, TargetAt, LogAt, TakenAt, Covered, Ancestry, ReceivedBy, ListingAt;
    assert Resumes(h, p, after, 0);
    PageCovers(h, p, after, 0);
  }

  /** A legacy pull loses nothing: if every continuation it takes is one it recorded or harmless, then once
      it gets an empty page it has received every op its branch's head reaches outside the first cutoff's
      ancestry, whatever was evicted, expired, restarted or asked by others in between. */
  lemma LegacyPullLossless(h: Indexing, p: Pull, after: Option<OpId>)
    requires Documented(h) && Run(h, p.run) && Placed(p) && Legacy(h, p, after)
    requires TakesSafely(h, p, after) && OpsAt(h, p, |p.exchanges| - 1) == []
    ensures var last := |p.exchanges| - 1;
            Since(LogAt(p, last), p.exchanges[last].branchHead.value, after) <= ReceivedBy(h, p, last)
  {
    hide *;
    HasFirst(p);
    var n := |p.exchanges| - 1;
    LegacyCovered(h, p, after, n);
    CoveredHas(h, p, after, n);
    LegacyTarget(h, p, after, n);
    LegacyPage(h, p, after, n);
    var log, at := LogAt(p, n), TargetAt(p, n).position;
    ListedBelow(h.linearize, log, at.head, at.base) by {
      LogsGrow(h, p, n, n);
      LinearizerIsFaithful(h);
      LogIsStored(log);
    }
    ListingOf(h, p, n);
    SinceOf(log, at.head, after);
    assert at.head == p.exchanges[n].branchHead.value;
    assert EndAt(h, p, n) == |ListingAt(h, p, n)|;
    forall o | o in Since(log, at.head, after) ensures o in ReceivedBy(h, p, n) {
      if o in CutOff(log, at.base) {
        assert o in Ancestry(log, at.head) * CutOff(log, at.base);
      } else {
        assert o in ListingAt(h, p, n);
        var i :| 0 <= i < |ListingAt(h, p, n)| && ListingAt(h, p, n)[i] == o;
      }
      assert o in ReceivedBy(h, p, n) + CutOff(log, after);
    }
  }

  lemma SinceOf(log: Log, head: OpId, base: Option<OpId>)
    ensures Since(log, head, base) == Ancestry(log, head) - CutOff(log, base)
  {
  }
}
