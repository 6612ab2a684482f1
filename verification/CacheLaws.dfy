/** What the bounded lists and the continuations of the paged endpoint promise. */
module CacheLaws {
  import opened Options
  import opened History
  import opened Cursors
  import opened OpsSince

  /** An insertion puts the new entry last, keeps the others' order, and drops the oldest only, and only
      past the cap. */
  lemma InsertKeepsNewest<T>(xs: seq<T>, x: T, cap: nat)
    requires cap > 0
    ensures var list := Insert(xs, x, cap);
            && list != [] && list[|list| - 1] == x
            && |list| == (if |xs| < cap then |xs| + 1 else cap)
            && list[..|list| - 1] == xs[|xs| + 1 - |list|..]
  {
  }

  /** A touched entry moves to the end; nothing is lost and the rest keep their order. */
  lemma TouchMovesLast<T>(xs: seq<T>, i: nat)
    requires i < |xs|
    ensures multiset(Touch(xs, i)) == multiset(xs) && |Touch(xs, i)| == |xs|
    ensures Touch(xs, i)[|xs| - 1] == xs[i] && Touch(xs, i)[..|xs| - 1] == xs[..i] + xs[i + 1..]
  {
    assert xs == xs[..i] + [xs[i]] + xs[i + 1..];
  }

  // ---- continuations ----

  predicate Alone(cs: seq<Continuation>, c: Continuation) {
    forall o | o in cs && EndsOn(o, c.head, c.last) :: SamePage(o, c)
  }

  lemma ExpireKeeps(cs: seq<Continuation>, now: nat, c: Continuation)
    ensures c in Expire(cs, now) <==> c in cs && now <= c.at + CONTINUATION_TTL_SECS
  {
  }

  lemma RecordHolds(cs: seq<Continuation>, c: Continuation, o: Continuation)
    ensures c in Record(cs, c)
    ensures o in Record(cs, c) ==> o == c || (o in cs && !SamePage(o, c))
  {
    var kept := Keep(cs, (o: Continuation) => !SamePage(o, c));
    var list := Record(cs, c);
    InsertKeepsNewest(kept, c, MAX_CONTINUATIONS);
    assert list[|list| - 1] == c;
    assert forall x | x in list :: x in kept + [c];
  }

  /** A page end recorded and asked for in time is where the next page resumes, unless another pull's
      page ended on the same op. */
  lemma RecordedIsTaken(cs: seq<Continuation>, c: Continuation, now: nat)
    requires Alone(cs, c) && now <= c.at + CONTINUATION_TTL_SECS
    ensures Take(Expire(Record(cs, c), now), c.head, c.last).0 == Some(c)
  {
    var held := Expire(Record(cs, c), now);
    RecordHolds(cs, c, c);
    ExpireKeeps(Record(cs, c), now, c);
    var hits := Hits(held, c.head, c.last);
    assert c in hits;
    forall o | o in hits ensures o == c {
      ExpireKeeps(Record(cs, c), now, o);
      RecordHolds(cs, c, o);
    }
    forall i | 0 <= i < |hits| ensures hits[i] == c {
      assert hits[i] in hits;
    }
  }

  /** It is taken once. */
  lemma TakenOnce(cs: seq<Continuation>, head: OpId, last: OpId)
    requires Take(cs, head, last).0.Some?
    ensures Take(Take(cs, head, last).1, head, last).0 == None
    ensures forall o :: o in Take(cs, head, last).1 <==> o in cs && !EndsOn(o, head, last)
  {
    NoHits(Forget(cs, head, last), head, last);
  }

  lemma NoHits(cs: seq<Continuation>, head: OpId, last: OpId)
    requires forall o | o in cs :: !EndsOn(o, head, last)
    ensures Hits(cs, head, last) == []
  {
    HasMember(Hits(cs, head, last));
  }

  /** A client that follows cursors leaves nothing for others to take. */
  lemma ForgottenIsNotTaken(cs: seq<Continuation>, head: OpId, last: OpId)
    ensures Take(Forget(cs, head, last), head, last) == (None, Forget(cs, head, last))
  {
    NoHits(Forget(cs, head, last), head, last);
  }

  // ---- the assumption about the index can be met ----

  lemma DocumentedExists()
    ensures exists h: Indexing :: Documented(h)
  {
    FaithfulExists();
    var lin: Linearizer :| Faithful(lin);
    var h := Indexing((log, head) => Below(log, head), (log, o) => Ancestry(log, o), lin);
    hide Below, Ancestry, Faithful;
    assert Documented(h);
  }
}
