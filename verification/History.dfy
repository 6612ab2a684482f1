/** Op histories: what a head reaches, what a cutoff leaves of it, and in which order it is listed
    (the documented behaviour of crates/lex-vcs/src/history_index.rs). */
module History {
  import opened Options

  type OpId = string

  /** The stored ops, each with its parents. A parent need not be stored. */
  type Log = map<OpId, set<OpId>>

  ghost predicate ParentsStored(log: Log) {
    forall o | o in log :: log[o] <= log.Keys
  }

  /** Append only, and ids are content addresses: an op keeps its parents. */
  ghost predicate Grows(log: Log, later: Log) {
    log.Keys <= later.Keys && forall o | o in log :: later[o] == log[o]
  }

  /** A walk from child to parent through stored ops. */
  ghost predicate Walk(log: Log, walk: seq<OpId>) {
    walk != []
    && (forall i | 0 <= i < |walk| :: walk[i] in log)
    && forall i, j | 0 <= i < j < |walk| && j <= i + 1 :: walk[j] in log[walk[i]]
  }

  ghost predicate Reaches(log: Log, from: OpId, o: OpId) {
    exists walk :: Walk(log, walk) && walk[0] == from && walk[|walk| - 1] == o
  }

  /** An op and its ancestors; nothing when it is not stored. */
  ghost function Ancestry(log: Log, from: OpId): set<OpId> {
    set o | o in log && Reaches(log, from, o)
  }

  ghost function CutOff(log: Log, base: Option<OpId>): set<OpId> {
    if base.Some? then Ancestry(log, base.value) else {}
  }

  /** Reachable from the head but not from the cutoff. */
  ghost function Since(log: Log, head: OpId, base: Option<OpId>): set<OpId> {
    Ancestry(log, head) - CutOff(log, base)
  }

  /** The history below a head, with the edges inside it: what an index of the head holds. */
  ghost function Below(log: Log, head: OpId): Log {
    map o | o in Ancestry(log, head) :: log[o] * Ancestry(log, head)
  }

  lemma ReachesSelf(log: Log, o: OpId)
    requires o in log
    ensures o in Ancestry(log, o)
  {
    assert Walk(log, [o]) && [o][0] == o;
  }

  lemma ReachesParent(log: Log, from: OpId, o: OpId, p: OpId)
    requires o in Ancestry(log, from) && p in log && p in log[o]
    ensures p in Ancestry(log, from)
  {
    var walk :| Walk(log, walk) && walk[0] == from && walk[|walk| - 1] == o;
    var longer := walk + [p];
    assert Walk(log, longer) && longer[0] == from && longer[|longer| - 1] == p;
  }

  lemma ReachesThrough(log: Log, from: OpId, mid: OpId, o: OpId)
    requires mid in Ancestry(log, from) && o in Ancestry(log, mid)
    ensures o in Ancestry(log, from)
  {
    var w1 :| Walk(log, w1) && w1[0] == from && w1[|w1| - 1] == mid;
    var w2 :| Walk(log, w2) && w2[0] == mid && w2[|w2| - 1] == o;
    var whole := w1 + w2[1..];
    forall i | 0 < i < |whole| ensures whole[i] in log[whole[i - 1]] {
      if i >= |w1| {
        assert whole[i] == w2[i - |w1| + 1];
        assert whole[i - 1] == w2[i - |w1|];
      }
    }
    assert Walk(log, whole) && whole[0] == from && whole[|whole| - 1] == o;
  }

  /** An op reached by one of more than one step is reached by a parent. */
  lemma ReachedByParent(log: Log, from: OpId, o: OpId) returns (p: OpId)
    requires o in Ancestry(log, from) && o != from
    ensures p in log && from in log && p in log[from] && o in Ancestry(log, p)
  {
    var walk :| Walk(log, walk) && walk[0] == from && walk[|walk| - 1] == o;
    p := walk[1];
    var rest := walk[1..];
    assert Walk(log, rest) && rest[0] == p && rest[|rest| - 1] == o;
  }

  // ---- a history never changes ----

  lemma {:induction false} WalkStaysStored(log: Log, later: Log, walk: seq<OpId>)
    requires ParentsStored(log) && Grows(log, later) && Walk(later, walk) && walk[0] in log
    ensures Walk(log, walk)
    decreases |walk|
  {
    if |walk| > 1 {
      var front := walk[..|walk| - 1];
      assert Walk(later, front);
      WalkStaysStored(log, later, front);
      var o := front[|front| - 1];
      assert o in log && walk[|walk| - 1] in later[o];
    }
  }

  /** Where every parent is stored, the history of a stored op is what it was however the log grows. */
  lemma AncestryStable(log: Log, later: Log, o: OpId)
    requires ParentsStored(log) && Grows(log, later) && (o in log || o !in later)
    ensures Ancestry(later, o) == Ancestry(log, o)
  {
    forall a ensures a in Ancestry(later, o) <==> a in Ancestry(log, o) {
      if a in Ancestry(later, o) {
        var walk :| Walk(later, walk) && walk[0] == o && walk[|walk| - 1] == a;
        WalkStaysStored(log, later, walk);
      }
      if a in Ancestry(log, o) {
        var walk :| Walk(log, walk) && walk[0] == o && walk[|walk| - 1] == a;
        assert Walk(later, walk);
      }
    }
  }

  lemma BelowStable(log: Log, later: Log, head: OpId)
    requires ParentsStored(log) && Grows(log, later) && (head in log || head !in later)
    ensures Below(later, head) == Below(log, head)
  {
    AncestryStable(log, later, head);
  }

  /** The head was not pushed in between; the cutoff was not either, or reaches nothing of the head's
      history. */
  ghost predicate Undisturbed(log: Log, later: Log, head: OpId, base: Option<OpId>) {
    (head in log || head !in later)
    && (base.Some? ==>
          base.value in log || base.value !in later || Ancestry(later, base.value) !! Ancestry(log, head))
  }

  lemma AncestryGrows(log: Log, later: Log, o: OpId)
    requires Grows(log, later)
    ensures Ancestry(log, o) <= Ancestry(later, o)
  {
    forall a | a in Ancestry(log, o) ensures a in Ancestry(later, o) {
      var walk :| Walk(log, walk) && walk[0] == o && walk[|walk| - 1] == a;
      assert Walk(later, walk);
    }
  }

  lemma UnstoredReachesNothing(log: Log, o: OpId)
    requires o !in log
    ensures Ancestry(log, o) == {}
  {
  }

  /** What the cutoff takes from an undisturbed head's history stays the same. */
  lemma CutOffUndisturbed(log: Log, later: Log, head: OpId, base: Option<OpId>)
    requires ParentsStored(log) && Grows(log, later) && Undisturbed(log, later, head, base)
    ensures Ancestry(later, head) == Ancestry(log, head)
    ensures Ancestry(later, head) * CutOff(later, base) == Ancestry(log, head) * CutOff(log, base)
  {
    AncestryStable(log, later, head);
    if base.Some? {
      if base.value in log || base.value !in later {
        AncestryStable(log, later, base.value);
      } else {
        UnstoredReachesNothing(log, base.value);
      }
    }
  }

  /** What holds over a stretch of a growing log holds over each part of it. */
  lemma UndisturbedParts(a: Log, b: Log, c: Log, head: OpId, base: Option<OpId>)
    requires ParentsStored(a) && ParentsStored(b) && Grows(a, b) && Grows(b, c) && Undisturbed(a, c, head, base)
    ensures Undisturbed(a, b, head, base) && Undisturbed(b, c, head, base)
  {
    AncestryStable(a, b, head);
    if base.Some? && base.value in b { AncestryStable(b, c, base.value); }
  }

  /** The ancestry of an indexed op, computed inside the index, is its ancestry. */
  lemma AncestryBelow(log: Log, head: OpId, o: OpId)
    requires o in Ancestry(log, head)
    ensures Ancestry(Below(log, head), o) == Ancestry(log, o)
  {
    var below := Below(log, head);
    forall a ensures a in Ancestry(below, o) <==> a in Ancestry(log, o) {
      if a in Ancestry(below, o) {
        var walk :| Walk(below, walk) && walk[0] == o && walk[|walk| - 1] == a;
        assert Walk(log, walk);
      }
      if a in Ancestry(log, o) {
        var walk :| Walk(log, walk) && walk[0] == o && walk[|walk| - 1] == a;
        WalkIsBelow(log, head, walk);
      }
    }
  }

  lemma {:induction false} WalkIsBelow(log: Log, head: OpId, walk: seq<OpId>)
    requires Walk(log, walk) && walk[0] in Ancestry(log, head)
    ensures Walk(Below(log, head), walk)
    decreases |walk|
  {
    if |walk| > 1 {
      var front := walk[..|walk| - 1];
      assert Walk(log, front);
      WalkIsBelow(log, head, front);
      ReachesParent(log, head, front[|front| - 1], walk[|walk| - 1]);
    }
  }

  // ---- the order of a page ----

  /** How an index lists a delta: `HistoryIndex::topological` over `since`. */
  type Linearizer = (Log, OpId, set<OpId>) -> seq<OpId>

  ghost predicate Distinct(ops: seq<OpId>) {
    forall i, j | 0 <= i < j < |ops| :: ops[i] != ops[j]
  }

  ghost function Elements(ops: seq<OpId>): set<OpId> {
    set i | 0 <= i < |ops| :: ops[i]
  }

  ghost predicate ParentsFirst(log: Log, ops: seq<OpId>) {
    forall i, j | 0 <= i < |ops| && 0 <= j < |ops| && ops[j] in log && ops[i] in log[ops[j]] :: i < j
  }

  ghost predicate Ranks(rank: OpId -> nat, log: Log) {
    forall o, p | o in log && p in log[o] && p in log :: rank(p) < rank(o)
  }

  ghost predicate Acyclic(log: Log) {
    exists rank: OpId -> nat :: Ranks(rank, log)
  }

  /** What the log keeps under every batch of ops (see OpBatch). */
  ghost predicate Stored(log: Log) {
    ParentsStored(log) && Acyclic(log)
  }

  /** The documented behaviour: each op of the delta once, parents before children. */
  ghost predicate Faithful(lin: Linearizer) {
    forall below: Log, head, delta | Acyclic(below) && delta <= below.Keys ::
      var ops := lin(below, head, delta);
      Distinct(ops) && Elements(ops) == delta && ParentsFirst(below, ops)
  }

  /** The canonical listing of a delta. */
  ghost function Listing(lin: Linearizer, log: Log, head: OpId, base: Option<OpId>): seq<OpId> {
    lin(Below(log, head), head, Since(log, head, base))
  }

  /** An undisturbed listing stays what it was. */
  lemma ListingStable(lin: Linearizer, log: Log, later: Log, head: OpId, base: Option<OpId>)
    requires ParentsStored(log) && Grows(log, later) && Undisturbed(log, later, head, base)
    ensures Listing(lin, later, head, base) == Listing(lin, log, head, base)
  {
    BelowStable(log, later, head);
    CutOffUndisturbed(log, later, head, base);
    hide Ancestry, Below, CutOff;
    assert Since(later, head, base) == Since(log, head, base) by { SinceByCommon(log, later, head, base); }
  }

  lemma SinceByCommon(log: Log, later: Log, head: OpId, base: Option<OpId>)
    requires Ancestry(later, head) == Ancestry(log, head)
    requires Ancestry(later, head) * CutOff(later, base) == Ancestry(log, head) * CutOff(log, base)
    ensures Since(later, head, base) == Since(log, head, base)
  {
    hide Ancestry, CutOff;
    forall o ensures o in Since(later, head, base) <==> o in Since(log, head, base) {
      if o in Ancestry(log, head) {
        assert o in CutOff(later, base) <==> o in Ancestry(later, head) * CutOff(later, base);
        assert o in CutOff(log, base) <==> o in Ancestry(log, head) * CutOff(log, base);
      }
    }
  }

  lemma AcyclicBelow(log: Log, head: OpId)
    requires Acyclic(log)
    ensures Acyclic(Below(log, head))
  {
    var rank: OpId -> nat :| Ranks(rank, log);
    assert Ranks(rank, Below(log, head));
  }

  lemma ListingIs(lin: Linearizer, log: Log, head: OpId, base: Option<OpId>)
    requires Faithful(lin) && Acyclic(log)
    ensures var ops := Listing(lin, log, head, base);
            Distinct(ops) && Elements(ops) == Since(log, head, base) && ParentsFirst(Below(log, head), ops)
  {
    AcyclicBelow(log, head);
    assert Since(log, head, base) <= Below(log, head).Keys;
  }

  // ---- such a listing exists ----

  lemma LeastFirst(log: Log, rank: OpId -> nat, delta: set<OpId>) returns (o: OpId)
    requires delta != {}
    ensures o in delta && forall p | p in delta :: rank(o) <= rank(p)
    decreases |delta|
  {
    o :| o in delta;
    var rest := delta - {o};
    if rest != {} {
      var least := LeastFirst(log, rank, rest);
      assert delta == rest + {o};
      if rank(least) < rank(o) { o := least; }
    }
  }

  ghost predicate Lists(below: Log, delta: set<OpId>, ops: seq<OpId>) {
    Distinct(ops) && Elements(ops) == delta && ParentsFirst(below, ops)
  }

  lemma {:induction false} CanList(below: Log, delta: set<OpId>) returns (ops: seq<OpId>)
    requires Acyclic(below) && delta <= below.Keys
    ensures Lists(below, delta, ops)
    decreases |delta|
  {
    if delta == {} {
      ops := [];
    } else {
      var rank: OpId -> nat :| Ranks(rank, below);
      var first := LeastFirst(below, rank, delta);
      var rest := CanList(below, delta - {first});
      ops := [first] + rest;
      ListsCons(below, rank, delta, first, rest);
    }
  }

  lemma ListsCons(below: Log, rank: OpId -> nat, delta: set<OpId>, first: OpId, rest: seq<OpId>)
    requires Ranks(rank, below) && first in delta && delta <= below.Keys
    requires forall p | p in delta :: rank(first) <= rank(p)
    requires Lists(below, delta - {first}, rest)
    ensures Lists(below, delta, [first] + rest)
  {
    var ops := [first] + rest;
    ElementsCons(first, rest);
    assert delta == {first} + (delta - {first});
    assert forall j | 0 <= j < |rest| :: rest[j] in Elements(rest);
    hide Elements;
    assert forall j | 0 <= j < |rest| :: ops[j + 1] == rest[j] && rest[j] in delta && rest[j] != first;
    FirstParentsFirst(below, rank, first, rest);
  }

  lemma FirstParentsFirst(below: Log, rank: OpId -> nat, first: OpId, rest: seq<OpId>)
    requires Ranks(rank, below) && first in below && ParentsFirst(below, rest)
    requires forall j | 0 <= j < |rest| :: rest[j] in below && rank(first) <= rank(rest[j])
    ensures ParentsFirst(below, [first] + rest)
  {
    var ops := [first] + rest;
    forall i, j | 0 <= i < |ops| && 0 <= j < |ops| && ops[j] in below && ops[i] in below[ops[j]] ensures i < j {
      assert ops[i] in below && rank(ops[i]) < rank(ops[j]) && rank(first) <= rank(ops[i]);
      if i > 0 && j > 0 {
        assert rest[i - 1] in below[rest[j - 1]];
      }
    }
  }

  lemma ElementsCons(first: OpId, rest: seq<OpId>)
    ensures Elements([first] + rest) == {first} + Elements(rest)
  {
    var ops := [first] + rest;
    forall o | o in {first} + Elements(rest) ensures o in Elements(ops) {
      if o == first {
        assert ops[0] == o;
      } else {
        var i :| 0 <= i < |rest| && rest[i] == o;
        assert ops[i + 1] == o;
      }
    }
  }

  ghost function SomeListing(below: Log, head: OpId, delta: set<OpId>): seq<OpId> {
    if ops :| Lists(below, delta, ops) then ops else []
  }

  /** The documented behaviour can be had. */
  lemma FaithfulExists()
    ensures exists lin: Linearizer :: Faithful(lin)
  {
    var lin: Linearizer := (below, head, delta) => SomeListing(below, head, delta);
    forall below: Log, head, delta | Acyclic(below) && delta <= below.Keys
      ensures Lists(below, delta, lin(below, head, delta))
    {
      var ops := CanList(below, delta);
    }
    assert Faithful(lin);
  }
}
