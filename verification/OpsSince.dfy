/** The paged op-log endpoint (crates/lex-api/src/ops_since_http.rs): caches that may lose entries at any
    time, continuations that expire, and cursors.

    The functions say what each operation does to the cache; the class runs them on its fields. */
module OpsSince {
  import opened Options
  import opened History
  import opened Cursors
  import Text

  const MAX_INDEXES := 2
  const MAX_DELTAS := 8
  const MAX_CONTINUATIONS := 256
  const CONTINUATION_TTL_SECS := 15 * 60

  /** The history index as its documentation describes it. */
  datatype Indexing = Indexing(
    build: (Log, OpId) -> Log,
    ancestry: (Log, OpId) -> set<OpId>,
    linearize: Linearizer)

  ghost predicate Documented(h: Indexing) {
    && (forall log, head :: h.build(log, head) == Below(log, head))
    && (forall log, o :: h.ancestry(log, o) == Ancestry(log, o))
    && Faithful(h.linearize)
  }

  datatype Index = Index(head: OpId, below: Log)

  datatype Delta = Delta(index: Index, base: Option<OpId>, order: seq<OpId>)

  /** A paged response for `(head, base)` ended at `end`, and its last op was `last`. */
  datatype Continuation = Continuation(head: OpId, last: OpId, base: Option<OpId>, end: nat, at: nat)

  datatype Cache = Cache(indexes: seq<Index>, deltas: seq<Delta>, continuations: seq<Continuation>)

  // ---- lists, most recent last ----

  function Find<T>(xs: seq<T>, p: T -> bool): (r: Option<nat>)
    ensures r.Some? ==> r.value < |xs| && p(xs[r.value]) && forall i | 0 <= i < r.value :: !p(xs[i])
    ensures r.None? ==> forall i | 0 <= i < |xs| :: !p(xs[i])
  {
    if xs == [] then None
    else if p(xs[0]) then Some(0)
    else
      var later := Find(xs[1..], p);
      assert forall i | 1 <= i < |xs| :: xs[i] == xs[1..][i - 1];
      if later.Some? then Some(later.value + 1) else None
  }

  function Keep<T>(xs: seq<T>, p: T -> bool): (r: seq<T>)
    ensures |r| <= |xs|
    ensures forall x | x in r :: x in xs && p(x)
    ensures forall x | x in xs && p(x) :: x in r
  {
    if xs == [] then []
    else
      assert xs == [xs[0]] + xs[1..];
      (if p(xs[0]) then [xs[0]] else []) + Keep(xs[1..], p)
  }

  lemma HasMember<T>(xs: seq<T>)
    ensures xs != [] ==> exists x :: x in xs
  {
    if xs != [] { assert xs[0] in xs; }
  }

  function Touch<T>(xs: seq<T>, i: nat): seq<T>
    requires i < |xs|
  {
    xs[..i] + xs[i + 1..] + [xs[i]]
  }

  /** The newest `cap` entries. */
  function Insert<T>(xs: seq<T>, x: T, cap: nat): seq<T> {
    var all := xs + [x];
    if |all| <= cap then all else all[|all| - cap..]
  }

  method InsertCapped<T>(xs: seq<T>, x: T, cap: nat) returns (list: seq<T>)
    ensures list == Insert(xs, x, cap)
  {
    list := xs + [x];
    while |list| > cap
      invariant |list| >= cap || list == xs + [x]
      invariant |list| <= |xs| + 1 && list == (xs + [x])[|xs| + 1 - |list|..]
    {
      list := list[1..];
    }
  }

  // ---- deltas ----

  function FindIndex(c: Cache, head: OpId): Option<nat> {
    Find(c.indexes, (x: Index) => x.head == head)
  }

  function FindDelta(c: Cache, head: OpId, base: Option<OpId>): Option<nat> {
    Find(c.deltas, (d: Delta) => d.index.head == head && d.base == base)
  }

  /** Inside the index when the cutoff is in it, and by walking the log otherwise. */
  function Excluded(h: Indexing, log: Log, index: Index, base: Option<OpId>): set<OpId> {
    if base.None? then {}
    else if base.value in index.below then h.ancestry(index.below, base.value)
    else h.ancestry(log, base.value)
  }

  function BuildDelta(h: Indexing, log: Log, index: Index, base: Option<OpId>): Delta {
    Delta(index, base, h.linearize(index.below, index.head, index.below.Keys - Excluded(h, log, index, base)))
  }

  function IndexFor(h: Indexing, log: Log, head: OpId, c: Cache): (Index, Cache) {
    var i := FindIndex(c, head);
    if i.Some? then (c.indexes[i.value], c.(indexes := Touch(c.indexes, i.value)))
    else
      var index := Index(head, h.build(log, head));
      (index, c.(indexes := Insert(c.indexes, index, MAX_INDEXES)))
  }

  function DeltaFor(h: Indexing, log: Log, head: OpId, base: Option<OpId>, c: Cache): (Delta, Cache) {
    var i := FindDelta(c, head, base);
    if i.Some? then (c.deltas[i.value], c.(deltas := Touch(c.deltas, i.value)))
    else
      var (index, c1) := IndexFor(h, log, head, c);
      var d := BuildDelta(h, log, index, base);
      (d, c1.(deltas := Insert(c1.deltas, d, MAX_DELTAS)))
  }

  // ---- continuations ----

  function Expire(cs: seq<Continuation>, now: nat): seq<Continuation> {
    var cutoff := if now < CONTINUATION_TTL_SECS then 0 else now - CONTINUATION_TTL_SECS;
    Keep(cs, (c: Continuation) => c.at >= cutoff)
  }

  predicate EndsOn(c: Continuation, head: OpId, last: OpId) {
    c.head == head && c.last == last
  }

  function Hits(cs: seq<Continuation>, head: OpId, last: OpId): seq<Continuation> {
    Keep(cs, (c: Continuation) => EndsOn(c, head, last))
  }

  function Forget(cs: seq<Continuation>, head: OpId, last: OpId): seq<Continuation> {
    Keep(cs, (c: Continuation) => !EndsOn(c, head, last))
  }

  predicate Ambiguous(hits: seq<Continuation>) {
    exists i | 0 <= i < |hits| :: hits[i].base != hits[0].base || hits[i].end != hits[0].end
  }

  /** The continuation that ends on `last`, consumed; none when two with different positions do. */
  function Take(cs: seq<Continuation>, head: OpId, last: OpId): (Option<Continuation>, seq<Continuation>) {
    var hits := Hits(cs, head, last);
    if hits == [] || Ambiguous(hits) then (None, cs) else (Some(hits[0]), Forget(cs, head, last))
  }

  predicate SamePage(c: Continuation, d: Continuation) {
    c.head == d.head && c.last == d.last && c.base == d.base && c.end == d.end
  }

  function Record(cs: seq<Continuation>, c: Continuation): seq<Continuation> {
    Insert(Keep(cs, (o: Continuation) => !SamePage(o, c)), c, MAX_CONTINUATIONS)
  }

  /** Removal in place, last hit first. */
  method RemoveHits(cs: seq<Continuation>, head: OpId, last: OpId) returns (rest: seq<Continuation>)
    ensures rest == Forget(cs, head, last)
  {
    rest := cs;
    for i := |cs| downto 0
      invariant i <= |rest| && rest[..i] == cs[..i] && rest[i..] == Forget(cs[i..], head, last)
    {
      assert cs[i..][0] == cs[i] && cs[i..][1..] == cs[i + 1..];
      assert rest[i] == cs[i] && rest[..i] == cs[..i];
      if EndsOn(rest[i], head, last) {
        rest := rest[..i] + rest[i + 1..];
      }
    }
    assert cs[0..] == cs && rest[0..] == rest;
  }

  method SameEverywhere(hits: seq<Continuation>) returns (same: bool)
    requires hits != []
    ensures same == !Ambiguous(hits)
  {
    for i := 0 to |hits|
      invariant forall j | 0 <= j < i :: hits[j].base == hits[0].base && hits[j].end == hits[0].end
    {
      if hits[i].base != hits[0].base || hits[i].end != hits[0].end {
        return false;
      }
    }
    return true;
  }

  // ---- the request ----

  datatype Request = Request(after: Option<OpId>, cursor: Option<string>, limit: Option<nat>)

  /** A slice of a listing that does not exist stops the original with a panic. */
  datatype Response =
    | Page(ops: seq<OpId>, next: Option<string>)
    | Unpaged
    | BadRequest
    | Crash

  datatype Target = Answer(response: Response) | At(position: Position)

  /** Where in which listing the request resumes (ops_since_http.rs:346-385). */
  function Resolve(c: Cache, branchHead: Option<OpId>, req: Request, now: nat): (Target, Cache) {
    if req.cursor.Some? then
      var at := DecodeCursor(req.cursor.value);
      (if at.Some? then At(at.value) else Answer(BadRequest), c)
    else if branchHead.None? then (Answer(Page([], None)), c)
    else if req.limit.None? then (Answer(Unpaged), c)
    else if req.after.None? then (At(Position(branchHead.value, None, 0)), c)
    else
      var (taken, rest) := Take(Expire(c.continuations, now), branchHead.value, req.after.value);
      (At(if taken.Some? then Position(branchHead.value, taken.value.base, taken.value.end)
          else Position(branchHead.value, req.after, 0)),
       c.(continuations := rest))
  }

  function EndOf(order: seq<OpId>, at: Position, limit: Option<nat>): nat {
    if limit.Some? && at.offset + limit.value < |order| then at.offset + limit.value else |order|
  }

  /** The slice, and what the server remembers of it (ops_since_http.rs:387-449). */
  function Respond(c: Cache, d: Delta, at: Position, req: Request, now: nat): (Response, Cache) {
    var total := |d.order|;
    var end := EndOf(d.order, at, req.limit);
    if req.cursor.Some? && (d.index.below.Keys == {} || at.offset > total) then (BadRequest, c)
    else if at.offset > end then (Crash, c)
    else
      var ops := d.order[at.offset..end];
      var c1 := if req.cursor.Some? && req.after.Some?
                then c.(continuations := Forget(Expire(c.continuations, now), at.head, req.after.value)) else c;
      var c2 := if end < total && req.cursor.None? && ops != []
                then c1.(continuations :=
                  Record(Expire(c1.continuations, now),
                         Continuation(at.head, ops[|ops| - 1], at.base, end, now)))
                else c1;
      (Page(ops, if end < total then Some(EncodeCursor(Position(at.head, at.base, end))) else None), c2)
  }

  function Handle(h: Indexing, log: Log, c: Cache, branchHead: Option<OpId>, req: Request, now: nat)
    : (Response, Cache)
  {
    var (target, c1) := Resolve(c, branchHead, req, now);
    if target.Answer? then (target.response, c1)
    else
      var (d, c2) := DeltaFor(h, log, target.position.head, target.position.base, c1);
      Respond(c2, d, target.position, req, now)
  }

  // ---- the class ----

  class Server {
    var indexes: seq<Index>
    var deltas: seq<Delta>
    var continuations: seq<Continuation>

    function Value(): Cache
      reads this
    {
      Cache(indexes, deltas, continuations)
    }

    constructor ()
      ensures Value() == Cache([], [], [])
    {
      indexes, deltas, continuations := [], [], [];
    }

    method FetchIndex(h: Indexing, log: Log, head: OpId) returns (index: Index)
      modifies this`indexes
      ensures (index, Value()) == IndexFor(h, log, head, old(Value()))
    {
      var i := FindIndex(Value(), head);
      if i.Some? {
        index := indexes[i.value];
        indexes := Touch(indexes, i.value);
      } else {
        index := Index(head, h.build(log, head));
        indexes := InsertCapped(indexes, index, MAX_INDEXES);
      }
    }

    method FetchDelta(h: Indexing, log: Log, head: OpId, base: Option<OpId>) returns (d: Delta)
      modifies this`indexes, this`deltas
      ensures (d, Value()) == DeltaFor(h, log, head, base, old(Value()))
    {
      var i := FindDelta(Value(), head, base);
      if i.Some? {
        d := deltas[i.value];
        deltas := Touch(deltas, i.value);
        return;
      }
      var index := FetchIndex(h, log, head);
      d := BuildDelta(h, log, index, base);
      deltas := InsertCapped(deltas, d, MAX_DELTAS);
    }

    method TakeContinuation(head: OpId, last: OpId, now: nat) returns (taken: Option<Continuation>)
      modifies this`continuations
      ensures (taken, continuations) == Take(Expire(old(continuations), now), head, last)
    {
      continuations := Expire(continuations, now);
      var hits := Hits(continuations, head, last);
      if hits == [] {
        return None;
      }
      var same := SameEverywhere(hits);
      if !same {
        return None;
      }
      taken := Some(hits[0]);
      continuations := RemoveHits(continuations, head, last);
    }

    method RecordContinuation(c: Continuation, now: nat)
      modifies this`continuations
      ensures continuations == Record(Expire(old(continuations), now), c)
    {
      var current := Expire(continuations, now);
      continuations := InsertCapped(Keep(current, (o: Continuation) => !SamePage(o, c)), c, MAX_CONTINUATIONS);
    }

    method Locate(branchHead: Option<OpId>, req: Request, now: nat) returns (target: Target)
      modifies this`continuations
      ensures (target, Value()) == Resolve(old(Value()), branchHead, req, now)
    {
      if req.cursor.Some? {
        var at := DecodeCursor(req.cursor.value);
        return if at.Some? then At(at.value) else Answer(BadRequest);
      }
      if branchHead.None? {
        return Answer(Page([], None));
      }
      if req.limit.None? {
        return Answer(Unpaged);
      }
      target := At(Position(branchHead.value, req.after, 0));
      if req.after.Some? {
        var taken := TakeContinuation(branchHead.value, req.after.value, now);
        if taken.Some? {
          target := At(Position(branchHead.value, taken.value.base, taken.value.end));
        }
      }
    }

    method Reply(d: Delta, at: Position, req: Request, now: nat) returns (r: Response)
      modifies this`continuations
      ensures (r, Value()) == Respond(old(Value()), d, at, req, now)
    {
      var total := |d.order|;
      if req.cursor.Some? && (d.index.below.Keys == {} || at.offset > total) {
        return BadRequest;
      }
      var end := EndOf(d.order, at, req.limit);
      if at.offset > end {
        return Crash;
      }
      var ops := [];
      for i := at.offset to end
        invariant ops == d.order[at.offset..i]
      {
        ops := ops + [d.order[i]];
      }
      if req.cursor.Some? && req.after.Some? {
        continuations := Forget(Expire(continuations, now), at.head, req.after.value);
      }
      if end < total && req.cursor.None? && ops != [] {
        RecordContinuation(Continuation(at.head, ops[|ops| - 1], at.base, end, now), now);
      }
      r := Page(ops, if end < total then Some(EncodeCursor(Position(at.head, at.base, end))) else None);
    }

    /** One request, start to end. */
    method Serve(h: Indexing, log: Log, branchHead: Option<OpId>, req: Request, now: nat) returns (r: Response)
      modifies this
      ensures (r, Value()) == Handle(h, log, old(Value()), branchHead, req, now)
    {
      var target := Locate(branchHead, req, now);
      if target.Answer? {
        return target.response;
      }
      var d := FetchDelta(h, log, target.position.head, target.position.base);
      r := Reply(d, target.position, req, now);
    }
  }
}
