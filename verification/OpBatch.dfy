/** Appending batches of ops to the log (`ops_batch_handler`, crates/lex-api/src/handlers.rs:1622-1695). */
module OpBatch {
  import opened Options
  import opened History

  datatype OpRecord = OpRecord(id: OpId, parents: seq<OpId>, payload: string)

  /** What the handler asks of the rest of the system: the canonical hash of an op, and whether a files
      op's blobs are there. */
  datatype Outside = Outside(hash: (seq<OpId>, string) -> OpId, filesPresent: OpRecord -> bool)

  datatype Response =
    | Accepted(received: nat, added: nat, skipped: nat, addedIds: seq<OpId>)
    | OpIdMismatch(id: OpId)
    | MissingParent(id: OpId, parent: OpId)
    | FilesRefused(id: OpId)
    | WriteFailed

  // ---- validation ----

  function FirstUnknown(parents: seq<OpId>, known: set<OpId>): (r: Option<OpId>)
    ensures r.Some? ==> r.value in parents && r.value !in known
    ensures r.None? ==> forall p | p in parents :: p in known
  {
    if parents == [] then None
    else if parents[0] !in known then Some(parents[0])
    else
      assert parents == [parents[0]] + parents[1..];
      FirstUnknown(parents[1..], known)
  }

  function CheckOne(out: Outside, r: OpRecord, known: set<OpId>): Option<Response> {
    if out.hash(r.parents, r.payload) != r.id then Some(OpIdMismatch(r.id))
    else
      var missing := FirstUnknown(r.parents, known);
      if missing.Some? then Some(MissingParent(r.id, missing.value))
      else if !out.filesPresent(r) then Some(FilesRefused(r.id))
      else None
  }

  /** The first record that fails, each parent being stored or earlier in the batch. */
  function Check(out: Outside, records: seq<OpRecord>, known: set<OpId>): Option<Response> {
    if records == [] then None
    else
      var bad := CheckOne(out, records[0], known);
      if bad.Some? then bad else Check(out, records[1..], known + {records[0].id})
  }

  predicate StoredOrEarlier(records: seq<OpRecord>, i: nat, known: set<OpId>, p: OpId)
    requires i <= |records|
  {
    p in known || exists j | 0 <= j < i :: records[j].id == p
  }

  /** The id is the op's hash, its parents are stored or earlier in the batch, and its files are there. */
  predicate Acceptable(out: Outside, records: seq<OpRecord>, known: set<OpId>, i: nat)
    requires i < |records|
  {
    && out.hash(records[i].parents, records[i].payload) == records[i].id
    && (forall p | p in records[i].parents :: StoredOrEarlier(records, i, known, p))
    && out.filesPresent(records[i])
  }

  ghost predicate FirstMissing(records: seq<OpRecord>, i: nat, known: set<OpId>, p: OpId)
    requires i < |records|
  {
    var parents := records[i].parents;
    exists k: nat | k < |parents| :: parents[k] == p && !StoredOrEarlier(records, i, known, parents[k])
      && forall j: nat | j < k :: StoredOrEarlier(records, i, known, parents[j])
  }

  /** The first record that fails, and why: its hash, else the first of its parents that is nowhere, else its files. */
  ghost predicate FailsAt(out: Outside, records: seq<OpRecord>, known: set<OpId>, i: nat, r: Response) {
    i < |records| && (forall j | 0 <= j < i :: Acceptable(out, records, known, j))
    && var rec := records[i];
       var hashed := out.hash(rec.parents, rec.payload) == rec.id;
       match r
       case OpIdMismatch(id) => id == rec.id && !hashed
       case MissingParent(id, p) => id == rec.id && hashed && FirstMissing(records, i, known, p)
       case FilesRefused(id) =>
         && id == rec.id && hashed && !out.filesPresent(rec)
         && forall p | p in rec.parents :: StoredOrEarlier(records, i, known, p)
       case _ => false
  }

  lemma {:induction false} FirstUnknownExact(parents: seq<OpId>, known: set<OpId>)
    ensures FirstUnknown(parents, known).None? <==> forall p | p in parents :: p in known
    ensures FirstUnknown(parents, known).Some? ==>
              exists k: nat | k < |parents| :: parents[k] == FirstUnknown(parents, known).value
                && parents[k] !in known && forall j: nat | j < k :: parents[j] in known
    decreases |parents|
  {
    if parents != [] && parents[0] in known {
      var rest := parents[1..];
      FirstUnknownExact(rest, known);
      assert parents == [parents[0]] + rest;
      if FirstUnknown(rest, known).Some? {
        var k: nat :| k < |rest| && rest[k] == FirstUnknown(rest, known).value
                      && rest[k] !in known && forall j: nat | j < k :: rest[j] in known;
        assert parents[k + 1] == rest[k];
        forall j: nat | j < k + 1 ensures parents[j] in known {
          if j > 0 { assert parents[j] == rest[j - 1]; }
        }
      }
    }
  }

  lemma EarlierShifts(records: seq<OpRecord>, i: nat, known: set<OpId>, p: OpId)
    requires i < |records|
    ensures StoredOrEarlier(records, i + 1, known, p) <==> StoredOrEarlier(records[1..], i, known + {records[0].id}, p)
  {
    if j :| 0 <= j < i + 1 && records[j].id == p {
      assert j > 0 ==> records[1..][j - 1].id == p;
    }
    if j :| 0 <= j < i && records[1..][j].id == p {
      assert records[j + 1].id == p;
    }
  }

  lemma AcceptableShifts(out: Outside, records: seq<OpRecord>, known: set<OpId>, i: nat)
    requires i + 1 < |records|
    ensures Acceptable(out, records, known, i + 1) <==> Acceptable(out, records[1..], known + {records[0].id}, i)
  {
    hide StoredOrEarlier;
    forall p | p in records[i + 1].parents
      ensures StoredOrEarlier(records, i + 1, known, p) <==> StoredOrEarlier(records[1..], i, known + {records[0].id}, p)
    {
      EarlierShifts(records, i, known, p);
    }
  }

  lemma FailsShifts(out: Outside, records: seq<OpRecord>, known: set<OpId>, i: nat, r: Response)
    requires records != [] && Acceptable(out, records, known, 0)
    requires FailsAt(out, records[1..], known + {records[0].id}, i, r)
    ensures FailsAt(out, records, known, i + 1, r)
  {
    hide StoredOrEarlier, Acceptable;
    var rest, more := records[1..], known + {records[0].id};
    forall p ensures StoredOrEarlier(records, i + 1, known, p) <==> StoredOrEarlier(rest, i, more, p) {
      EarlierShifts(records, i, known, p);
    }
    forall j | 0 <= j < i + 1 ensures Acceptable(out, records, known, j) {
      if j > 0 {
        AcceptableShifts(out, records, known, j - 1);
        assert Acceptable(out, rest, more, j - 1);
      }
    }
  }

  lemma FirstChecked(out: Outside, records: seq<OpRecord>, known: set<OpId>)
    requires records != []
    ensures var bad := CheckOne(out, records[0], known);
            && (bad.None? <==> Acceptable(out, records, known, 0))
            && (bad.Some? ==> FailsAt(out, records, known, 0, bad.value))
  {
    FirstUnknownExact(records[0].parents, known);
    assert forall p :: StoredOrEarlier(records, 0, known, p) <==> p in known;
    hide StoredOrEarlier;
    hide FirstUnknown;
  }

  /** A batch is accepted exactly when every record's id is its hash, its parents are stored or earlier in
      the batch and its files are there; a refusal is the first record's that fails. */
  lemma {:induction false} CheckExactly(out: Outside, records: seq<OpRecord>, known: set<OpId>)
    ensures Check(out, records, known).None? <==> forall i | 0 <= i < |records| :: Acceptable(out, records, known, i)
    ensures Check(out, records, known).Some? ==> exists i: nat :: FailsAt(out, records, known, i, Check(out, records, known).value)
    decreases |records|
  {
    if records != [] {
      hide Acceptable, FailsAt, CheckOne;
      FirstChecked(out, records, known);
      var rest, more := records[1..], known + {records[0].id};
      if CheckOne(out, records[0], known).None? {
        CheckExactly(out, rest, more);
        forall i | 0 <= i < |rest| ensures Acceptable(out, records, known, i + 1) <==> Acceptable(out, rest, more, i) {
          AcceptableShifts(out, records, known, i);
        }
        AllShifted(out, records, known);
        if Check(out, rest, more).Some? {
          var r := Check(out, rest, more).value;
          var i: nat :| FailsAt(out, rest, more, i, r);
          FailsShifts(out, records, known, i, r);
        }
      }
    }
  }

  lemma AllShifted(out: Outside, records: seq<OpRecord>, known: set<OpId>)
    requires records != [] && Acceptable(out, records, known, 0)
    ensures (forall i | 0 <= i < |records| :: Acceptable(out, records, known, i))
       <==> forall i | 0 <= i < |records[1..]| :: Acceptable(out, records[1..], known + {records[0].id}, i)
  {
    hide Acceptable;
    var rest, more := records[1..], known + {records[0].id};
    forall i: nat | i < |rest| ensures Acceptable(out, records, known, i + 1) <==> Acceptable(out, rest, more, i) {
      AcceptableShifts(out, records, known, i);
    }
    if forall i | 0 <= i < |rest| :: Acceptable(out, rest, more, i) {
      forall i | 0 <= i < |records| ensures Acceptable(out, records, known, i) {
        if i > 0 { assert Acceptable(out, rest, more, i - 1); }
      }
    }
  }

  // ---- storing ----

  function ParentSet(r: OpRecord): set<OpId> {
    set p | p in r.parents
  }

  /** `OpLog::put` leaves an op that is there alone. */
  function Put(log: Log, r: OpRecord): Log {
    if r.id in log then log else log[r.id := ParentSet(r)]
  }

  function PutAll(log: Log, records: seq<OpRecord>): Log
    decreases |records|
  {
    if records == [] then log else PutAll(Put(log, records[0]), records[1..])
  }

  function NewIds(log: Log, records: seq<OpRecord>): (ids: seq<OpId>)
    ensures |ids| <= |records|
    decreases |records|
  {
    if records == [] then []
    else (if records[0].id in log then [] else [records[0].id]) + NewIds(Put(log, records[0]), records[1..])
  }

  class Store {
    var log: Log

    constructor ()
      ensures log == map[]
    {
      log := map[];
    }

    /** One batch. Writes may fail from the `writable`-th on, and what was written stays. */
    method OpsBatch(out: Outside, records: seq<OpRecord>, writable: nat) returns (r: Response)
      modifies this
      ensures var bad := Check(out, records, old(log).Keys);
              if bad.Some? then r == bad.value && log == old(log)
              else if writable < |records| then r == WriteFailed && log == PutAll(old(log), records[..writable])
              else
                var ids := NewIds(old(log), records);
                r == Accepted(|records|, |ids|, |records| - |ids|, ids) && log == PutAll(old(log), records)
    {
      var batchIds: set<OpId> := {};
      assert records[0..] == records && log.Keys + batchIds == log.Keys;
      for i := 0 to |records|
        invariant log == old(log)
        invariant Check(out, records, old(log).Keys) == Check(out, records[i..], old(log).Keys + batchIds)
      {
        var rec := records[i];
        assert records[i..][0] == rec && records[i..][1..] == records[i + 1..];
        var bad := CheckOne(out, rec, log.Keys + batchIds);
        if bad.Some? {
          return bad.value;
        }
        assert old(log).Keys + batchIds + {rec.id} == old(log).Keys + (batchIds + {rec.id});
        batchIds := batchIds + {rec.id};
      }
      assert records[|records|..] == [];
      assert Check(out, records, old(log).Keys).None?;
      var addedIds: seq<OpId> := [];
      for i := 0 to |records|
        invariant i <= writable && log == PutAll(old(log), records[..i])
        invariant addedIds == NewIds(old(log), records[..i])
      {
        PutOneMore(old(log), records, i);
        if i == writable {
          return WriteFailed;
        }
        var alreadyPresent := records[i].id in log;
        log := Put(log, records[i]);
        if !alreadyPresent {
          addedIds := addedIds + [records[i].id];
        }
      }
      assert records[..|records|] == records;
      r := Accepted(|records|, |addedIds|, |records| - |addedIds|, addedIds);
    }
  }

  lemma {:induction false} PutOneMore(log: Log, records: seq<OpRecord>, i: nat)
    requires i < |records|
    ensures PutAll(log, records[..i + 1]) == Put(PutAll(log, records[..i]), records[i])
    ensures NewIds(log, records[..i + 1])
         == NewIds(log, records[..i]) + if records[i].id in PutAll(log, records[..i]) then [] else [records[i].id]
    decreases i
  {
    hide Put;
    if i == 0 {
      assert records[..1] == [records[0]] && records[..0] == [] && [records[0]][1..] == [];
    } else {
      var log1, rest := Put(log, records[0]), records[1..];
      PutOneMore(log1, rest, i - 1);
      PutFirst(log, records, i + 1);
      PutFirst(log, records, i);
      hide *;
    }
  }

  lemma PutFirst(log: Log, records: seq<OpRecord>, n: nat)
    requires 0 < n <= |records|
    ensures PutAll(log, records[..n]) == PutAll(Put(log, records[0]), records[1..][..n - 1])
    ensures NewIds(log, records[..n])
         == (if records[0].id in log then [] else [records[0].id]) + NewIds(Put(log, records[0]), records[1..][..n - 1])
  {
    hide Put;
    assert records[..n][0] == records[0] && records[..n][1..] == records[1..][..n - 1];
  }

  // ---- what every batch keeps ----

  /** A new op on stored parents keeps every parent stored and the log acyclic: it ranks above them all,
      and nothing stored can have it for a parent. */
  lemma PutKeeps(log: Log, r: OpRecord)
    requires Stored(log) && forall p | p in r.parents :: p in log
    ensures Stored(Put(log, r)) && Grows(log, Put(log, r))
  {
    if r.id !in log {
      var later := Put(log, r);
      var rank: OpId -> nat :| Ranks(rank, log);
      var top := Above(log.Keys, rank);
      var rank': OpId -> nat := o => if o == r.id then top else rank(o);
      assert Ranks(rank', later);
    }
  }

  lemma {:induction false} Above(ops: set<OpId>, rank: OpId -> nat) returns (top: nat)
    ensures forall o | o in ops :: rank(o) < top
    decreases |ops|
  {
    if ops == {} {
      top := 0;
    } else {
      var o :| o in ops;
      var rest := Above(ops - {o}, rank);
      top := if rest > rank(o) then rest else rank(o) + 1;
      assert ops == (ops - {o}) + {o};
    }
  }

  /** Any prefix of an accepted batch. */
  lemma {:induction false} PrefixKeeps(out: Outside, log: Log, known: set<OpId>, records: seq<OpRecord>, n: nat)
    requires Stored(log) && known <= log.Keys && n <= |records| && Check(out, records, known).None?
    ensures Stored(PutAll(log, records[..n])) && Grows(log, PutAll(log, records[..n]))
    decreases n
  {
    if n > 0 {
      var first, rest := records[0], records[1..];
      PutKeeps(log, first);
      PrefixKeeps(out, Put(log, first), known + {first.id}, rest, n - 1);
      assert records[..n][0] == first && records[..n][1..] == rest[..n - 1];
    }
  }

  /** What one request leaves in the log: as `Store.OpsBatch` promises. */
  ghost predicate BatchStep(out: Outside, before: Log, after: Log) {
    exists records, writable: nat ::
      if Check(out, records, before.Keys).Some? then after == before
      else after == PutAll(before, if writable < |records| then records[..writable] else records)
  }

  /** Over every sequence of batches, cut short or not, every stored op's parents are stored, no op is
      its own ancestor, and nothing stored changes. */
  lemma {:induction false} BatchesKeep(out: Outside, logs: seq<Log>)
    requires logs != [] && logs[0] == map[] && forall i, j | 0 <= i < j < |logs| && j <= i + 1 :: BatchStep(out, logs[i], logs[j])
    ensures Stored(logs[|logs| - 1])
    ensures |logs| > 1 ==> Grows(logs[|logs| - 2], logs[|logs| - 1])
    decreases |logs|
  {
    if |logs| == 1 {
      EmptyStored();
    } else {
      var front := logs[..|logs| - 1];
      BatchesKeep(out, front);
      var before, after := logs[|logs| - 2], logs[|logs| - 1];
      var records, writable: nat :|
        if Check(out, records, before.Keys).Some? then after == before
        else after == PutAll(before, if writable < |records| then records[..writable] else records);
      if Check(out, records, before.Keys).None? {
        var n := if writable < |records| then writable else |records|;
        assert records[..|records|] == records;
        PrefixKeeps(out, before, before.Keys, records, n);
      }
    }
  }

  lemma EmptyStored()
    ensures Stored(map[])
  {
    var rank: OpId -> nat := o => 0;
    assert Ranks(rank, map[]);
  }

  // ---- counting, and pushing again ----

  lemma {:induction false} NewIdsAre(log: Log, records: seq<OpRecord>)
    ensures Distinct(NewIds(log, records))
    ensures Elements(NewIds(log, records)) == PutAll(log, records).Keys - log.Keys
    ensures log.Keys <= PutAll(log, records).Keys
    ensures forall r | r in records :: r.id in PutAll(log, records)
    decreases |records|
  {
    if records != [] {
      var first, rest := records[0], records[1..];
      NewIdsAre(Put(log, first), rest);
      var tail := NewIds(Put(log, first), rest);
      assert records == [first] + rest;
      if first.id !in log {
        ElementsCons(first.id, tail);
        assert forall i | 0 <= i < |tail| :: tail[i] in Elements(tail);
      } else {
        assert [] + tail == tail;
      }
    }
  }

  /** Every op of the batch the log did not have is stored with the parents of the first record of its id. */
  lemma {:induction false} StoredAsSent(log: Log, records: seq<OpRecord>, i: nat)
    requires i < |records| && records[i].id !in log && forall j | 0 <= j < i :: records[j].id != records[i].id
    ensures records[i].id in PutAll(log, records) && PutAll(log, records)[records[i].id] == ParentSet(records[i])
    ensures forall o | o in log :: o in PutAll(log, records) && PutAll(log, records)[o] == log[o]
    decreases |records|
  {
    var later, rest := Put(log, records[0]), records[1..];
    PutAllKeeps(log, records);
    if i == 0 {
      PutAllKeeps(later, rest);
    } else {
      assert rest[i - 1] == records[i] && forall j | 0 <= j < i - 1 :: rest[j] == records[j + 1];
      StoredAsSent(later, rest, i - 1);
    }
  }

  lemma {:induction false} PutAllKeeps(log: Log, records: seq<OpRecord>)
    ensures forall o | o in log :: o in PutAll(log, records) && PutAll(log, records)[o] == log[o]
    decreases |records|
  {
    if records != [] { PutAllKeeps(Put(log, records[0]), records[1..]); }
  }

  lemma {:induction false} PutPresent(log: Log, records: seq<OpRecord>)
    requires forall r | r in records :: r.id in log
    ensures PutAll(log, records) == log && NewIds(log, records) == []
    decreases |records|
  {
    if records != [] {
      assert records == [records[0]] + records[1..];
      PutPresent(log, records[1..]);
    }
  }

  lemma {:induction false} CheckMonotone(out: Outside, records: seq<OpRecord>, known: set<OpId>, more: set<OpId>)
    requires known <= more && Check(out, records, known).None?
    ensures Check(out, records, more).None?
    decreases |records|
  {
    if records != [] { CheckMonotone(out, records[1..], known + {records[0].id}, more + {records[0].id}); }
  }

  /** Pushing an accepted batch again is accepted, adds nothing and changes nothing, duplicates included. */
  lemma RepushAddsNothing(out: Outside, log: Log, records: seq<OpRecord>)
    requires Check(out, records, log.Keys).None?
    ensures var after := PutAll(log, records);
            Check(out, records, after.Keys).None? && NewIds(after, records) == [] && PutAll(after, records) == after
  {
    NewIdsAre(log, records);
    PutPresent(PutAll(log, records), records);
    CheckMonotone(out, records, log.Keys, PutAll(log, records).Keys);
  }

  /** A push that was cut short can be repeated: it is accepted and ends where the whole push would have. */
  lemma {:induction false} RetryCompletes(out: Outside, log: Log, records: seq<OpRecord>, n: nat)
    requires n <= |records| && Check(out, records, log.Keys).None?
    ensures var partial := PutAll(log, records[..n]);
            Check(out, records, partial.Keys).None? && PutAll(partial, records) == PutAll(log, records)
  {
    var partial := PutAll(log, records[..n]);
    NewIdsAre(log, records[..n]);
    CheckMonotone(out, records, log.Keys, partial.Keys);
    PutTwice(log, records, n);
  }

  lemma {:induction false} PutSplit(log: Log, records: seq<OpRecord>, n: nat)
    requires n <= |records|
    ensures PutAll(log, records) == PutAll(PutAll(log, records[..n]), records[n..])
    decreases n
  {
    if n == 0 {
      assert records[..0] == [] && records[0..] == records;
    } else {
      assert records[..n][0] == records[0] && records[..n][1..] == records[1..][..n - 1];
      assert records[n..] == records[1..][n - 1..];
      PutSplit(Put(log, records[0]), records[1..], n - 1);
    }
  }

  lemma PutTwice(log: Log, records: seq<OpRecord>, n: nat)
    requires n <= |records|
    ensures PutAll(PutAll(log, records[..n]), records) == PutAll(log, records)
  {
    var partial := PutAll(log, records[..n]);
    NewIdsAre(log, records[..n]);
    PutSplit(log, records, n);
    PutSplit(partial, records, n);
    PutPresent(partial, records[..n]);
  }
}
