/** Abstract values of the escape analysis (crates/lex-bytecode/src/escape.rs:98-218). */
module EscapeDomain {

  /** One tracked site, one of several, or anything else. */
  datatype Slot = Agg(pc: nat) | AggSet(pcs: seq<nat>) | Other

  function SiteList(s: Slot): seq<nat> {
    match s
    case Agg(p) => [p]
    case AggSet(v) => v
    case Other => []
  }

  function Sites(s: Slot): set<nat> {
    set p | p in SiteList(s)
  }

  predicate StrictlySorted(v: seq<nat>) {
    forall i, j | 0 <= i < j < |v| :: v[i] < v[j]
  }

  /** The invariant stated on `AggSet`: sorted, without duplicates, at least two sites. */
  predicate Normal(s: Slot) {
    s.AggSet? ==> |s.pcs| >= 2 && StrictlySorted(s.pcs)
  }

  function Insert(x: nat, v: seq<nat>): (r: seq<nat>)
    ensures forall y :: y in r <==> y == x || y in v
  {
    if v == [] then [x]
    else if x < v[0] then [x] + v
    else if x == v[0] then v
    else
      assert v == [v[0]] + v[1..];
      [v[0]] + Insert(x, v[1..])
  }

  lemma {:induction false} InsertSorted(x: nat, v: seq<nat>)
    requires StrictlySorted(v)
    ensures StrictlySorted(Insert(x, v))
  {
    if v != [] && x > v[0] {
      InsertSorted(x, v[1..]);
      var t := Insert(x, v[1..]);
      forall k | 0 <= k < |t| ensures v[0] < t[k] {
        assert t[k] in t;
      }
    }
  }

  /** `sort_unstable` followed by `dedup`. */
  function SortDedup(v: seq<nat>): (r: seq<nat>)
    ensures StrictlySorted(r)
    ensures forall y :: y in r <==> y in v
  {
    if v == [] then [] else
      assert v == [v[0]] + v[1..];
      InsertSorted(v[0], SortDedup(v[1..]));
      Insert(v[0], SortDedup(v[1..]))
  }

  function FromSites(v: seq<nat>): (s: Slot)
    ensures Normal(s)
    ensures Sites(s) == set p | p in v
  {
    var w := SortDedup(v);
    if |w| == 0 then Other else if |w| == 1 then Agg(w[0]) else AggSet(w)
  }

  function Merge(a: Slot, b: Slot): (m: Slot)
    ensures Normal(a) && Normal(b) ==> Normal(m)
    ensures Sites(m) == Sites(a) + Sites(b)
  {
    if a == b then a else FromSites(SiteList(a) + SiteList(b))
  }

  lemma {:induction false} SortedUnique(v: seq<nat>, w: seq<nat>)
    requires StrictlySorted(v) && StrictlySorted(w)
    requires forall y :: y in v <==> y in w
    ensures v == w
    decreases |v|
  {
    assert v != [] ==> v[0] in w;
    assert w != [] ==> w[0] in v;
    if v != [] && w != [] {
      assert v[0] in w && w[0] in v;
      assert v[0] == w[0];
      assert v == [v[0]] + v[1..] && w == [w[0]] + w[1..];
      forall y ensures y in v[1..] <==> y in w[1..] {
        if y in v[1..] { assert y in v && y != v[0]; }
        if y in w[1..] { assert y in w && y != w[0]; }
      }
      SortedUnique(v[1..], w[1..]);
    }
  }

  /** Normal slots are canonical: comparing them compares their site sets. */
  lemma Canonical(a: Slot, b: Slot)
    requires Normal(a) && Normal(b) && Sites(a) == Sites(b)
    ensures a == b
  {
    forall y ensures y in SiteList(a) <==> y in SiteList(b) {
      assert y in SiteList(a) <==> y in Sites(a);
      assert y in SiteList(b) <==> y in Sites(b);
    }
    SortedUnique(SiteList(a), SiteList(b));
    assert a.AggSet? ==> |SiteList(a)| >= 2;
    assert b.AggSet? ==> |SiteList(b)| >= 2;
  }

  // ---- abstract states ----

  datatype State = State(stack: seq<Slot>, locals: seq<Slot>)

  function Max(a: nat, b: nat): nat {
    if a < b then b else a
  }

  function Min(a: nat, b: nat): nat {
    if a < b then a else b
  }

  function Entry(localsCount: nat, arity: nat): State {
    State([], seq(Max(localsCount, arity), _ => Other))
  }

  /** `get(i)` with the default `Other`. */
  function Get(slots: seq<Slot>, i: nat): Slot {
    if i < |slots| then slots[i] else Other
  }

  function SitesOf(slots: seq<Slot>): (r: set<nat>)
    ensures forall p :: p in r <==> exists i: nat :: i < |slots| && p in Sites(Get(slots, i))
  {
    if slots == [] then {} else
      var rest := SitesOf(slots[1..]);
      assert forall i: nat | i < |slots[1..]| :: Get(slots[1..], i) == Get(slots, i + 1);
      assert forall i: nat | 0 < i < |slots| :: Get(slots, i) == Get(slots[1..], i - 1);
      assert forall p | p in Sites(slots[0]) :: p in Sites(Get(slots, 0));
      Sites(slots[0]) + rest
  }

  function MergeSlots(a: seq<Slot>, b: seq<Slot>, n: nat): seq<Slot> {
    seq(n, i requires 0 <= i => Merge(Get(a, i), Get(b, i)))
  }

  /** Join of two states, and the sites of the stack slots the shorter stack lacks. */
  function MergeWith(a: State, b: State): (State, set<nat>) {
    var depth := Min(|a.stack|, |b.stack|);
    (State(MergeSlots(a.stack, b.stack, depth),
           MergeSlots(a.locals, b.locals, Max(|a.locals|, |b.locals|))),
     SitesOf(a.stack[depth..]) + SitesOf(b.stack[depth..]))
  }

  ghost predicate NormalSlots(slots: seq<Slot>) {
    forall i | 0 <= i < |slots| :: Normal(slots[i])
  }

  ghost predicate NormalState(s: State) {
    NormalSlots(s.stack) && NormalSlots(s.locals)
  }

  ghost predicate Below(a: seq<Slot>, b: seq<Slot>) {
    forall i: nat :: Sites(Get(a, i)) <= Sites(Get(b, i))
  }

  /** `b` tracks at least the sites `a` tracks, at the same stack depth. */
  ghost predicate Leq(a: State, b: State) {
    |a.stack| == |b.stack| && Below(a.stack, b.stack) && Below(a.locals, b.locals)
  }

  lemma LeqTransitive(a: State, b: State, c: State)
    requires Leq(a, b) && Leq(b, c)
    ensures Leq(a, c)
  {
    forall i: nat
      ensures Sites(Get(a.stack, i)) <= Sites(Get(c.stack, i))
      ensures Sites(Get(a.locals, i)) <= Sites(Get(c.locals, i))
    {
      assert Sites(Get(a.stack, i)) <= Sites(Get(b.stack, i));
      assert Sites(Get(a.locals, i)) <= Sites(Get(b.locals, i));
    }
  }

  // ---- size of a state: the termination measure of the fixpoint ----

  ghost function Count(slots: seq<Slot>): nat {
    if slots == [] then 0 else |Sites(slots[0])| + Count(slots[1..])
  }

  ghost function Weight(s: State): nat {
    Count(s.stack) + Count(s.locals) + |s.locals|
  }

  lemma {:induction false} CountGrows(a: seq<Slot>, m: seq<Slot>)
    requires |a| <= |m| && Below(a, m)
    ensures Count(a) <= Count(m)
    ensures |a| == |m| && NormalSlots(a) && NormalSlots(m) && a != m ==> Count(a) < Count(m)
  {
    if a != [] {
      assert Sites(Get(a, 0)) <= Sites(Get(m, 0));
      SubsetSize(Sites(a[0]), Sites(m[0]));
      forall i: nat ensures Sites(Get(a[1..], i)) <= Sites(Get(m[1..], i)) {
        assert Sites(Get(a, i + 1)) <= Sites(Get(m, i + 1));
      }
      CountGrows(a[1..], m[1..]);
      if NormalSlots(a) && NormalSlots(m) && |a| == |m| && a != m {
        assert NormalSlots(a[1..]) && NormalSlots(m[1..]);
        if a[0] == m[0] {
          assert a == [a[0]] + a[1..] && m == [m[0]] + m[1..];
        } else if Sites(a[0]) == Sites(m[0]) {
          Canonical(a[0], m[0]);
        }
      }
    }
  }

  lemma SubsetSize(a: set<nat>, b: set<nat>)
    requires a <= b
    ensures |a| <= |b|
    ensures a != b ==> |a| < |b|
  {
    assert b == a + (b - a);
    assert |b| == |a| + |b - a|;
    if a != b {
      var x :| x in b - a;
    }
  }

  lemma {:induction false} CountBound(slots: seq<Slot>, n: nat)
    requires forall i | 0 <= i < |slots| :: forall p | p in Sites(slots[i]) :: p < n
    ensures Count(slots) <= |slots| * n
  {
    if slots != [] {
      CountBound(slots[1..], n);
      RangeSize(Sites(slots[0]), n);
      assert |slots| * n == |slots[1..]| * n + n;
    }
  }

  lemma {:induction false} RangeSize(s: set<nat>, n: nat)
    requires forall p | p in s :: p < n
    ensures |s| <= n
  {
    if n == 0 {
      assert s == {};
    } else if n - 1 in s {
      RangeSize(s - {n - 1}, n - 1);
    } else {
      RangeSize(s, n - 1);
    }
  }

  lemma MergeSlotsGrow(a: seq<Slot>, b: seq<Slot>, n: nat)
    requires NormalSlots(a) && NormalSlots(b) && |a| <= n
    ensures var m := MergeSlots(a, b, n);
            NormalSlots(m) && Below(a, m)
            && (forall i: nat :: Sites(Get(m, i)) == if i < n then Sites(Get(a, i)) + Sites(Get(b, i)) else {})
            && Count(a) <= Count(m) && (n == |a| && m != a ==> Count(a) < Count(m))
  {
    var m := MergeSlots(a, b, n);
    forall i: nat ensures Sites(Get(m, i)) == if i < n then Sites(Get(a, i)) + Sites(Get(b, i)) else {} {
      if i < n {
        assert m[i] == Merge(Get(a, i), Get(b, i));
      }
    }
    forall i | 0 <= i < n ensures Normal(m[i]) {
      assert m[i] == Merge(Get(a, i), Get(b, i));
    }
    CountGrows(a, m);
  }

  /** Joining states of one depth drops nothing, unions the site sets slot by slot, and either
      changes nothing, in which case nothing was missing, or makes the state strictly larger. */
  lemma MergeSameDepth(a: State, b: State)
    requires NormalState(a) && NormalState(b) && |a.stack| == |b.stack|
    ensures var (m, dropped) := MergeWith(a, b);
            dropped == {} && NormalState(m) && Leq(a, m) && Leq(b, m)
            && (forall i: nat :: Sites(Get(m.stack, i)) == Sites(Get(a.stack, i)) + Sites(Get(b.stack, i)))
            && (forall i: nat :: Sites(Get(m.locals, i)) == Sites(Get(a.locals, i)) + Sites(Get(b.locals, i)))
            && |m.locals| == Max(|a.locals|, |b.locals|)
            && (m != a ==> Weight(a) < Weight(m))
  {
    assert a.stack[|a.stack|..] == [] && b.stack[|a.stack|..] == [];
    MergeSlotsGrow(a.stack, b.stack, |a.stack|);
    MergeSlotsGrow(a.locals, b.locals, Max(|a.locals|, |b.locals|));
  }
}
