/** Why the escape worklist stops, on every function.

    A recorded state only ever shrinks in height, or, at one height, gains sites. Between two
    such changes an entry is processed again only when it is higher than the state recorded for
    its pc, and then what it pushes is no higher than itself, and lower across a jump. A cycle
    has a jump, so no entry can go round one forever. */
module EscapeTermination {
  import opened Options
  import opened EscapeDomain
  import opened Bodies
  import opened EscapeStep
  import opened EscapePaths

  type InStates = seq<Option<State>>
  type Work = seq<(nat, State)>

  // ---- bounds ----

  function StoreBound(code: Code): (b: nat)
    ensures forall i: nat, b0 | b0 in code && b0 == Writes(i) :: i + 1 <= b
  {
    if code == [] then 0
    else
      assert code == [code[0]] + code[1..];
      Max(if code[0].Writes? then code[0].i + 1 else 0, StoreBound(code[1..]))
  }

  function LocalsBound(f: Body): nat {
    Max(Max(f.localsCount, f.arity), StoreBound(f.code))
  }

  ghost predicate SitesBelow(slots: seq<Slot>, n: nat) {
    forall i: nat, p | p in Sites(Get(slots, i)) :: p < n
  }

  ghost predicate Bounded(f: Body, s: State) {
    NormalState(s) && |s.locals| <= LocalsBound(f)
    && SitesBelow(s.stack, |f.code|) && SitesBelow(s.locals, |f.code|)
  }

  lemma LocalsStayBounded(f: Body, pc: nat, s: State)
    requires pc < |f.code| && |s.locals| <= LocalsBound(f)
    ensures |StepOut(ActionAt(f, pc), pc, s).locals| <= LocalsBound(f)
  {
    var b := f.code[pc];
    assert b in f.code;
    assert Abstracts(b).Store? ==> b == Writes(Abstracts(b).i);
  }

  lemma StepBounded(f: Body, pc: nat, s: State)
    requires pc < |f.code| && Bounded(f, s)
    ensures Bounded(f, StepOut(ActionAt(f, pc), pc, s))
  {
    var a := ActionAt(f, pc);
    hide ActionAt, StepOut, NormalState, StackSource, LocalSource, LocalsBound, Sites, Get;
    StepNormal(a, pc, s);
    LocalsStayBounded(f, pc, s);
    var out := StepOut(a, pc, s);
    forall i: nat, p
      ensures p in Sites(Get(out.stack, i)) ==> p < |f.code|
      ensures p in Sites(Get(out.locals, i)) ==> p < |f.code|
    {
      StackFrom(a, pc, s, i);
      LocalFrom(a, pc, s, i);
    }
  }

  lemma MergeStacks(prev: seq<Slot>, incoming: seq<Slot>, n: nat)
    requires NormalSlots(prev) && NormalSlots(incoming) && SitesBelow(prev, n) && SitesBelow(incoming, n)
    ensures var m := MergeSlots(prev, incoming, Min(|prev|, |incoming|));
            NormalSlots(m) && SitesBelow(m, n)
            && (|m| == |prev| ==> Count(prev) <= Count(m) && (m != prev ==> Count(prev) < Count(m)))
  {
    var depth := Min(|prev|, |incoming|);
    var low := prev[..depth];
    assert forall i: nat | i < depth :: Get(low, i) == Get(prev, i);
    assert MergeSlots(prev, incoming, depth) == MergeSlots(low, incoming, depth);
    assert NormalSlots(low);
    assert depth == |prev| ==> low == prev;
    MergeSlotsGrow(low, incoming, depth);
  }

  lemma MergeLocals(prev: seq<Slot>, incoming: seq<Slot>, n: nat)
    requires NormalSlots(prev) && NormalSlots(incoming) && SitesBelow(prev, n) && SitesBelow(incoming, n)
    ensures var m := MergeSlots(prev, incoming, Max(|prev|, |incoming|));
            NormalSlots(m) && SitesBelow(m, n) && Count(prev) <= Count(m)
            && (|m| == |prev| && m != prev ==> Count(prev) < Count(m))
  {
    MergeSlotsGrow(prev, incoming, Max(|prev|, |incoming|));
  }

  /** Any join: the height is the lower one; at an unchanged height the state is unchanged or grew. */
  lemma MergeBounded(f: Body, prev: State, incoming: State)
    requires Bounded(f, prev) && Bounded(f, incoming)
    ensures var (m, dropped) := MergeWith(prev, incoming);
            Bounded(f, m) && |m.stack| <= |prev.stack|
            && (|m.stack| == |prev.stack| ==> m == prev || Weight(prev) < Weight(m))
            && (m == prev && dropped != {} ==> |prev.stack| < |incoming.stack|)
  {
    hide Sites, Merge, SitesBelow, NormalSlots, Get, Count;
    MergeStacks(prev.stack, incoming.stack, |f.code|);
    MergeLocals(prev.locals, incoming.locals, |f.code|);
    var depth := Min(|prev.stack|, |incoming.stack|);
    assert depth == |prev.stack| ==> prev.stack[depth..] == [];
    assert depth == |incoming.stack| ==> incoming.stack[depth..] == [];
  }

  // ---- the measure ----

  ghost function Total(xs: seq<nat>): nat {
    if xs == [] then 0 else xs[0] + Total(xs[1..])
  }

  lemma {:induction false} TotalUpdate(xs: seq<nat>, i: nat, v: nat)
    requires i < |xs|
    ensures Total(xs[i := v]) + xs[i] == Total(xs) + v
  {
    if i == 0 {
      assert xs[i := v][1..] == xs[1..];
    } else {
      TotalUpdate(xs[1..], i - 1, v);
      assert xs[i := v][1..] == xs[1..][i - 1 := v];
    }
  }

  ghost function Mark(st: Option<State>): nat {
    if st.None? then 1 else 0
  }

  ghost function Height(st: Option<State>): nat {
    if st.None? then 0 else |st.value.stack|
  }

  /** Sites the state could still gain at its height. */
  ghost function Room(f: Body, st: Option<State>): nat {
    if st.None? then 0 else
      var cap := |st.value.stack| * |f.code| + LocalsBound(f) * |f.code| + LocalsBound(f);
      if Weight(st.value) <= cap then cap - Weight(st.value) else 0
  }

  ghost function Marks(states: InStates): seq<nat> {
    seq(|states|, i requires 0 <= i < |states| => Mark(states[i]))
  }

  ghost function Heights(states: InStates): seq<nat> {
    seq(|states|, i requires 0 <= i < |states| => Height(states[i]))
  }

  ghost function Rooms(f: Body, states: InStates): seq<nat> {
    seq(|states|, i requires 0 <= i < |states| => Room(f, states[i]))
  }

  lemma WeightFits(f: Body, s: State)
    requires Bounded(f, s)
    ensures Weight(s) <= |s.stack| * |f.code| + LocalsBound(f) * |f.code| + LocalsBound(f)
  {
    forall i: nat, p
      ensures i < |s.stack| && p in Sites(s.stack[i]) ==> p < |f.code|
      ensures i < |s.locals| && p in Sites(s.locals[i]) ==> p < |f.code|
    {
      assert i < |s.stack| ==> Get(s.stack, i) == s.stack[i];
      assert i < |s.locals| ==> Get(s.locals, i) == s.locals[i];
    }
    CountBound(s.stack, |f.code|);
    CountBound(s.locals, |f.code|);
    LongerProduct(|s.locals|, LocalsBound(f), |f.code|);
  }

  lemma LongerProduct(a: nat, b: nat, n: nat)
    requires a <= b
    ensures a * n <= b * n
  {
  }

  /** The four parts of the measure after recording `m` at `pc`. */
  lemma RecordProgress(f: Body, states: InStates, pc: nat, m: State)
    requires pc < |states| && Bounded(f, m)
    requires states[pc].Some? ==> Bounded(f, states[pc].value) && |m.stack| <= |states[pc].value.stack|
    requires states[pc].Some? && |m.stack| == |states[pc].value.stack| ==>
               m == states[pc].value || Weight(states[pc].value) < Weight(m)
    ensures var next := states[pc := Some(m)];
            var same := states[pc].Some? && m == states[pc].value;
            if same then next == states
            else Total(Marks(next)) < Total(Marks(states))
                 || (Total(Marks(next)) == Total(Marks(states))
                     && (Total(Heights(next)) < Total(Heights(states))
                         || (Total(Heights(next)) == Total(Heights(states))
                             && Total(Rooms(f, next)) < Total(Rooms(f, states)))))
  {
    hide Weight, Bounded, LocalsBound;
    var next := states[pc := Some(m)];
    assert Marks(next) == Marks(states)[pc := 0];
    assert Heights(next) == Heights(states)[pc := |m.stack|];
    assert Rooms(f, next) == Rooms(f, states)[pc := Room(f, Some(m))];
    TotalUpdate(Marks(states), pc, 0);
    TotalUpdate(Heights(states), pc, |m.stack|);
    TotalUpdate(Rooms(f, states), pc, Room(f, Some(m)));
    if states[pc].Some? {
      WeightFits(f, m);
      WeightFits(f, states[pc].value);
    }
  }

  // ---- pending entries ----

  function Pow3(k: nat): nat {
    if k == 0 then 1 else 3 * Pow3(k - 1)
  }

  lemma {:induction false} Pow3Grows(j: nat, k: nat)
    requires j <= k
    ensures 1 <= Pow3(j) <= Pow3(k)
    decreases k
  {
    if j < k {
      Pow3Grows(j, k - 1);
    } else if k > 0 {
      Pow3Grows(j - 1, k - 1);
    }
  }

  /** Height first, then distance to the end of the code. */
  function Rank(n: nat, w: (nat, State)): nat {
    |w.1.stack| * (n + 1) + if w.0 <= n then n - w.0 else 0
  }

  ghost function Backlog(n: nat, work: Work): nat {
    if work == [] then 0 else Backlog(n, work[..|work| - 1]) + Pow3(Rank(n, work[|work| - 1]))
  }

  lemma {:induction false} LoadAppend(n: nat, work: Work, more: Work)
    ensures Backlog(n, work + more) == Backlog(n, work) + Backlog(n, more)
    decreases |more|
  {
    if more == [] {
      assert work + more == work;
    } else {
      var init := more[..|more| - 1];
      assert (work + more)[..|work + more| - 1] == work + init;
      LoadAppend(n, work, init);
    }
  }

  lemma HeightOut(a: Action, pc: nat, s: State)
    ensures |StepOut(a, pc, s).stack| <= |s.stack| + 1
    ensures a.Goto? || a.Branch? ==> |StepOut(a, pc, s).stack| <= |s.stack|
    ensures |StepSuccs(a, pc)| <= 2
    ensures !a.Goto? && !a.Branch? ==> forall t | t in StepSuccs(a, pc) :: t == pc + 1
  {
  }

  /** An entry higher than the recorded state is replaced by at most two entries of lower rank. */
  lemma RankDrops(a: Action, n: nat, pc: nat, s: State, incoming: State, t: nat)
    requires pc < n && t < n && |s.stack| < |incoming.stack| && t in StepSuccs(a, pc)
    ensures Rank(n, (t, StepOut(a, pc, s))) < Rank(n, (pc, incoming))
  {
    HeightOut(a, pc, s);
    var out, h := |StepOut(a, pc, s).stack|, |incoming.stack|;
    hide StepOut;
    if out < h {
      assert (out + 1) * (n + 1) <= h * (n + 1) by { LongerProduct(out + 1, h, n + 1); }
      assert (out + 1) * (n + 1) == out * (n + 1) + n + 1;
    } else {
      assert out == h && t == pc + 1;
    }
  }

  lemma Pow3Third(j: nat, k: nat)
    requires j < k
    ensures 3 * Pow3(j) <= Pow3(k)
  {
    Pow3Grows(j, k - 1);
  }

  lemma SmallLoad(n: nat, more: Work, top: nat)
    requires |more| <= 2 && forall w | w in more :: Rank(n, w) < top
    ensures Backlog(n, more) < Pow3(top)
  {
    Pow3Grows(0, top);
    hide Rank, Pow3;
    if more != [] {
      var first, last := more[0], more[|more| - 1];
      hide Backlog;
      Pow3Third(Rank(n, first), top);
      Pow3Third(Rank(n, last), top);
      SingleLoad(n, first);
      SingleLoad(n, last);
      if |more| == 1 {
        assert more == [first];
      } else {
        assert more == [first] + [last];
        LoadAppend(n, [first], [last]);
      }
    }
  }

  lemma ReprocessShrinksLoad(a: Action, n: nat, work: Work, pc: nat, s: State, incoming: State, more: Work)
    requires pc < n && |s.stack| < |incoming.stack| && |more| <= 2
    requires forall w | w in more :: w.0 < n && w.0 in StepSuccs(a, pc) && w.1 == StepOut(a, pc, s)
    ensures Backlog(n, work + more) < Backlog(n, work + [(pc, incoming)])
  {
    hide Rank, StepOut, StepSuccs, Backlog, Pow3;
    LoadAppend(n, work, more);
    LoadAppend(n, work, [(pc, incoming)]);
    SingleLoad(n, (pc, incoming));
    forall w | w in more ensures Rank(n, w) < Rank(n, (pc, incoming)) {
      RankDrops(a, n, pc, s, incoming, w.0);
    }
    SmallLoad(n, more, Rank(n, (pc, incoming)));
  }

  lemma SingleLoad(n: nat, w: (nat, State))
    ensures Backlog(n, [w]) == Pow3(Rank(n, w))
  {
    assert [w][..0] == [];
  }

  lemma SkipShrinksLoad(n: nat, work: Work, w: (nat, State))
    ensures Backlog(n, work) < Backlog(n, work + [w])
  {
    assert (work + [w])[..|work|] == work;
    Pow3Grows(0, Rank(n, w));
  }
}
