/** The escape analysis is sound for the concrete frame: nothing it clears ever leaves. */
module EscapeSoundness {
  import opened Options
  import opened Bodies
  import EscapeDomain
  import opened EscapeStep
  import opened EscapePaths
  import opened FrameMachine

  ghost predicate Covered(f: Body, policy: Policy, heap: seq<Obj>, sites: set<nat>, v: Val)
  {
    v.Ref? ==> v.id < |heap| && (heap[v.id].site in sites || Escapes(f, policy, heap[v.id].site))
  }

  /** The `i`-th part of an aggregate is older, and was put there along some path or escapes. */
  ghost predicate PartTraced(f: Body, policy: Policy, heap: seq<Obj>, id: nat, i: nat)
    requires id < |heap| && i < |heap[id].fields| && heap[id].fields[i].Ref?
  {
    var part := heap[id].fields[i].id;
    part < id && (MadeFrom(f, heap[id].site, i, heap[part].site) || Escapes(f, policy, heap[part].site))
  }

  ghost predicate HeapTraced(f: Body, policy: Policy, heap: seq<Obj>)
  {
    forall id: nat, i: nat | id < |heap| && i < |heap[id].fields| && heap[id].fields[i].Ref? ::
      PartTraced(f, policy, heap, id, i)
  }

  ghost predicate Gone(f: Body, policy: Policy, heap: seq<Obj>, gone: set<nat>)
  {
    forall id | id in gone :: id < |heap| && Escapes(f, policy, heap[id].site)
  }

  /** The concrete frame stays within what the path carries, or has been given up for escaping. */
  ghost predicate Simulates(f: Body, policy: Policy, p: Path, s: Frame)
  {
    && PathTo(f.code, p, s.pc)
    && |s.stack| == |PathState(f, p).stack|
    && (forall i: nat | i < |s.stack| ::
          Covered(f, policy, s.heap, EscapeDomain.Sites(EscapeDomain.Get(PathState(f, p).stack, i)), s.stack[i]))
    && (forall i: nat | i < |s.locals| ::
          Covered(f, policy, s.heap, EscapeDomain.Sites(EscapeDomain.Get(PathState(f, p).locals, i)), s.locals[i]))
    && HeapTraced(f, policy, s.heap)
    && Gone(f, policy, s.heap, s.gone)
  }

  // ---- contents of escaping aggregates escape ----

  lemma {:induction false} DeepEscapes(f: Body, policy: Policy, heap: seq<Obj>, id: nat)
    requires HeapTraced(f, policy, heap)
    requires id < |heap| && Escapes(f, policy, heap[id].site)
    ensures Gone(f, policy, heap, Deep(heap, id))
    decreases id
  {
    hide Escapes, MadeFrom;
    forall v | v in heap[id].fields && v.Ref?
      ensures v.id < id && Escapes(f, policy, heap[v.id].site)
    {
      var i :| 0 <= i < |heap[id].fields| && heap[id].fields[i] == v;
      assert PartTraced(f, policy, heap, id, i);
      if MadeFrom(f, heap[id].site, i, heap[v.id].site) {
        MadeFromHolds(f, policy, heap[id].site, i, heap[v.id].site);
      }
    }
    DeepAllEscapes(f, policy, heap, heap[id].fields, id);
  }

  lemma {:induction false} DeepAllEscapes(f: Body, policy: Policy, heap: seq<Obj>, vals: seq<Val>, bound: nat)
    requires HeapTraced(f, policy, heap)
    requires forall v | v in vals && v.Ref? && v.id < bound :: v.id < |heap| && Escapes(f, policy, heap[v.id].site)
    ensures Gone(f, policy, heap, DeepAll(heap, vals, bound))
    decreases bound, |vals|
  {
    hide Escapes, MadeFrom, HeapTraced;
    if vals != [] {
      assert vals[0] in vals;
      assert forall v | v in vals[1..] :: v in vals;
      if vals[0].Ref? && vals[0].id < bound {
        DeepEscapes(f, policy, heap, vals[0].id);
      }
      DeepAllEscapes(f, policy, heap, vals[1..], bound);
    }
  }

  lemma HandCountLeaks(b: Behaviour, policy: Policy)
    ensures HandCount(b, policy) <= LeakCount(Abstracts(b), policy)
  {
  }

  lemma TopEscapes(f: Body, policy: Policy, p: Path, s: Frame, n: nat)
    requires s.pc < |f.code| && Simulates(f, policy, p, s) && n <= |s.stack|
    requires LeakFloor(ActionAt(f, s.pc), policy, |s.stack|) <= |s.stack| - n
    ensures Gone(f, policy, s.heap, DeepAll(s.heap, Top(s.stack, n), |s.heap|))
  {
    SimulatesHeap(f, policy, p, s);
    hide Simulates, LeakFloor, ActionAt, Escapes, HeapTraced, Gone, DeepAll;
    var top := Top(s.stack, n);
    forall v | v in top && v.Ref?
      ensures v.id < |s.heap| && Escapes(f, policy, s.heap[v.id].site)
    {
      var k :| 0 <= k < |top| && top[k] == v;
      OperandEscapes(f, policy, p, s, |s.stack| - n + k);
    }
    DeepAllEscapes(f, policy, s.heap, top, |s.heap|);
  }

  lemma SimulatesPath(f: Body, policy: Policy, p: Path, s: Frame)
    requires s.pc < |f.code| && Simulates(f, policy, p, s)
    ensures IsPath(f.code, p) && Last(p) == s.pc
  {
  }

  lemma SimulatesHeap(f: Body, policy: Policy, p: Path, s: Frame)
    requires s.pc < |f.code| && Simulates(f, policy, p, s)
    ensures HeapTraced(f, policy, s.heap)
  {
  }

  /** Whatever leaves at this instruction, at any depth, was built at an escaping site. */
  lemma LeavingEscapes(f: Body, policy: Policy, p: Path, s: Frame)
    requires s.pc < |f.code| && Simulates(f, policy, p, s)
    ensures Gone(f, policy, s.heap, Leaving(BehaviourAt(f, s.pc), policy, s))
  {
    var n := HandCount(BehaviourAt(f, s.pc), policy);
    HandCountLeaks(f.code[s.pc], policy);
    hide Simulates, Escapes, DeepAll, Abstracts, LeakCount, HandCount;
    if n <= |s.stack| {
      TopEscapes(f, policy, p, s, n);
    }
  }

  lemma OperandEscapes(f: Body, policy: Policy, p: Path, s: Frame, i: nat)
    requires s.pc < |f.code| && Simulates(f, policy, p, s)
    requires LeakFloor(ActionAt(f, s.pc), policy, |s.stack|) <= i < |s.stack| && s.stack[i].Ref?
    ensures s.stack[i].id < |s.heap| && Escapes(f, policy, s.heap[s.stack[i].id].site)
  {
    hide Escapes, PathState, EscapeDomain.Sites, EscapeDomain.Get, Leaked, LeakFloor, HeapTraced, Gone;
    var v, ps := s.stack[i], PathState(f, p);
    assert Covered(f, policy, s.heap, EscapeDomain.Sites(EscapeDomain.Get(ps.stack, i)), v);
    var site := s.heap[v.id].site;
    if !Escapes(f, policy, site) {
      assert site in EscapeDomain.Sites(EscapeDomain.Get(ps.stack, i));
      LeakedFrom(ActionAt(f, s.pc), ps, policy, site);
      assert LeaksAlong(f, policy, p, site);
      LeakedEscapes(f, policy, site);
    }
  }

  // ---- one step ----

  /** Aggregates that have left, or whose sites are known to escape. */
  ghost function Lost(f: Body, policy: Policy, s: Frame): set<nat>
  {
    s.gone + set id: nat | id < |s.heap| && Escapes(f, policy, s.heap[id].site)
  }

  /** A read yields no aggregate but one of those. */
  ghost predicate SafeStep(f: Body, policy: Policy, s: Frame, t: Frame)
    requires s.pc < |f.code|
  {
    BehaviourAt(f, s.pc).Projects? && t.stack != [] ==> Loose(t.stack[|t.stack| - 1], Lost(f, policy, t))
  }

  /** What can sit in a stack slot the step wrote. */
  ghost predicate PushedBy(a: Action, s: Frame, t: Frame, lost: set<nat>, v: Val) {
    || Loose(v, lost)
    || (a.Load? && a.i < |s.locals| && v == s.locals[a.i])
    || (a.Build? && v == Ref(|s.heap|))
    || (a.Duplicate? && |s.stack| > 0 && v == s.stack[|s.stack| - 1])
  }

  ghost predicate StackShape(a: Action, s: Frame, t: Frame, lost: set<nat>) {
    && Operands(a) <= |s.stack| && |t.stack| == |s.stack| + HeightDelta(a)
    && t.pc in StepSuccs(a, s.pc)
    && (forall i: nat | i < Kept(a, |s.stack|) && i < |t.stack| :: t.stack[i] == s.stack[i])
    && (forall i: nat | Kept(a, |s.stack|) <= i < |t.stack| :: PushedBy(a, s, t, lost, t.stack[i]))
  }

  /** Shape of a concrete step, in terms of the abstract action alone. */
  ghost predicate Shape(a: Action, s: Frame, t: Frame, lost: set<nat>) {
    && StackShape(a, s, t, lost)
    && (a.Build? ==> t.heap == s.heap + [Obj(s.pc, Top(s.stack, a.n))])
    && (!a.Build? ==> t.heap == s.heap)
    && |t.locals| == |s.locals|
    && (forall i: nat | i < |s.locals| ::
          t.locals[i] == Plain
          || (if a.Store? && a.i == i then t.locals[i] == s.stack[|s.stack| - 1] else t.locals[i] == s.locals[i]))
  }

  lemma DoesStackShape(f: Body, b: Behaviour, s: Frame, t: Frame, lost: set<nat>)
    requires Executes(f, b, s, t) && t.gone <= lost
    requires b.Projects? && t.stack != [] ==> Loose(t.stack[|t.stack| - 1], lost)
    ensures StackShape(Abstracts(b), s, t, lost)
  {
    hide *;
    if b.Hands? || b.Inspects? || b.Projects? || b.Extends? {
      ResultShape(f, b, s, t, lost);
    } else if b.Jumps? || b.Tests? || b.Returns? || b.Aborts? || b.TailHands? {
      JumpShape(f, b, s, t, lost);
    } else {
      MoveShape(f, b, s, t, lost);
    }
  }

  lemma ResultShape(f: Body, b: Behaviour, s: Frame, t: Frame, lost: set<nat>)
    requires Executes(f, b, s, t) && t.gone <= lost && (b.Hands? || b.Inspects? || b.Projects? || b.Extends?)
    requires b.Projects? && t.stack != [] ==> Loose(t.stack[|t.stack| - 1], lost)
    ensures StackShape(Abstracts(b), s, t, lost)
  {
    hide PartOf;
  }

  lemma JumpShape(f: Body, b: Behaviour, s: Frame, t: Frame, lost: set<nat>)
    requires Executes(f, b, s, t) && (b.Jumps? || b.Tests? || b.Returns? || b.Aborts? || b.TailHands?)
    ensures StackShape(Abstracts(b), s, t, lost)
  {
    hide PartOf, Loose;
  }

  lemma MoveShape(f: Body, b: Behaviour, s: Frame, t: Frame, lost: set<nat>)
    requires Executes(f, b, s, t)
    requires b.Produces? || b.Discards? || b.Copies? || b.Reads? || b.Moves? || b.Writes? || b.Builds?
    ensures StackShape(Abstracts(b), s, t, lost)
  {
    hide PartOf;
  }

  lemma DoesShape(f: Body, b: Behaviour, policy: Policy, s: Frame, t: Frame, lost: set<nat>)
    requires Does(f, b, policy, s, t) && t.gone <= lost
    requires b.Projects? && t.stack != [] ==> Loose(t.stack[|t.stack| - 1], lost)
    ensures Shape(Abstracts(b), s, t, lost)
  {
    hide Executes, Allocates, Assigns, StackShape, Loose, Leaving;
    DoesStackShape(f, b, s, t, lost);
    ShapeOperands(Abstracts(b), s, t, lost);
    DoesHeap(f, b, s, t);
    DoesLocals(b, s, t);
    hide Abstracts;
    AbstractBuilds(b);
  }

  lemma DoesHas(f: Body, b: Behaviour, policy: Policy, s: Frame, t: Frame)
    requires Does(f, b, policy, s, t)
    ensures Allocates(b, s, t) && Assigns(b, s, t) && Executes(f, b, s, t)
  {
    hide Allocates, Assigns, Executes, Leaving;
  }

  lemma ShapeOperands(a: Action, s: Frame, t: Frame, lost: set<nat>)
    requires StackShape(a, s, t, lost)
    ensures Operands(a) <= |s.stack|
  {
  }

  lemma AbstractBuilds(b: Behaviour)
    ensures Abstracts(b).Build? <==> b.Builds?
    ensures b.Builds? ==> Abstracts(b).n == b.n
    ensures Abstracts(b).Store? <==> b.Writes?
    ensures b.Writes? ==> Abstracts(b).i == b.i && Operands(Abstracts(b)) == 1
  {
  }

  lemma DoesHeap(f: Body, b: Behaviour, s: Frame, t: Frame)
    requires Allocates(b, s, t) && Executes(f, b, s, t)
    ensures b.Builds? ==> b.n <= |s.stack| && t.heap == s.heap + [Obj(s.pc, Top(s.stack, b.n))]
    ensures !b.Builds? ==> t.heap == s.heap
  {
    hide PartOf, Loose;
  }

  lemma DoesLocals(b: Behaviour, s: Frame, t: Frame)
    requires Assigns(b, s, t)
    ensures |t.locals| == |s.locals|
    ensures forall i: nat | i < |s.locals| ::
              t.locals[i] == Plain
              || (if b.Writes? && b.i == i && |s.stack| > 0 then t.locals[i] == s.stack[|s.stack| - 1]
                  else t.locals[i] == s.locals[i])
  {
    hide PartOf, Loose;
  }

  lemma StepShape(f: Body, policy: Policy, s: Frame, t: Frame)
    requires s.pc < |f.code| && Step(f, policy, s, t) && SafeStep(f, policy, s, t)
    ensures Shape(ActionAt(f, s.pc), s, t, Lost(f, policy, t))
    ensures t.pc < |f.code| && t.gone == s.gone + Leaving(BehaviourAt(f, s.pc), policy, s)
  {
    DoesShape(f, BehaviourAt(f, s.pc), policy, s, t, Lost(f, policy, t));
  }

  /** A freshly built aggregate holds what the path says its operands carry. */
  lemma BuildTraced(f: Body, policy: Policy, p: Path, s: Frame, n: nat)
    requires s.pc < |f.code| && Simulates(f, policy, p, s)
    requires ActionAt(f, s.pc) == Build(n) && n <= |s.stack|
    ensures HeapTraced(f, policy, s.heap + [Obj(s.pc, Top(s.stack, n))])
  {
    hide Escapes, PathState, EscapeDomain.Sites, EscapeDomain.Get, Gone, MadeFrom;
    var top, ps := Top(s.stack, n), PathState(f, p);
    var heap := s.heap + [Obj(s.pc, top)];
    forall k: nat | k < n && top[k].Ref? ensures PartTraced(f, policy, heap, |s.heap|, k) {
      var i, v := |s.stack| - n + k, top[k];
      assert Covered(f, policy, s.heap, EscapeDomain.Sites(EscapeDomain.Get(ps.stack, i)), s.stack[i]);
      var site := s.heap[v.id].site;
      if !Escapes(f, policy, site) {
        assert site in EscapeDomain.Sites(EscapeDomain.Get(ps.stack, i));
        MadeFromBy(f, p, s.pc, k, site);
      }
    }
    forall id: nat, i: nat | id < |heap| && i < |heap[id].fields| && heap[id].fields[i].Ref?
      ensures PartTraced(f, policy, heap, id, i)
    {
      if id < |s.heap| {
        assert PartTraced(f, policy, s.heap, id, i);
      }
    }
  }

  lemma MadeFromBy(f: Body, p: Path, parent: nat, i: nat, child: nat)
    requires BuiltFrom(f, p, parent, i, child)
    ensures MadeFrom(f, parent, i, child)
  {
  }

  /** A value covered by the sites of the slot it came from is covered in the grown heap. */
  lemma CopyCovered(f: Body, policy: Policy, s: Frame, t: Frame, before: set<nat>, after: set<nat>, v: Val)
    requires Covered(f, policy, s.heap, before, v) && before == after
    requires |s.heap| <= |t.heap| && t.heap[..|s.heap|] == s.heap
    ensures Covered(f, policy, t.heap, after, v)
  {
    hide Escapes;
    assert v.Ref? ==> t.heap[..|s.heap|][v.id] == t.heap[v.id];
  }

  lemma HeapAfter(a: Action, s: Frame, t: Frame, lost: set<nat>)
    requires Shape(a, s, t, lost)
    ensures a.Build? ==> a.n <= |s.stack| && t.heap == s.heap + [Obj(s.pc, Top(s.stack, a.n))]
    ensures !a.Build? ==> t.heap == s.heap
  {
  }

  lemma HeapPrefix(a: Action, s: Frame, t: Frame, lost: set<nat>)
    requires Shape(a, s, t, lost)
    ensures |s.heap| <= |t.heap| && t.heap[..|s.heap|] == s.heap
    ensures a.Build? ==> |s.heap| < |t.heap| && t.heap[|s.heap|].site == s.pc
  {
  }

  lemma StackSlot(f: Body, policy: Policy, p: Path, s: Frame, i: nat)
    requires s.pc < |f.code| && Simulates(f, policy, p, s)
    ensures i < |s.stack| ==>
      Covered(f, policy, s.heap, EscapeDomain.Sites(EscapeDomain.Get(PathState(f, p).stack, i)), s.stack[i])
    ensures i < |s.locals| ==>
      Covered(f, policy, s.heap, EscapeDomain.Sites(EscapeDomain.Get(PathState(f, p).locals, i)), s.locals[i])
    ensures |s.stack| == |PathState(f, p).stack|
  {
  }

  lemma KeptSlot(a: Action, s: Frame, t: Frame, lost: set<nat>, i: nat)
    requires Shape(a, s, t, lost) && i < |t.stack|
    ensures if i < Kept(a, |s.stack|) then i < |s.stack| && t.stack[i] == s.stack[i]
            else PushedBy(a, s, t, lost, t.stack[i])
    ensures (a.Load? || a.Build?) && !(i < Kept(a, |s.stack|)) ==> i == Kept(a, |s.stack|)
  {
  }

  lemma SlotSource(a: Action, pc: nat, ps: EscapeDomain.State, i: nat)
    ensures var after := EscapeDomain.Sites(EscapeDomain.Get(StepOut(a, pc, ps).stack, i));
            && (i < Kept(a, |ps.stack|) ==> after == EscapeDomain.Sites(EscapeDomain.Get(ps.stack, i)))
            && (i == Kept(a, |ps.stack|) && a.Load? ==> after == EscapeDomain.Sites(EscapeDomain.Get(ps.locals, a.i)))
            && (i == Kept(a, |ps.stack|) && a.Build? ==> after == {pc})
  {
    hide StepOut, EscapeDomain.Sites, EscapeDomain.Get, Kept;
    StackFrom(a, pc, ps, i);
  }

  lemma LostCovered(f: Body, policy: Policy, t: Frame, sites: set<nat>, v: Val)
    requires Gone(f, policy, t.heap, t.gone) && Loose(v, Lost(f, policy, t))
    ensures Covered(f, policy, t.heap, sites, v)
  {
    hide Escapes;
  }

  lemma StackCovered(f: Body, policy: Policy, p: Path, s: Frame, t: Frame, i: nat)
    requires s.pc < |f.code| && Simulates(f, policy, p, s)
    requires Shape(ActionAt(f, s.pc), s, t, Lost(f, policy, t)) && i < |t.stack|
    requires Gone(f, policy, t.heap, t.gone)
    ensures Covered(f, policy, t.heap,
              EscapeDomain.Sites(EscapeDomain.Get(StepOut(ActionAt(f, s.pc), s.pc, PathState(f, p)).stack, i)), t.stack[i])
  {
    hide *;
    SimulatesPath(f, policy, p, s);
    var a, ps, lost := ActionAt(f, s.pc), PathState(f, p), Lost(f, policy, t);
    SlotSource(a, s.pc, ps, i);
    HeapPrefix(a, s, t, lost);
    StackSlot(f, policy, p, s, i);
    var after := EscapeDomain.Sites(EscapeDomain.Get(StepOut(a, s.pc, ps).stack, i));
    if i < Kept(a, |s.stack|) {
      KeptSlot(a, s, t, lost, i);
      CopyCovered(f, policy, s, t, EscapeDomain.Sites(EscapeDomain.Get(ps.stack, i)), after, t.stack[i]);
    } else {
      PushedSlot(a, s, t, lost, i);
      if Loose(t.stack[i], lost) {
        LostCovered(f, policy, t, after, t.stack[i]);
      } else if a.Load? {
        StackSlot(f, policy, p, s, a.i);
        CopyCovered(f, policy, s, t, EscapeDomain.Sites(EscapeDomain.Get(ps.locals, a.i)), after, t.stack[i]);
      } else if a.Duplicate? {
        CopyLeaks(policy, |s.stack|);
        OperandEscapes(f, policy, p, s, |s.stack| - 1);
        EscapingCovered(f, policy, s, after, t.stack[i]);
        CopyCovered(f, policy, s, t, after, after, t.stack[i]);
      } else {
        FreshCovered(f, policy, t, |s.heap|, s.pc);
      }
    }
  }

  lemma EscapingCovered(f: Body, policy: Policy, s: Frame, sites: set<nat>, v: Val)
    requires (v.Ref? ==> v.id < |s.heap| && Escapes(f, policy, s.heap[v.id].site))
    ensures Covered(f, policy, s.heap, sites, v)
  {
    hide Escapes;
  }

  lemma FreshCovered(f: Body, policy: Policy, t: Frame, id: nat, pc: nat)
    requires id < |t.heap| && t.heap[id].site == pc
    ensures Covered(f, policy, t.heap, {pc}, Ref(id))
  {
    hide Escapes;
  }

  lemma CopyLeaks(policy: Policy, depth: nat)
    ensures depth > 0 ==> LeakFloor(Duplicate, policy, depth) <= depth - 1
  {
  }

  lemma PushedSlot(a: Action, s: Frame, t: Frame, lost: set<nat>, i: nat)
    requires Shape(a, s, t, lost) && i < |t.stack| && !(i < Kept(a, |s.stack|))
    ensures || Loose(t.stack[i], lost)
            || (a.Load? && i == Kept(a, |s.stack|) && a.i < |s.locals| && t.stack[i] == s.locals[a.i])
            || (a.Build? && i == Kept(a, |s.stack|) && t.stack[i] == Ref(|s.heap|))
            || (a.Duplicate? && |s.stack| > 0 && t.stack[i] == s.stack[|s.stack| - 1])
    ensures t.stack[i].Plain? ==> Loose(t.stack[i], lost)
  {
    KeptSlot(a, s, t, lost, i);
    hide Shape, Kept;
  }

  lemma LocalShape(a: Action, s: Frame, t: Frame, lost: set<nat>, i: nat)
    requires Shape(a, s, t, lost) && i < |t.locals|
    ensures i < |s.locals|
    ensures t.locals[i] == Plain
            || (if a.Store? && a.i == i then |s.stack| > 0 && t.locals[i] == s.stack[|s.stack| - 1]
                else t.locals[i] == s.locals[i])
  {
  }

  lemma LocalCovered(f: Body, policy: Policy, p: Path, s: Frame, t: Frame, i: nat)
    requires s.pc < |f.code| && Simulates(f, policy, p, s)
    requires Shape(ActionAt(f, s.pc), s, t, Lost(f, policy, t)) && i < |t.locals|
    ensures Covered(f, policy, t.heap,
              EscapeDomain.Sites(EscapeDomain.Get(StepOut(ActionAt(f, s.pc), s.pc, PathState(f, p)).locals, i)), t.locals[i])
  {
    hide *;
    SimulatesPath(f, policy, p, s);
    var a, ps := ActionAt(f, s.pc), PathState(f, p);
    LocalSlot(a, s.pc, ps, i);
    HeapPrefix(a, s, t, Lost(f, policy, t));
    LocalShape(a, s, t, Lost(f, policy, t), i);
    StackSlot(f, policy, p, s, i);
    var after := EscapeDomain.Sites(EscapeDomain.Get(StepOut(a, s.pc, ps).locals, i));
    if t.locals[i] == Plain {
      EscapingCovered(f, policy, t, after, Plain);
    } else if a.Store? && a.i == i {
      StackSlot(f, policy, p, s, |s.stack| - 1);
      CopyCovered(f, policy, s, t, EscapeDomain.Sites(EscapeDomain.Get(ps.stack, |s.stack| - 1)), after, t.locals[i]);
    } else {
      CopyCovered(f, policy, s, t, EscapeDomain.Sites(EscapeDomain.Get(ps.locals, i)), after, t.locals[i]);
    }
  }

  lemma LocalSlot(a: Action, pc: nat, ps: EscapeDomain.State, i: nat)
    ensures var after := EscapeDomain.Sites(EscapeDomain.Get(StepOut(a, pc, ps).locals, i));
            if a.Store? && a.i == i && |ps.stack| > 0 then after == EscapeDomain.Sites(EscapeDomain.Get(ps.stack, |ps.stack| - 1))
            else after == EscapeDomain.Sites(EscapeDomain.Get(ps.locals, i))
  {
    hide StepOut, EscapeDomain.Sites, EscapeDomain.Get;
    LocalFrom(a, pc, ps, i);
  }

  lemma GoneGrows(f: Body, policy: Policy, p: Path, s: Frame, t: Frame)
    requires s.pc < |f.code| && Simulates(f, policy, p, s)
    requires Shape(ActionAt(f, s.pc), s, t, Lost(f, policy, t))
    requires t.gone == s.gone + Leaving(BehaviourAt(f, s.pc), policy, s)
    ensures Gone(f, policy, t.heap, t.gone)
  {
    LeavingEscapes(f, policy, p, s);
    hide Escapes, PathState, HeapTraced, Abstracts, Leaving, Covered;
  }

  lemma HeapStaysTraced(f: Body, policy: Policy, p: Path, s: Frame, t: Frame)
    requires s.pc < |f.code| && Simulates(f, policy, p, s)
    requires Shape(ActionAt(f, s.pc), s, t, Lost(f, policy, t))
    ensures HeapTraced(f, policy, t.heap)
  {
    var a := ActionAt(f, s.pc);
    HeapAfter(a, s, t, Lost(f, policy, t));
    SimulatesHeap(f, policy, p, s);
    hide HeapTraced, Simulates, Shape, Lost, Abstracts;
    if a.Build? {
      BuildTraced(f, policy, p, s, a.n);
    }
  }

  lemma StepSimulates(f: Body, policy: Policy, p: Path, s: Frame, t: Frame)
    requires s.pc < |f.code| && Simulates(f, policy, p, s)
    requires Step(f, policy, s, t) && SafeStep(f, policy, s, t)
    ensures Simulates(f, policy, p + [t.pc], t)
  {
    var a, ps := ActionAt(f, s.pc), PathState(f, p);
    StepShape(f, policy, s, t);
    hide Step, SafeStep, Lost, Escapes, PathState, StepOut, Abstracts, Covered, HeapTraced, Gone, EscapeDomain.Sites, EscapeDomain.Get, Leaving;
    PathStateExtends(f, p, t.pc);
    GoneGrows(f, policy, p, s, t);
    HeapStaysTraced(f, policy, p, s, t);
    StepHeight(a, s.pc, ps);
    forall i: nat | i < |t.stack|
      ensures Covered(f, policy, t.heap, EscapeDomain.Sites(EscapeDomain.Get(PathState(f, p + [t.pc]).stack, i)), t.stack[i])
    {
      StackCovered(f, policy, p, s, t, i);
    }
    forall i: nat | i < |t.locals|
      ensures Covered(f, policy, t.heap, EscapeDomain.Sites(EscapeDomain.Get(PathState(f, p + [t.pc]).locals, i)), t.locals[i])
    {
      LocalCovered(f, policy, p, s, t, i);
    }
  }

  // ---- whole runs ----

  lemma StartSimulates(f: Body, policy: Policy, s: Frame)
    requires f.code != [] && Start(f, s)
    ensures Simulates(f, policy, [0], s)
  {
    assert forall i | 0 <= i < |s.locals| :: s.locals[i] in s.locals;
  }

  /** Every read of the run is such a step. */
  ghost predicate SafeReads(f: Body, policy: Policy, run: seq<Frame>)
    requires forall k | 0 <= k < |run| :: run[k].pc < |f.code|
  {
    forall j, k | 0 <= j < k < |run| && k <= j + 1 :: SafeStep(f, policy, run[j], run[k])
  }

  lemma {:induction false} RunSimulates(f: Body, policy: Policy, run: seq<Frame>) returns (p: Path)
    requires IsRun(f, policy, run) && SafeReads(f, policy, run)
    ensures Simulates(f, policy, p, run[|run| - 1])
    decreases |run|
  {
    hide Simulates, Step, SafeStep, Escapes, PathState, Abstracts;
    var n := |run| - 1;
    if n == 0 {
      StartSimulates(f, policy, run[0]);
      p := [0];
    } else {
      var before := run[..n];
      PrefixRun(f, policy, run);
      var q := RunSimulates(f, policy, before);
      assert SafeStep(f, policy, run[n - 1], run[n]);
      StepSimulates(f, policy, q, run[n - 1], run[n]);
      p := q + [run[n].pc];
    }
  }

  lemma PrefixRun(f: Body, policy: Policy, run: seq<Frame>)
    requires IsRun(f, policy, run) && |run| > 1
    ensures IsRun(f, policy, run[..|run| - 1]) && Step(f, policy, run[|run| - 2], run[|run| - 1])
    ensures SafeReads(f, policy, run) ==> SafeReads(f, policy, run[..|run| - 1])
  {
    hide Does, SafeStep;
    var before := run[..|run| - 1];
    forall k | 0 < k < |before| ensures Step(f, policy, before[k - 1], before[k]) {
      assert Step(f, policy, run[k - 1], run[k]);
    }
    if SafeReads(f, policy, run) {
      forall k | 0 < k < |before| ensures SafeStep(f, policy, before[k - 1], before[k]) {
        assert SafeStep(f, policy, run[k - 1], run[k]);
      }
    }
    assert Step(f, policy, run[|run| - 2], run[|run| - 1]);
  }

  lemma FlatIsSafe(f: Body, policy: Policy, run: seq<Frame>)
    requires IsRun(f, policy, run) && FlatReads(f, run)
    ensures SafeReads(f, policy, run)
  {
    hide Step, Escapes;
  }

  /** In a run of safe reads every aggregate that an instruction hands over, and every aggregate at any
      depth inside it, was built at a site that escapes; so was every aggregate handed over earlier. */
  lemma SafeRunSound(f: Body, policy: Policy, run: seq<Frame>)
    requires IsRun(f, policy, run) && SafeReads(f, policy, run)
    ensures var s := run[|run| - 1];
            forall id | id in s.gone + Leaving(BehaviourAt(f, s.pc), policy, s) ::
              id < |s.heap| && Escapes(f, policy, s.heap[id].site)
  {
    var p := RunSimulates(f, policy, run);
    LeavingEscapes(f, policy, p, run[|run| - 1]);
  }

  // ---- functions that peel nothing ----

  /** What a read takes out of a tracked aggregate escapes anyway. */
  lemma PartEscapes(f: Body, policy: Policy, p: Path, s: Frame, id: nat, i: nat)
    requires s.pc + 1 < |f.code| && Simulates(f, policy, p, s) && !Peels(f, policy)
    requires f.code[s.pc].Projects? && s.stack != [] && s.stack[|s.stack| - 1] == Ref(id) && id < |s.heap|
    requires Picked(f, s.heap[id].site, f.code[s.pc].sel) == Some(i)
    requires i < |s.heap[id].fields| && s.heap[id].fields[i].Ref?
    ensures var part := s.heap[id].fields[i].id; part < |s.heap| && Escapes(f, policy, s.heap[part].site)
  {
    hide Escapes, MadeFrom, PathState, EscapeDomain.Sites, EscapeDomain.Get, Gone, Picked;
    var top, ps := |s.stack| - 1, PathState(f, p);
    assert Covered(f, policy, s.heap, EscapeDomain.Sites(EscapeDomain.Get(ps.stack, top)), s.stack[top]);
    assert PartTraced(f, policy, s.heap, id, i);
    var parent, child := s.heap[id].site, s.heap[s.heap[id].fields[i].id].site;
    if MadeFrom(f, parent, i, child) {
      MadeFromHolds(f, policy, parent, i, child);
      if !Escapes(f, policy, parent) {
        assert ReadsAlong(f, p, parent, i);
        PeelsBy(f, policy, p, parent, i, child);
      }
    }
  }

  lemma PeelsBy(f: Body, policy: Policy, p: Path, parent: nat, i: nat, child: nat)
    requires ReadsAlong(f, p, parent, i) && MadeFrom(f, parent, i, child)
    ensures Escapes(f, policy, child) || Peels(f, policy)
  {
    hide Escapes, MadeFrom, ReadsAlong;
  }

  lemma ReadSafe(f: Body, policy: Policy, p: Path, s: Frame, t: Frame)
    requires s.pc < |f.code| && Simulates(f, policy, p, s) && Step(f, policy, s, t) && !Peels(f, policy)
    ensures SafeStep(f, policy, s, t)
  {
    hide *;
    if BehaviourAt(f, s.pc).Projects? {
      ReadStep(f, policy, s, t);
      var v, r := s.stack[|s.stack| - 1], t.stack[|t.stack| - 1];
      if v.Ref? && v.id < |s.heap| && r.Ref? {
        PartEscapes(f, policy, p, s, v.id, Picked(f, s.heap[v.id].site, f.code[s.pc].sel).value);
      }
    }
    MakeSafe(f, policy, s, t);
  }

  /** What a read does. */
  lemma ReadStep(f: Body, policy: Policy, s: Frame, t: Frame)
    requires s.pc < |f.code| && Step(f, policy, s, t) && BehaviourAt(f, s.pc).Projects?
    ensures f.code[s.pc].Projects? && s.pc + 1 < |f.code| && s.stack != []
    ensures t.heap == s.heap && t.gone == s.gone && |t.stack| == |s.stack|
    ensures var v, r := s.stack[|s.stack| - 1], t.stack[|t.stack| - 1];
            if v.Ref? && v.id < |s.heap| then
              var i := Picked(f, s.heap[v.id].site, f.code[s.pc].sel);
              i.Some? && i.value < |s.heap[v.id].fields| && r == s.heap[v.id].fields[i.value]
            else r.Ref? ==> r.id in t.gone
  {
    NothingHanded(BehaviourAt(f, s.pc), policy, s);
    hide Leaving, Picked;
  }

  lemma NothingHanded(b: Behaviour, policy: Policy, s: Frame)
    requires HandCount(b, policy) == 0
    ensures Leaving(b, policy, s) == {}
  {
    assert Top(s.stack, 0) == [];
  }

  lemma MakeSafe(f: Body, policy: Policy, s: Frame, t: Frame)
    requires s.pc < |f.code|
    requires BehaviourAt(f, s.pc).Projects? ==>
               t.stack != [] && var r := t.stack[|t.stack| - 1];
               r.Ref? ==> r.id in t.gone || (r.id < |t.heap| && Escapes(f, policy, t.heap[r.id].site))
    ensures SafeStep(f, policy, s, t)
  {
    hide Escapes;
  }

  /** Where nothing is peeled every read of every run is safe. */
  lemma {:induction false} UnpeeledSafe(f: Body, policy: Policy, run: seq<Frame>)
    requires IsRun(f, policy, run) && !Peels(f, policy)
    ensures SafeReads(f, policy, run)
    decreases |run|
  {
    hide Simulates, Step, SafeStep, Escapes, PathState, Peels, Abstracts;
    var n := |run| - 1;
    if n > 0 {
      var before := run[..n];
      PrefixRun(f, policy, run);
      UnpeeledSafe(f, policy, before);
      var p := RunSimulates(f, policy, before);
      ReadSafe(f, policy, p, run[n - 1], run[n]);
      forall k | 0 < k < |run| ensures SafeStep(f, policy, run[k - 1], run[k]) {
        if k < n { assert SafeStep(f, policy, before[k - 1], before[k]); }
      }
    }
  }

  /** Soundness: in a function that peels nothing, whatever the run, every aggregate handed over, and
      every aggregate at any depth inside it, was built at a site that escapes. */
  lemma EscapeSound(f: Body, policy: Policy, run: seq<Frame>)
    requires !Peels(f, policy) && IsRun(f, policy, run)
    ensures var s := run[|run| - 1];
            forall id | id in s.gone + Leaving(BehaviourAt(f, s.pc), policy, s) ::
              id < |s.heap| && Escapes(f, policy, s.heap[id].site)
  {
    hide *;
    UnpeeledSafe(f, policy, run);
    SafeRunSound(f, policy, run);
  }
}
