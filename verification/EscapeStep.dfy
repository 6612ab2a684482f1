/** One abstract step of the escape analysis (crates/lex-bytecode/src/escape.rs:383-702), by what a match arm of it does. */
module EscapeStep {
  import opened EscapeDomain

  /** Only `Return` consults the policy. */
  datatype Policy = FrameScope | RequestScope

  /** What one match arm of `step` does to the abstract state. */
  datatype Action =
    | Push                 // push Other
    | Discard              // pop
    | Duplicate            // pop, leak, push Other twice
    | Load(i: nat)         // push the slot of local i
    | Store(i: nat)        // pop into local i, growing the locals if needed
    | Build(n: nat)        // pop n, record them as contained, push this site
    | Leak(n: nat)         // pop n, leak them, push Other
    | Drop(n: nat)         // pop n, push Other
    | Append               // pop and leak the value, pop the list, push Other
    | Goto(off: int)
    | Branch(off: int)     // pop the condition
    | Ret                  // pop; leak under FrameScope
    | Stop
    | TailLeak(n: nat)     // pop n and leak them, no successor

  /** Number of operands on the stack. */
  function Operands(a: Action): nat {
    match a
    case Push | Load(_) | Goto(_) | Stop => 0
    case Discard | Duplicate | Store(_) | Branch(_) | Ret => 1
    case Append => 2
    case Build(n) => n
    case Leak(n) => n
    case Drop(n) => n
    case TailLeak(n) => n
  }

  /** Stack left after popping `n`; popping an empty stack is a no-op. */
  function Rest(stack: seq<Slot>, n: nat): seq<Slot> {
    stack[..|stack| - Min(n, |stack|)]
  }

  function Popped(stack: seq<Slot>, n: nat): seq<Slot> {
    stack[|stack| - Min(n, |stack|)..]
  }

  function Grow(locals: seq<Slot>, n: nat): seq<Slot> {
    if n <= |locals| then locals else locals + seq(n - |locals|, _ => Other)
  }

  function StepOut(a: Action, pc: nat, s: State): State {
    match a
    case Push => s.(stack := s.stack + [Other])
    case Discard => s.(stack := Rest(s.stack, 1))
    case Duplicate => if s.stack == [] then s else s.(stack := Rest(s.stack, 1) + [Other, Other])
    case Load(i) => s.(stack := s.stack + [Get(s.locals, i)])
    case Store(i) =>
      if s.stack == [] then s
      else State(Rest(s.stack, 1), Grow(s.locals, i + 1)[i := s.stack[|s.stack| - 1]])
    case Build(n) => s.(stack := Rest(s.stack, n) + [Agg(pc)])
    case Leak(n) => s.(stack := Rest(s.stack, n) + [Other])
    case Drop(n) => s.(stack := Rest(s.stack, n) + [Other])
    case Append => s.(stack := Rest(Rest(s.stack, 1), 1) + [Other])
    case Branch(_) => s.(stack := Rest(s.stack, 1))
    case Ret => s.(stack := Rest(s.stack, 1))
    case TailLeak(n) => s.(stack := Rest(s.stack, n))
    case Goto(_) | Stop => s
  }

  /** How many slots from the top the step marks as escaping. */
  function LeakCount(a: Action, policy: Policy): nat {
    match a
    case Duplicate | Append => 1
    case Leak(n) => n
    case TailLeak(n) => n
    case Ret => if policy.FrameScope? then 1 else 0
    case _ => 0
  }

  /** Sites the step marks as escaping. */
  function Leaked(a: Action, s: State, policy: Policy): set<nat> {
    SitesOf(Popped(s.stack, LeakCount(a, policy)))
  }

  /** Child sites the step records inside the aggregate it builds. */
  function Contained(a: Action, pc: nat, s: State): set<nat> {
    SitesOf(Popped(s.stack, if a.Build? then a.n else 0)) - {pc}
  }

  function StepSuccs(a: Action, pc: nat): seq<int> {
    match a
    case Goto(off) => [pc + 1 + off]
    case Branch(off) => [pc + 1, pc + 1 + off]
    case Ret | Stop | TailLeak(_) => []
    case _ => [pc + 1]
  }

  function HeightDelta(a: Action): int {
    match a
    case Push | Load(_) | Duplicate => 1
    case Goto(_) | Stop => 0
    case Discard | Store(_) | Branch(_) | Ret | Append => -1
    case Build(n) => 1 - n
    case Leak(n) => 1 - n
    case Drop(n) => 1 - n
    case TailLeak(n) => 0 - (n as int)
  }

  lemma StepHeight(a: Action, pc: nat, s: State)
    requires |s.stack| >= Operands(a)
    ensures |StepOut(a, pc, s).stack| == |s.stack| + HeightDelta(a)
  {
  }

  // ---- where each slot of the result comes from ----

  /** Every slot of the successor state is a copy of one slot of the state, a fresh site, or untracked. */
  datatype Source = Nothing | Fresh | FromStack(i: nat) | FromLocal(i: nat)

  function SourceSites(src: Source, pc: nat, s: State): set<nat> {
    match src
    case Nothing => {}
    case Fresh => {pc}
    case FromStack(i) => Sites(Get(s.stack, i))
    case FromLocal(i) => Sites(Get(s.locals, i))
  }

  /** How many stack slots below the operands survive. */
  function Kept(a: Action, depth: nat): nat {
    depth - Min(Operands(a), depth)
  }

  function StackSource(a: Action, depth: nat, j: nat): Source {
    if j < Kept(a, depth) then FromStack(j)
    else if j > Kept(a, depth) then Nothing
    else match a
      case Load(i) => FromLocal(i)
      case Build(_) => Fresh
      case _ => Nothing
  }

  function LocalSource(a: Action, depth: nat, j: nat): Source {
    if a.Store? && a.i == j && depth > 0 then FromStack(depth - 1) else FromLocal(j)
  }

  lemma StackFrom(a: Action, pc: nat, s: State, j: nat)
    ensures Sites(Get(StepOut(a, pc, s).stack, j)) == SourceSites(StackSource(a, |s.stack|, j), pc, s)
  {
  }

  lemma LocalFrom(a: Action, pc: nat, s: State, j: nat)
    ensures Sites(Get(StepOut(a, pc, s).locals, j)) == SourceSites(LocalSource(a, |s.stack|, j), pc, s)
  {
    if a.Store? && s.stack != [] {
      var g := Grow(s.locals, a.i + 1);
      assert Sites(Get(g, j)) == Sites(Get(s.locals, j));
    }
  }

  /** Lowest stack slot whose sites leak; the leaking slots reach up to the top. */
  function LeakFloor(a: Action, policy: Policy, depth: nat): nat {
    depth - Min(LeakCount(a, policy), depth)
  }

  function HoldFloor(a: Action, depth: nat): nat {
    depth - Min(if a.Build? then a.n else 0, depth)
  }

  lemma PoppedSites(stack: seq<Slot>, n: nat, p: nat)
    ensures p in SitesOf(Popped(stack, n)) <==>
      exists i: nat :: |stack| - Min(n, |stack|) <= i && p in Sites(Get(stack, i))
  {
    var base := |stack| - Min(n, |stack|);
    var top := Popped(stack, n);
    assert forall k: nat | k < |top| :: Get(top, k) == Get(stack, base + k);
    if p in SitesOf(top) {
      var k: nat :| k < |top| && p in Sites(Get(top, k));
      assert p in Sites(Get(stack, base + k));
    }
    if i: nat :| base <= i && p in Sites(Get(stack, i)) {
      assert Get(top, i - base) == Get(stack, i);
    }
  }

  lemma LeakedFrom(a: Action, s: State, policy: Policy, p: nat)
    ensures p in Leaked(a, s, policy) <==>
      exists i: nat :: LeakFloor(a, policy, |s.stack|) <= i && p in Sites(Get(s.stack, i))
  {
    PoppedSites(s.stack, LeakCount(a, policy), p);
  }

  lemma ContainedFrom(a: Action, pc: nat, s: State, p: nat)
    ensures p in Contained(a, pc, s) <==>
      p != pc && exists i: nat :: HoldFloor(a, |s.stack|) <= i && p in Sites(Get(s.stack, i))
  {
    PoppedSites(s.stack, if a.Build? then a.n else 0, p);
  }

  /** More tracking in, more tracking out. */
  lemma StepMonotone(a: Action, pc: nat, s: State, t: State, policy: Policy)
    requires Leq(s, t)
    ensures Leq(StepOut(a, pc, s), StepOut(a, pc, t))
    ensures Leaked(a, s, policy) <= Leaked(a, t, policy)
    ensures Contained(a, pc, s) <= Contained(a, pc, t)
  {
    forall j: nat
      ensures Sites(Get(StepOut(a, pc, s).stack, j)) <= Sites(Get(StepOut(a, pc, t).stack, j))
      ensures Sites(Get(StepOut(a, pc, s).locals, j)) <= Sites(Get(StepOut(a, pc, t).locals, j))
    {
      StackFrom(a, pc, s, j);
      StackFrom(a, pc, t, j);
      LocalFrom(a, pc, s, j);
      LocalFrom(a, pc, t, j);
    }
    forall p
      ensures p in Leaked(a, s, policy) ==> p in Leaked(a, t, policy)
      ensures p in Contained(a, pc, s) ==> p in Contained(a, pc, t)
    {
      LeakedFrom(a, s, policy, p);
      LeakedFrom(a, t, policy, p);
      ContainedFrom(a, pc, s, p);
      ContainedFrom(a, pc, t, p);
    }
  }

  lemma StepNormal(a: Action, pc: nat, s: State)
    requires NormalState(s)
    ensures NormalState(StepOut(a, pc, s))
  {
  }
}
