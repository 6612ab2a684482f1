/** A function as the escape analysis and the machine see it: what each instruction does, with the opcode looked up
    once (see Lowering), and control-flow paths over it. */
module Bodies {
  import opened Options
  import opened EscapeStep

  datatype Behaviour =
    | Produces | Discards | Copies
    | Reads(i: nat) | Moves(i: nat) | Writes(i: nat)
    | Builds(n: nat)
    | Hands(n: nat)        // n operands leave the frame, a result comes back
    | Inspects(n: nat)     // n operands are looked at and dropped, a result is pushed
    | Projects(sel: Selector)   // one operand is read, the part it selects is pushed
    | Extends              // [list, value] becomes a list that holds the value
    | Jumps(off: int) | Tests(off: int)
    | Returns | Aborts | TailHands(n: nat)

  /** Which abstract action stands for which concrete behaviour. */
  function Abstracts(b: Behaviour): Action {
    match b
    case Produces => Push
    case Discards => Discard
    case Copies => Duplicate
    case Reads(i) => Load(i)
    case Moves(i) => Load(i)
    case Writes(i) => Store(i)
    case Builds(n) => Build(n)
    case Hands(n) => Leak(n)
    case Inspects(n) => Drop(n)
    case Projects(_) => Drop(1)
    case Extends => Append
    case Jumps(off) => Goto(off)
    case Tests(off) => Branch(off)
    case Returns => Ret
    case Aborts => Stop
    case TailHands(n) => TailLeak(n)
  }

  // ---- parts of aggregates ----

  datatype Layout = Named(names: seq<nat>) | Numbered | NoParts

  datatype Selector = Field(name: nat) | Element(i: nat)

  type Code = seq<Behaviour>

  /** `layouts`: how the parts of what each instruction builds are named. */
  datatype Body = Body(arity: nat, localsCount: nat, code: Code, layouts: seq<Layout>)

  function ActionAt(f: Body, pc: nat): Action
    requires pc < |f.code|
  {
    Abstracts(f.code[pc])
  }

  function BehaviourAt(f: Body, pc: nat): Behaviour
    requires pc < |f.code|
  {
    f.code[pc]
  }

  /** The first place of a name, or the length. */
  function Position(names: seq<nat>, name: nat): (i: nat)
    ensures i <= |names| && (i < |names| ==> names[i] == name)
    ensures forall j | 0 <= j < i :: names[j] != name
  {
    if names == [] || names[0] == name then 0
    else
      assert forall j | 1 <= j < |names| :: names[j] == names[1..][j - 1];
      1 + Position(names[1..], name)
  }

  /** Which operand of the aggregate built at `site` a read selects; a missing field, an index out of range
      or a read of the wrong kind stops the original (crates/lex-bytecode/src/vm/dispatch.rs:304-515). */
  function Picked(f: Body, site: nat, sel: Selector): (r: Option<nat>)
    ensures r.Some? ==> site < |f.code| && f.code[site].Builds? && r.value < f.code[site].n
  {
    if site < |f.code| && site < |f.layouts| && f.code[site].Builds? then Select(f.layouts[site], f.code[site].n, sel) else None
  }

  function Select(layout: Layout, n: nat, sel: Selector): (r: Option<nat>)
    ensures r.Some? ==> r.value < n
  {
    match (layout, sel)
    case (Named(names), Field(name)) =>
      if Position(names, name) < |names| && Position(names, name) < n then Some(Position(names, name)) else None
    case (Numbered, Element(i)) => if i < n then Some(i) else None
    case _ => None
  }

  // ---- paths ----

  type Path = seq<nat>

  predicate InCode(code: Code, pc: int) {
    0 <= pc < |code|
  }

  predicate Edge(code: Code, pc: nat, next: nat)
    requires InCode(code, pc)
  {
    InCode(code, next) && next in StepSuccs(Abstracts(code[pc]), pc)
  }

  ghost predicate IsPath(code: Code, p: Path) {
    |p| > 0 && p[0] == 0 && (forall k | 0 <= k < |p| :: p[k] < |code|)
    && forall j, k | 0 <= j < k < |p| && k <= j + 1 :: Edge(code, p[j], p[k])
  }

  function Last(p: Path): nat
    requires |p| > 0
  {
    p[|p| - 1]
  }

  ghost predicate PathTo(code: Code, p: Path, pc: nat) {
    IsPath(code, p) && Last(p) == pc
  }

  ghost predicate Reachable(code: Code, pc: nat) {
    exists p :: PathTo(code, p, pc)
  }

  /** Stack depth on arrival at the end of `p`: the sum of the deltas of the ops run before it. */
  ghost function PathDepth(code: Code, p: Path): int
    requires IsPath(code, p)
    decreases |p|
  {
    if |p| == 1 then 0
    else
      PathPrefix(code, p);
      PathDepth(code, p[..|p| - 1]) + HeightDelta(Abstracts(code[Last(p[..|p| - 1])]))
  }

  /** All paths to one pc carry one depth: what the verifier is meant to decide. */
  ghost predicate Consistent(code: Code) {
    forall p, q | IsPath(code, p) && IsPath(code, q) && Last(p) == Last(q) ::
      PathDepth(code, p) == PathDepth(code, q)
  }

  lemma PathPrefix(code: Code, p: Path)
    requires IsPath(code, p) && |p| > 1
    ensures IsPath(code, p[..|p| - 1])
    ensures Edge(code, Last(p[..|p| - 1]), Last(p))
  {
    var q := p[..|p| - 1];
    forall k | 0 < k < |q| ensures Edge(code, q[k - 1], q[k]) {
      assert Edge(code, p[k - 1], p[k]);
    }
  }

  lemma ExtendPath(code: Code, p: Path, next: nat)
    requires IsPath(code, p) && Edge(code, Last(p), next)
    ensures IsPath(code, p + [next])
    ensures PathDepth(code, p + [next]) == PathDepth(code, p) + HeightDelta(Abstracts(code[Last(p)]))
  {
    var q := p + [next];
    forall k | 0 < k < |q| ensures Edge(code, q[k - 1], q[k]) {
      if k < |p| { assert Edge(code, p[k - 1], p[k]); }
    }
    assert q[..|q| - 1] == p;
  }
}
