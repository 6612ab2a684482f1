/** What running a function's code does to its stack and its locals
    (crates/lex-bytecode/src/vm/dispatch.rs:66-110, 304-420, 597-615, 1194-1203, 1298-1458), over an
    arbitrary interpretation of constants, arithmetic, field reads and every other instruction. */
module Machine {
  import opened Options
  import opened Bytecode
  import opened Cfg

  datatype Value<X> = IntV(n: int) | BoolV(b: bool) | Other(x: X)

  datatype Arith = Add | Sub | Mul

  /** `world`: heap, inline caches, other frames. An error or a panic ends a run in `Failed`. */
  datatype Frame<X, W> = Frame(pc: int, stack: seq<Value<X>>, locals: seq<Value<X>>, world: W)

  datatype State<X, W> = At(s: Frame<X, W>) | Ended(op: Op, s: Frame<X, W>) | Failed

  datatype Interp<!X, !W> = Interp(
    constant: nat -> Option<Value<X>>,
    arith: (Arith, int, int) -> Option<int>,
    equal: (int, int) -> bool,
    field: (Value<X>, nat, nat, W) -> Option<(Value<X>, W)>,
    other: (Op, seq<Value<X>>, seq<Value<X>>, W) -> Option<(seq<Value<X>>, seq<Value<X>>, W)>)

  /** The indices in `ints` hold integers. */
  ghost predicate Integers<X, W>(I: Interp<X, W>, ints: set<nat>) {
    forall c | c in ints :: I.constant(c).Some? && I.constant(c).value.IntV?
  }

  // ---- operands ----

  function Local<X, W>(s: Frame<X, W>, i: nat): Option<Value<X>> {
    if i < |s.locals| then Some(s.locals[i]) else None
  }

  function Top<X, W>(s: Frame<X, W>): Option<Value<X>> {
    if s.stack == [] then None else Some(s.stack[|s.stack| - 1])
  }

  function Popped<X, W>(s: Frame<X, W>): (r: Frame<X, W>)
    ensures r.pc == s.pc
  {
    if s.stack == [] then s else s.(stack := s.stack[..|s.stack| - 1])
  }

  function IntOf<X>(v: Option<Value<X>>): Option<int> {
    if v.Some? && v.value.IntV? then Some(v.value.n) else None
  }

  function Combine<X, W>(I: Interp<X, W>, kind: Arith, a: Option<int>, b: Option<int>): Option<Value<X>> {
    if a.None? || b.None? then None else
      var r := I.arith(kind, a.value, b.value);
      if r.None? then None else Some(IntV(r.value))
  }

  // ---- effects: no value is a failure ----

  function Push<X, W>(s: Frame<X, W>, v: Option<Value<X>>, width: nat): (r: State<X, W>)
    ensures r.At? ==> r.s.pc == s.pc + width
  {
    if v.None? then Failed else At(s.(pc := s.pc + width, stack := s.stack + [v.value]))
  }

  function Store<X, W>(s: Frame<X, W>, i: nat, v: Option<Value<X>>, width: nat): (r: State<X, W>)
    ensures r.At? ==> r.s.pc == s.pc + width
  {
    if v.None? || i >= |s.locals| then Failed else At(s.(pc := s.pc + width, locals := s.locals[i := v.value]))
  }

  function Read<X, W>(I: Interp<X, W>, s: Frame<X, W>, v: Option<Value<X>>, name: nat, site: nat): Option<(Value<X>, W)> {
    if v.None? then None else I.field(v.value, name, site, s.world)
  }

  function PushRead<X, W>(s: Frame<X, W>, part: Option<(Value<X>, W)>, width: nat): (r: State<X, W>)
    ensures r.At? ==> r.s.pc == s.pc + width
  {
    if part.None? then Failed else Push(s.(world := part.value.1), Some(part.value.0), width)
  }

  /** Onwards when the two are equal, else to where the branch leads. */
  function Compare<X, W>(I: Interp<X, W>, s: Frame<X, W>, a: Option<int>, b: Option<int>, width: nat, off: int): (r: State<X, W>)
    ensures r.At? ==> r.s.pc == s.pc + width || r.s.pc == s.pc + width + off
  {
    if a.None? || b.None? then Failed
    else At(s.(pc := s.pc + width + if I.equal(a.value, b.value) then 0 else off))
  }

  function FieldCombine<X, W>(I: Interp<X, W>, s: Frame<X, W>, kind: Arith, i: nat, name: nat, site: nat): (r: State<X, W>)
    ensures r.At? ==> r.s.pc == s.pc + 3
  {
    var part := Read(I, s, Local(s, i), name, site);
    if part.None? then Failed
    else Push(Popped(s).(world := part.value.1), Combine(I, kind, IntOf(Top(s)), IntOf(Some(part.value.0))), 3)
  }

  function Binary<X, W>(I: Interp<X, W>, s: Frame<X, W>, kind: Arith): (r: State<X, W>)
    ensures r.At? ==> r.s.pc == s.pc + 1
  {
    Push(Popped(Popped(s)), Combine(I, kind, IntOf(Top(Popped(s))), IntOf(Top(s))), 1)
  }

  function Dropped<X, W>(s: Frame<X, W>): (r: State<X, W>)
    ensures r.At? ==> r.s.pc == s.pc + 1
  {
    if s.stack == [] then Failed else At(Popped(s).(pc := s.pc + 1))
  }

  function Equal<X, W>(I: Interp<X, W>, s: Frame<X, W>): (r: State<X, W>)
    ensures r.At? ==> r.s.pc == s.pc + 1
  {
    var a, b := IntOf(Top(Popped(s))), IntOf(Top(s));
    Push(Popped(Popped(s)), if a.Some? && b.Some? then Some(BoolV(I.equal(a.value, b.value))) else None, 1)
  }

  function Others<X, W>(I: Interp<X, W>, op: Op, s: Frame<X, W>): (r: State<X, W>)
    ensures r.At? ==> r.s.pc == s.pc + 1
  {
    var next := I.other(op, s.stack, s.locals, s.world);
    if next.None? then Failed else At(Frame(s.pc + 1, next.value.0, next.value.1, next.value.2))
  }

  function Exec<X, W>(I: Interp<X, W>, op: Op, s: Frame<X, W>): State<X, W> {
    if Fused(op) then ExecFused(I, op, s) else if Steers(op) then ExecSteer(op, s) else ExecPlain(I, op, s)
  }

  predicate Steers(op: Op) {
    op.Jump? || op.JumpIf? || op.JumpIfNot? || op.Return? || op.TailCall? || op.Panic?
  }

  function ExecSteer<X, W>(op: Op, s: Frame<X, W>): State<X, W>
    requires Steers(op)
  {
    match op
    case Jump(off) => At(s.(pc := s.pc + 1 + off))
    case JumpIf(off) => Decide(s, off, true)
    case JumpIfNot(off) => Decide(s, off, false)
    case Return | TailCall(_, _, _) | Panic(_) => Ended(op, s)
  }

  function ExecPlain<X, W>(I: Interp<X, W>, op: Op, s: Frame<X, W>): (r: State<X, W>)
    ensures r.At? ==> r.s.pc == s.pc + 1
  {
    match op
    case PushConst(c) => Push(s, I.constant(c), 1)
    case Pop => Dropped(s)
    case Dup => Push(s, Top(s), 1)
    case LoadLocal(i) => Push(s, Local(s, i), 1)
    case StoreLocal(i) => Store(Popped(s), i, Top(s), 1)
    case IntAdd => Binary(I, s, Add)
    case IntSub => Binary(I, s, Sub)
    case IntMul => Binary(I, s, Mul)
    case IntEq => Equal(I, s)
    case GetField(name, site) => PushRead(Popped(s), Read(I, s, Top(s), name, site), 1)
    case _ => Others(I, op, s)
  }

  function ExecFused<X, W>(I: Interp<X, W>, op: Op, s: Frame<X, W>): State<X, W>
    requires Fused(op)
  {
    match op
    case LoadLocalAddIntConst(i, c) => Push(s, Combine(I, Add, IntOf(Local(s, i)), IntOf(I.constant(c))), 3)
    case LoadLocalAddIntConstStoreLocal(src, c, dst) =>
      Store(s, dst, Combine(I, Add, IntOf(Local(s, src)), IntOf(I.constant(c))), 4)
    case LoadLocalAddLocal(i, rhs) => Push(s, Combine(I, Add, IntOf(Local(s, i)), IntOf(Local(s, rhs))), 3)
    case LoadLocalSubLocal(i, rhs) => Push(s, Combine(I, Sub, IntOf(Local(s, i)), IntOf(Local(s, rhs))), 3)
    case LoadLocalMulLocal(i, rhs) => Push(s, Combine(I, Mul, IntOf(Local(s, i)), IntOf(Local(s, rhs))), 3)
    case LoadLocalEqIntConstJumpIfNot(i, c, off) =>
      Compare(I, s, IntOf(Local(s, i)), IntOf(I.constant(c)), 4, off)
    case LoadLocalStoreEqIntConstJumpIfNot(src, dst, c, off) =>
      var a := IntOf(Local(s, src));
      if a.None? || dst >= |s.locals| then Failed
      else Compare(I, s.(locals := s.locals[dst := IntV(a.value)]), a, IntOf(I.constant(c)), 6, off)
    case LoadLocalGetField(i, name, site) => PushRead(s, Read(I, s, Local(s, i), name, site), 2)
    case LoadLocalGetFieldAdd(i, name, site) => FieldCombine(I, s, Add, i, name, site)
    case LoadLocalGetFieldSub(i, name, site) => FieldCombine(I, s, Sub, i, name, site)
    case LoadLocalGetFieldMul(i, name, site) => FieldCombine(I, s, Mul, i, name, site)
  }

  /** A conditional jump taken on `sense`. */
  function Decide<X, W>(s: Frame<X, W>, off: int, sense: bool): (r: State<X, W>)
    ensures r.At? ==> r.s.pc == s.pc + 1 || r.s.pc == s.pc + 1 + off
  {
    var v := Top(s);
    if v.None? || !v.value.BoolV? then Failed
    else At(Popped(s).(pc := s.pc + 1 + if v.value.b == sense then off else 0))
  }

  /** One instruction; a finished run stays as it is, and leaving the code is a panic. */
  function Step<X, W>(I: Interp<X, W>, code: Code, s: State<X, W>): State<X, W> {
    if !s.At? then s else if !InCode(code, s.s.pc) then Failed else Exec(I, code[s.s.pc], s.s)
  }

  function Run<X, W>(I: Interp<X, W>, code: Code, s: State<X, W>, n: nat): State<X, W>
    decreases n
  {
    if n == 0 then s else Run(I, code, Step(I, code, s), n - 1)
  }

  ghost predicate Finishes<X, W>(I: Interp<X, W>, code: Code, s: State<X, W>, r: State<X, W>) {
    !r.At? && exists n: nat :: Run(I, code, s, n) == r
  }

  /** From the entry, with any stack, locals and world, the two codes finish alike or neither finishes. */
  ghost predicate SameRuns<X(!new), W(!new)>(I: Interp<X, W>, code: Code, after: Code) {
    forall s: Frame<X, W>, r: State<X, W> | s.pc == 0 :: Finishes(I, code, At(s), r) <==> Finishes(I, after, At(s), r)
  }
}
