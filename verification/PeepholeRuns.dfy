/** Fused code runs as the code it came from: a superinstruction does to stack, locals and pc what its
    window did (crates/lex-bytecode/src/op.rs:211-387, crates/lex-bytecode/src/vm/dispatch.rs:1298-1458). */
module PeepholeRuns {
  import opened Options
  import opened Bytecode
  import opened Cfg
  import opened Windows
  import opened Machine

  // ---- runs ----

  lemma {:induction false} RunDone<X, W>(I: Interp<X, W>, code: Code, s: State<X, W>, n: nat)
    requires !s.At?
    ensures Run(I, code, s, n) == s
    decreases n
  {
    if n > 0 { RunDone(I, code, s, n - 1); }
  }

  lemma {:induction false} RunSplit<X, W>(I: Interp<X, W>, code: Code, s: State<X, W>, m: nat, n: nat)
    ensures Run(I, code, s, m + n) == Run(I, code, Run(I, code, s, m), n)
    decreases m
  {
    hide Step;
    if m > 0 { RunSplit(I, code, Step(I, code, s), m - 1, n); }
  }

  lemma RunFew<X, W>(I: Interp<X, W>, code: Code, s: State<X, W>)
    ensures var s1 := Step(I, code, s);
            var s2 := Step(I, code, s1);
            var s3 := Step(I, code, s2);
            && Run(I, code, s, 1) == s1 && Run(I, code, s, 2) == s2 && Run(I, code, s, 3) == s3
            && Run(I, code, s, 4) == Step(I, code, s3)
  {
    hide Step;
    var s1 := Step(I, code, s);
    var s2 := Step(I, code, s1);
    assert Run(I, code, s2, 2) == Run(I, code, Step(I, code, s2), 1);
    assert Run(I, code, s1, 3) == Run(I, code, s2, 2);
    assert Run(I, code, s1, 2) == Run(I, code, s2, 1);
  }

  // ---- a matched window and the op put there ----

  /** Instructions the machine runs from the head of a matched window to its end. */
  function Live(slice: Slice): nat {
    match slice
    case AddConst | AddLocals | SubMulLocals | StoreEqBranch | FieldArith => 3
    case EqConstBranch => 4
    case AddConstStore | FieldRead => 2
  }

  /** What a load or a constant pushes. */
  function Loaded<X, W>(I: Interp<X, W>, op: Op, f: Frame<X, W>): Option<Value<X>> {
    match op
    case LoadLocal(i) => Local(f, i)
    case PushConst(c) => I.constant(c)
    case _ => None
  }

  function ArithOp(kind: Arith): Op {
    match kind
    case Add => IntAdd
    case Sub => IntSub
    case Mul => IntMul
  }

  /** One instruction at the pc of a frame. */
  function StepAt<X, W>(I: Interp<X, W>, op: Op, s: State<X, W>): State<X, W> {
    if s.At? then Exec(I, op, s.s) else s
  }

  lemma StepsAt<X, W>(I: Interp<X, W>, code: Code, f: Frame<X, W>, op: Op)
    requires InCode(code, f.pc) && code[f.pc] == op
    ensures Step(I, code, At(f)) == StepAt(I, op, At(f))
  {
  }

  /** A value pushed and popped again. */
  lemma PushPop<X, W>(f: Frame<X, W>, v: Value<X>)
    ensures var g := f.(pc := f.pc + 1, stack := f.stack + [v]);
            Push(f, Some(v), 1) == At(g) && Top(g) == Some(v) && Popped(g) == f.(pc := f.pc + 1)
  {
  }

  lemma LoadStep<X, W>(I: Interp<X, W>, op: Op, f: Frame<X, W>)
    requires op.LoadLocal? || op.PushConst?
    ensures StepAt(I, op, At(f)) == Push(f, Loaded(I, op, f), 1)
  {
  }

  /** Two operands loaded, and an operator applied to them. */
  lemma OperandsLoaded<X, W>(I: Interp<X, W>, first: Op, second: Op, f: Frame<X, W>)
    requires (first.LoadLocal? || first.PushConst?) && (second.LoadLocal? || second.PushConst?)
    ensures var a, b := Loaded(I, first, f), Loaded(I, second, f);
            var s := StepAt(I, second, StepAt(I, first, At(f)));
            && (s.At? <==> a.Some? && b.Some?) && (s.At? || s.Failed?)
            && (s.At? ==> s.s.pc == f.pc + 2 && Top(s.s) == b && Top(Popped(s.s)) == a
                          && Popped(Popped(s.s)) == f.(pc := f.pc + 2))
  {
    hide Exec, Top, Popped, Push, StepAt;
    LoadStep(I, first, f);
    PushNone<X, W>(f);
    var a := Loaded(I, first, f);
    if a.Some? {
      PushPop(f, a.value);
      var g := f.(pc := f.pc + 1, stack := f.stack + [a.value]);
      LoadStep(I, second, g);
      PushNone<X, W>(g);
      assert Loaded(I, second, g) == Loaded(I, second, f);
      var b := Loaded(I, second, g);
      if b.Some? {
        PushPop(g, b.value);
        PoppedOn(g, 1);
      }
    } else {
      StepDone(I, second);
    }
  }

  lemma PushNone<X, W>(f: Frame<X, W>)
    ensures Push(f, None, 1) == Failed
  {
  }

  lemma StepDone<X, W>(I: Interp<X, W>, op: Op)
    ensures forall s: State<X, W> | !s.At? :: StepAt(I, op, s) == s
  {
  }

  lemma PoppedOn<X, W>(f: Frame<X, W>, n: nat)
    ensures Popped(f.(pc := f.pc + n)) == Popped(f).(pc := f.pc + n) && Top(f.(pc := f.pc + n)) == Top(f)
  {
  }

  lemma ArithStep<X, W>(I: Interp<X, W>, kind: Arith, f: Frame<X, W>)
    ensures StepAt(I, ArithOp(kind), At(f)) == Binary(I, f, kind)
  {
    hide ExecFused, Binary;
  }

  lemma CombineNone<X, W>(I: Interp<X, W>, kind: Arith, a: Option<int>, b: Option<int>)
    ensures a.None? || b.None? ==> Combine<X, W>(I, kind, a, b) == None
    ensures IntOf<X>(None) == None
  {
  }

  lemma PushWider<X, W>(f: Frame<X, W>, v: Option<Value<X>>, m: nat, n: nat)
    ensures Push(f.(pc := f.pc + m), v, n) == Push(f, v, m + n)
    ensures v.None? ==> Push(f, v, n) == Failed
  {
  }

  lemma ArithWindow<X, W>(I: Interp<X, W>, first: Op, second: Op, kind: Arith, f: Frame<X, W>)
    requires (first.LoadLocal? || first.PushConst?) && (second.LoadLocal? || second.PushConst?)
    ensures StepAt(I, ArithOp(kind), StepAt(I, second, StepAt(I, first, At(f)))) ==
            Push(f, Combine(I, kind, IntOf(Loaded(I, first, f)), IntOf(Loaded(I, second, f))), 3)
  {
    hide StepAt, Loaded, Push, Combine, Top, Popped, IntOf;
    OperandsLoaded(I, first, second, f);
    var s := StepAt(I, second, StepAt(I, first, At(f)));
    var a, b := IntOf(Loaded(I, first, f)), IntOf(Loaded(I, second, f));
    CombineNone(I, kind, a, b);
    PushWider(f, Combine(I, kind, a, b), 2, 1);
    PushWider(f, Combine(I, kind, a, b), 0, 3);
    if s.At? {
      ArithStep(I, kind, s.s);
    } else {
      StepDone(I, ArithOp(kind));
    }
  }

  lemma StoreStep<X, W>(I: Interp<X, W>, dst: nat, f: Frame<X, W>)
    ensures StepAt(I, StoreLocal(dst), At(f)) == Store(Popped(f), dst, Top(f), 1)
  {
  }

  lemma StoreWindow<X, W>(I: Interp<X, W>, i: nat, c: nat, dst: nat, f: Frame<X, W>)
    ensures StepAt(I, StoreLocal(dst), StepAt(I, LoadLocalAddIntConst(i, c), At(f))) ==
            Exec(I, LoadLocalAddIntConstStoreLocal(i, c, dst), f)
  {
    hide Combine, IntOf, ExecPlain;
    var v := Combine(I, Add, IntOf(Local(f, i)), IntOf(I.constant(c)));
    assert StepAt(I, LoadLocalAddIntConst(i, c), At(f)) == Push(f, v, 3);
    if v.Some? {
      var g := f.(pc := f.pc + 3, stack := f.stack + [v.value]);
      StoreStep(I, dst, g);
      assert Popped(g).stack == f.stack;
    }
  }

  lemma CompareWindow<X, W>(I: Interp<X, W>, i: nat, c: nat, off: int, f: Frame<X, W>)
    requires I.constant(c).Some? && I.constant(c).value.IntV?
    ensures StepAt(I, JumpIfNot(off), StepAt(I, IntEq, StepAt(I, PushConst(c), StepAt(I, LoadLocal(i), At(f))))) ==
            Compare(I, f, IntOf(Local(f, i)), IntOf(I.constant(c)), 4, off)
  {
    hide StepAt, Top, Popped;
    var s := StepAt(I, PushConst(c), StepAt(I, LoadLocal(i), At(f)));
    OperandsLoaded(I, LoadLocal(i), PushConst(c), f);
    var a, b := IntOf(Local(f, i)), IntOf(I.constant(c));
    StepDone(I, IntEq);
    StepDone(I, JumpIfNot(off));
    if s.At? {
      EqStep(I, s.s, a, b, off);
    }
  }

  lemma EqStep<X, W>(I: Interp<X, W>, f: Frame<X, W>, a: Option<int>, b: Option<int>, off: int)
    requires IntOf(Top(Popped(f))) == a && IntOf(Top(f)) == b
    ensures StepAt(I, JumpIfNot(off), StepAt(I, IntEq, At(f))) == Compare(I, Popped(Popped(f)).(pc := f.pc), a, b, 2, off)
  {
    hide ExecPlain, Exec, ExecFused;
    var g := Popped(Popped(f));
    IntEqStep(I, f, a, b);
    hide IntOf;
    if a.Some? && b.Some? {
      var v := BoolV(I.equal(a.value, b.value));
      BranchStep(I, g.(pc := f.pc + 1, stack := g.stack + [v]), off);
    }
  }

  lemma IntEqStep<X, W>(I: Interp<X, W>, f: Frame<X, W>, a: Option<int>, b: Option<int>)
    requires IntOf(Top(Popped(f))) == a && IntOf(Top(f)) == b
    ensures StepAt(I, IntEq, At(f)) ==
            Push(Popped(Popped(f)), if a.Some? && b.Some? then Some(BoolV(I.equal(a.value, b.value))) else None, 1)
  {
  }

  lemma BranchStep<X, W>(I: Interp<X, W>, f: Frame<X, W>, off: int)
    ensures StepAt(I, JumpIfNot(off), At(f)) == Decide(f, off, false)
  {
  }

  lemma StoreCompareWindow<X, W>(I: Interp<X, W>, src: nat, dst: nat, c: nat, off: int, f: Frame<X, W>)
    ensures StepAt(I, LoadLocalEqIntConstJumpIfNot(dst, c, off), StepAt(I, StoreLocal(dst), StepAt(I, LoadLocal(src), At(f)))) ==
            Exec(I, LoadLocalStoreEqIntConstJumpIfNot(src, dst, c, off), f)
  {
    hide ExecPlain;
    LoadStep(I, LoadLocal(src), f);
    var v := Local(f, src);
    if v.Some? {
      PushPop(f, v.value);
      var h := f.(pc := f.pc + 1, stack := f.stack + [v.value]);
      StoreStep(I, dst, h);
      if dst < |f.locals| {
        assert Local(f.(pc := f.pc + 2, locals := f.locals[dst := v.value]), dst) == v;
      }
    }
  }

  lemma ReadWindow<X, W>(I: Interp<X, W>, i: nat, name: nat, site: nat, f: Frame<X, W>)
    ensures StepAt(I, GetField(name, site), StepAt(I, LoadLocal(i), At(f))) ==
            PushRead(f, Read(I, f, Local(f, i), name, site), 2)
  {
    var v := Local(f, i);
    if v.Some? {
      PushPop(f, v.value);
    }
  }

  lemma FieldArithWindow<X, W>(I: Interp<X, W>, i: nat, name: nat, site: nat, kind: Arith, f: Frame<X, W>)
    ensures StepAt(I, ArithOp(kind), StepAt(I, GetField(name, site), StepAt(I, LoadLocal(i), At(f)))) ==
            FieldCombine(I, f, kind, i, name, site)
  {
    hide StepAt, Combine, IntOf;
    ReadWindow(I, i, name, site, f);
    var r := Read(I, f, Local(f, i), name, site);
    if r.Some? {
      var g := f.(pc := f.pc + 2, stack := f.stack + [r.value.0], world := r.value.1);
      assert PushRead(f, r, 2) == At(g);
      ArithStep(I, kind, g);
      PoppedPushed(f, g, r.value.0);
    } else {
      StepDone(I, ArithOp(kind));
    }
  }

  lemma PoppedPushed<X, W>(f: Frame<X, W>, g: Frame<X, W>, v: Value<X>)
    requires g == f.(pc := f.pc + 2, stack := f.stack + [v], world := g.world)
    ensures Top(g) == Some(v) && Top(Popped(g)) == Top(f)
    ensures Popped(Popped(g)) == Popped(f).(pc := f.pc + 2, world := g.world)
  {
    assert Popped(g).stack == f.stack;
  }

  // ---- the window in the code ----

  /** Instructions that go on to a fixed slot, and how far that is. */
  function Advance(op: Op): nat {
    match op
    case LoadLocal(_) | PushConst(_) | StoreLocal(_) | GetField(_, _) | IntEq => 1
    case LoadLocalAddIntConst(_, _) => 3
    case _ => 0
  }

  lemma Advances<X, W>(I: Interp<X, W>, op: Op, f: Frame<X, W>)
    requires Advance(op) > 0 && f.pc >= 0
    ensures StepAt(I, op, At(f)).At? ==> StepAt(I, op, At(f)).s.pc == f.pc + Advance(op)
  {
    hide Exec;
    if StepAt(I, op, At(f)).At? {
      if op.LoadLocalAddIntConst? {
        FusedLands(I, op, f);
      } else {
        PlainLands(I, op, f);
      }
    }
  }

  lemma StepOn<X, W>(I: Interp<X, W>, code: Code, s: State<X, W>, op: Op)
    requires s.At? ==> InCode(code, s.s.pc) && code[s.s.pc] == op
    ensures Step(I, code, s) == StepAt(I, op, s)
  {
  }

  lemma Two<X, W>(I: Interp<X, W>, code: Code, f: Frame<X, W>, first: Op, second: Op)
    requires 0 <= f.pc && f.pc + Advance(first) < |code| && Advance(first) > 0
    requires code[f.pc] == first && code[f.pc + Advance(first)] == second
    ensures Run(I, code, At(f), 2) == StepAt(I, second, StepAt(I, first, At(f)))
  {
    hide Step, StepAt, Advance;
    RunFew(I, code, At(f));
    StepDone(I, second);
    Advances(I, first, f);
    StepOn(I, code, At(f), first);
    StepOn(I, code, StepAt(I, first, At(f)), second);
  }

  lemma Three<X, W>(I: Interp<X, W>, code: Code, f: Frame<X, W>, first: Op, second: Op, third: Op)
    requires 0 <= f.pc && f.pc + 2 < |code| && Advance(first) == Advance(second) == 1
    requires code[f.pc] == first && code[f.pc + 1] == second && code[f.pc + 2] == third
    ensures Run(I, code, At(f), 3) == StepAt(I, third, StepAt(I, second, StepAt(I, first, At(f))))
  {
    hide Step, StepAt, Advance;
    RunFew(I, code, At(f));
    Two(I, code, f, first, second);
    StepDone(I, second);
    StepDone(I, third);
    Advances(I, first, f);
    var s := StepAt(I, first, At(f));
    if s.At? { Advances(I, second, s.s); }
    StepOn(I, code, StepAt(I, second, s), third);
  }

  lemma Four<X, W>(I: Interp<X, W>, code: Code, f: Frame<X, W>, first: Op, second: Op, third: Op, fourth: Op)
    requires 0 <= f.pc && f.pc + 3 < |code| && Advance(first) == Advance(second) == Advance(third) == 1
    requires code[f.pc] == first && code[f.pc + 1] == second && code[f.pc + 2] == third && code[f.pc + 3] == fourth
    ensures Run(I, code, At(f), 4) == StepAt(I, fourth, StepAt(I, third, StepAt(I, second, StepAt(I, first, At(f)))))
  {
    hide Step, StepAt, Advance;
    RunFew(I, code, At(f));
    Three(I, code, f, first, second, third);
    StepDone(I, second);
    StepDone(I, third);
    StepDone(I, fourth);
    Advances(I, first, f);
    var s := StepAt(I, first, At(f));
    if s.At? { Advances(I, second, s.s); }
    var t := StepAt(I, second, s);
    if t.At? { Advances(I, third, t.s); }
    StepOn(I, code, StepAt(I, third, t), fourth);
  }

  /** What each superinstruction does, in the terms of its parts. */
  lemma FusedStep<X, W>(I: Interp<X, W>, i: nat, n: nat, site: nat, off: int, f: Frame<X, W>)
    ensures Exec(I, LoadLocalAddIntConst(i, n), f) == Push(f, Combine(I, Add, IntOf(Local(f, i)), IntOf(I.constant(n))), 3)
    ensures Exec(I, LoadLocalAddLocal(i, n), f) == Push(f, Combine(I, Add, IntOf(Local(f, i)), IntOf(Local(f, n))), 3)
    ensures Exec(I, LoadLocalSubLocal(i, n), f) == Push(f, Combine(I, Sub, IntOf(Local(f, i)), IntOf(Local(f, n))), 3)
    ensures Exec(I, LoadLocalMulLocal(i, n), f) == Push(f, Combine(I, Mul, IntOf(Local(f, i)), IntOf(Local(f, n))), 3)
    ensures Exec(I, LoadLocalEqIntConstJumpIfNot(i, n, off), f) ==
            Compare(I, f, IntOf(Local(f, i)), IntOf(I.constant(n)), 4, off)
    ensures Exec(I, LoadLocalGetField(i, n, site), f) == PushRead(f, Read(I, f, Local(f, i), n, site), 2)
    ensures Exec(I, LoadLocalGetFieldAdd(i, n, site), f) == FieldCombine(I, f, Add, i, n, site)
    ensures Exec(I, LoadLocalGetFieldSub(i, n, site), f) == FieldCombine(I, f, Sub, i, n, site)
    ensures Exec(I, LoadLocalGetFieldMul(i, n, site), f) == FieldCombine(I, f, Mul, i, n, site)
  {
    hide Push, Combine, IntOf, Compare, PushRead, Read, FieldCombine;
  }

  /** From the head of a matched window the machine comes to just the state the superinstruction puts it in. */
  lemma WindowRuns<X, W>(I: Interp<X, W>, slice: Slice, code: Code, k: nat, ints: set<nat>, f: Frame<X, W>)
    requires WellFused(code) && k + Width(slice) <= |code| && Match(slice, code, k, ints).Some?
    requires Integers(I, ints) && f.pc == k
    ensures Run(I, code, At(f), Live(slice)) == Exec(I, Match(slice, code, k, ints).value, f)
  {
    hide WellFused, Run, Exec, StepAt, Push, Combine, IntOf, Compare, PushRead, Read, FieldCombine;
    var a := code[k];
    match slice {
      case AddConst =>
        Three(I, code, f, a, code[k + 1], IntAdd);
        ArithWindow(I, a, code[k + 1], Add, f);
        FusedStep(I, a.i, code[k + 1].c, 0, 0, f);
      case AddConstStore =>
        Two(I, code, f, a, code[k + 3]);
        StoreWindow(I, a.i, a.c, code[k + 3].i, f);
      case AddLocals | SubMulLocals =>
        var kind := KindOf(code[k + 2]);
        Three(I, code, f, a, code[k + 1], ArithOp(kind));
        ArithWindow(I, a, code[k + 1], kind, f);
        FusedStep(I, a.i, code[k + 1].i, 0, 0, f);
      case EqConstBranch =>
        var c := code[k + 1].c;
        Four(I, code, f, a, PushConst(c), IntEq, code[k + 3]);
        CompareWindow(I, a.i, c, code[k + 3].off, f);
        FusedStep(I, a.i, c, 0, code[k + 3].off, f);
      case StoreEqBranch =>
        Three(I, code, f, a, code[k + 1], code[k + 2]);
        StoreCompareWindow(I, a.i, code[k + 1].i, code[k + 2].c, code[k + 2].off, f);
      case FieldArith =>
        var kind := KindOf(code[k + 2]);
        var g := code[k + 1];
        Three(I, code, f, a, g, ArithOp(kind));
        FieldArithWindow(I, a.i, g.name, g.site, kind, f);
        FusedStep(I, a.i, g.name, g.site, 0, f);
      case FieldRead =>
        var g := code[k + 1];
        Two(I, code, f, a, g);
        ReadWindow(I, a.i, g.name, g.site, f);
        FusedStep(I, a.i, g.name, g.site, 0, f);
    }
  }

  function KindOf(op: Op): Arith {
    match op
    case IntSub => Sub
    case IntMul => Mul
    case _ => Add
  }

  // ---- where control goes ----

  /** Slots the machine passes over, the head included. */
  function Reach(op: Op): nat {
    match op
    case LoadLocalAddIntConst(_, _) | LoadLocalAddLocal(_, _) | LoadLocalSubLocal(_, _) | LoadLocalMulLocal(_, _) => 3
    case LoadLocalGetFieldAdd(_, _, _) | LoadLocalGetFieldSub(_, _, _) | LoadLocalGetFieldMul(_, _, _) => 3
    case LoadLocalGetField(_, _, _) => 2
    case LoadLocalAddIntConstStoreLocal(_, _, _) | LoadLocalEqIntConstJumpIfNot(_, _, _) => 4
    case LoadLocalStoreEqIntConstJumpIfNot(_, _, _, _) => 6
    case _ => 1
  }

  predicate Branches(op: Op) {
    op.LoadLocalEqIntConstJumpIfNot? || op.LoadLocalStoreEqIntConstJumpIfNot?
  }

  lemma FusedLands<X, W>(I: Interp<X, W>, op: Op, f: Frame<X, W>)
    requires Fused(op) && Exec(I, op, f).At?
    ensures var t := Exec(I, op, f).s.pc;
            t == f.pc + Reach(op) || (Branches(op) && t == f.pc + Reach(op) + op.off)
  {
    hide Combine, IntOf, Read, ExecPlain, Push, Store, PushRead, Compare, FieldCombine, Local;
  }

  lemma PlainLands<X, W>(I: Interp<X, W>, op: Op, f: Frame<X, W>)
    requires !Fused(op) && Exec(I, op, f).At? && f.pc >= 0
    ensures var t := Exec(I, op, f).s.pc;
            t == f.pc + 1 || JumpsTo(op, f.pc, t)
  {
    hide Fused, ExecFused, ExecPlain;
  }

  /** Slots a window absorbs begin no window, and what it branches to is a jump's target. */
  lemma WindowAbsorbs(code: Code, u: nat)
    requires u < |code| && WindowKept(code, u)
    ensures u + Reach(code[u]) <= |code| && Safe(code, u, Reach(code[u]))
    ensures forall j | u < j < u + Reach(code[u]) :: !Begins(code, j)
    ensures Branches(code[u]) ==> IsTarget(code, u + Reach(code[u]) + code[u].off)
  {
    hide IsTarget;
    if Branches(code[u]) {
      var j := u + Reach(code[u]) - 1;
      assert JumpsTo(code[j], j, j + 1 + code[u].off);
      TargetAt(code, j, j + 1 + code[u].off);
    }
  }

  lemma TargetAt(code: Code, pc: nat, t: int)
    requires pc < |code| && JumpsTo(code[pc], pc, t)
    ensures IsTarget(code, t)
  {
  }

  /** The slots after the head of a window. */
  predicate Inside(k: nat, w: nat, pc: int) {
    k < pc < k + w
  }

  /** Control leaves an instruction past what it absorbs, or for a jump's target. */
  lemma StepLands<X, W>(I: Interp<X, W>, code: Code, f: Frame<X, W>)
    requires WellFused(code) && InCode(code, f.pc) && Exec(I, code[f.pc], f).At?
    ensures var t := Exec(I, code[f.pc], f).s.pc;
            t == f.pc + Reach(code[f.pc]) || IsTarget(code, t)
  {
    hide Exec, IsTarget, Fused;
    var op := code[f.pc];
    assert WindowKept(code, f.pc);
    WindowAbsorbs(code, f.pc);
    if Fused(op) {
      FusedLands(I, op, f);
    } else {
      PlainLands(I, op, f);
      ReachPlain(op);
      var t := Exec(I, op, f).s.pc;
      if JumpsTo(op, f.pc, t) { TargetAt(code, f.pc, t); }
    }
  }

  lemma ReachPlain(op: Op)
    ensures Reach(op) >= 1 && (!Fused(op) ==> Reach(op) == 1)
  {
  }

  /** From a slot outside a safe window the machine comes to none inside it. */
  lemma StaysOutside<X, W>(I: Interp<X, W>, code: Code, k: nat, w: nat, f: Frame<X, W>)
    requires WellFused(code) && InCode(code, f.pc) && Exec(I, code[f.pc], f).At?
    requires k < k + w <= |code| && Begins(code, k) && Safe(code, k, w) && f.pc != k && !Inside(k, w, f.pc)
    ensures !Inside(k, w, Exec(I, code[f.pc], f).s.pc)
  {
    hide Exec, IsTarget, Begins, Reach;
    StepLands(I, code, f);
    assert WindowKept(code, f.pc);
    WindowAbsorbs(code, f.pc);
  }

  // ---- whole runs ----

  /** From its head the window at `k` runs in `live` instructions to where the op put there goes, and
      neither code enters it elsewhere. */
  ghost predicate Replaces<X(!new), W(!new)>(I: Interp<X, W>, code: Code, after: Code, k: nat, w: nat, live: nat) {
    && k < |code| && live > 0 && |after| == |code| && after == code[k := after[k]]
    && (forall f: Frame<X, W> | f.pc == k :: Run(I, code, At(f), live) == Step(I, after, At(f)))
    && (forall f: Frame<X, W> | !Inside(k, w, f.pc) && Step(I, after, At(f)).At? :: !Inside(k, w, Step(I, after, At(f)).s.pc))
  }

  lemma SameStep<X(!new), W(!new)>(I: Interp<X, W>, code: Code, after: Code, k: nat, w: nat, live: nat, f: Frame<X, W>)
    requires Replaces(I, code, after, k, w, live) && f.pc != k
    ensures Step(I, code, At(f)) == Step(I, after, At(f))
  {
    hide Exec, Run;
  }

  ghost predicate Clear<X, W>(k: nat, w: nat, s: State<X, W>) {
    s.At? ==> !Inside(k, w, s.s.pc)
  }

  lemma ClearStep<X(!new), W(!new)>(I: Interp<X, W>, code: Code, after: Code, k: nat, w: nat, live: nat, f: Frame<X, W>)
    requires Replaces(I, code, after, k, w, live) && !Inside(k, w, f.pc)
    ensures Clear(k, w, Step(I, after, At(f)))
  {
    hide Step, Run;
  }

  /** A run of the old code that ends is matched by one of the new code. */
  lemma {:induction false} Forward<X(!new), W(!new)>(
    I: Interp<X, W>, code: Code, after: Code, k: nat, w: nat, live: nat, s: State<X, W>, n: nat) returns (m: nat)
    requires Replaces(I, code, after, k, w, live) && Clear(k, w, s) && !Run(I, code, s, n).At?
    ensures Run(I, after, s, m) == Run(I, code, s, n)
    decreases n
  {
    hide Step, Replaces;
    if !s.At? {
      RunDone(I, code, s, n);
      m := 0;
    } else {
      var t := Step(I, after, s);
      ClearStep(I, code, after, k, w, live, s.s);
      if s.s.pc == k {
        HeadRun(I, code, after, k, w, live, s.s, n);
        if n >= live {
          var rest := Forward(I, code, after, k, w, live, t, n - live);
          m := rest + 1;
        } else {
          m := 1;
          assert Run(I, after, s, 1) == Run(I, after, t, 0);
        }
      } else {
        SameStep(I, code, after, k, w, live, s.s);
        var rest := Forward(I, code, after, k, w, live, t, n - 1);
        m := rest + 1;
      }
    }
  }

  lemma HeadRun<X(!new), W(!new)>(I: Interp<X, W>, code: Code, after: Code, k: nat, w: nat, live: nat, f: Frame<X, W>, n: nat)
    requires Replaces(I, code, after, k, w, live) && f.pc == k
    ensures live > 0
    ensures n >= live ==> Run(I, code, At(f), n) == Run(I, code, Step(I, after, At(f)), n - live)
    ensures n < live && !Run(I, code, At(f), n).At? ==> Run(I, code, At(f), n) == Step(I, after, At(f))
  {
    hide Step, Run;
    if n >= live {
      RunSplit(I, code, At(f), live, n - live);
    } else if !Run(I, code, At(f), n).At? {
      RunSplit(I, code, At(f), n, live - n);
      RunDone(I, code, Run(I, code, At(f), n), live - n);
    }
  }

  lemma {:induction false} Backward<X(!new), W(!new)>(
    I: Interp<X, W>, code: Code, after: Code, k: nat, w: nat, live: nat, s: State<X, W>, n: nat) returns (m: nat)
    requires Replaces(I, code, after, k, w, live) && Clear(k, w, s)
    ensures Run(I, code, s, m) == Run(I, after, s, n)
    decreases n
  {
    hide Step, Replaces;
    if n == 0 {
      m := 0;
    } else if !s.At? {
      RunDone(I, after, s, n);
      m := 0;
    } else {
      var t := Step(I, after, s);
      ClearStep(I, code, after, k, w, live, s.s);
      var rest := Backward(I, code, after, k, w, live, t, n - 1);
      if s.s.pc == k {
        HeadRun(I, code, after, k, w, live, s.s, live + rest);
        m := live + rest;
      } else {
        SameStep(I, code, after, k, w, live, s.s);
        m := rest + 1;
      }
    }
  }

  lemma ReplacesSameRuns<X(!new), W(!new)>(I: Interp<X, W>, code: Code, after: Code, k: nat, w: nat, live: nat)
    requires Replaces(I, code, after, k, w, live)
    ensures SameRuns(I, code, after)
  {
    hide Replaces, Run, Step;
    forall f: Frame<X, W>, r: State<X, W> | f.pc == 0
      ensures Finishes(I, code, At(f), r) <==> Finishes(I, after, At(f), r)
    {
      if Finishes(I, code, At(f), r) {
        var n: nat :| Run(I, code, At(f), n) == r;
        var m := Forward(I, code, after, k, w, live, At(f), n);
        assert Run(I, after, At(f), m) == r;
      }
      if Finishes(I, after, At(f), r) {
        var n: nat :| Run(I, after, At(f), n) == r;
        var m := Backward(I, code, after, k, w, live, At(f), n);
        assert Run(I, code, At(f), m) == r;
      }
    }
  }

  /** A guarded fusion keeps every run. */
  lemma RewriteKeepsRuns<X(!new), W(!new)>(I: Interp<X, W>, slice: Slice, code: Code, k: nat, ints: set<nat>)
    requires WellFused(code) && k + Width(slice) <= |code| && Match(slice, code, k, ints).Some?
    requires Safe(code, k, Width(slice)) && Integers(I, ints)
    ensures SameRuns(I, code, code[k := Match(slice, code, k, ints).value])
  {
    hide *;
    RewriteReplaces(I, slice, code, k, ints);
    var fused := Match(slice, code, k, ints).value;
    var after := code[k := fused];
    ReplacesSameRuns(I, code, after, k, Reach(fused), Live(slice));
  }

  lemma RewriteReplaces<X(!new), W(!new)>(I: Interp<X, W>, slice: Slice, code: Code, k: nat, ints: set<nat>)
    requires WellFused(code) && k + Width(slice) <= |code| && Match(slice, code, k, ints).Some?
    requires Safe(code, k, Width(slice)) && Integers(I, ints)
    ensures k < |code|
    ensures var fused := Match(slice, code, k, ints).value;
            Replaces(I, code, code[k := fused], k, Reach(fused), Live(slice))
  {
    hide Match, Exec, Run, Safe, WindowKept, Begins, IsTarget, JumpsTo, Integers;
    MatchHead(slice, code, k, ints);
    var fused := Match(slice, code, k, ints).value;
    var after := code[k := fused];
    RewriteKeepsWindows(slice, code, k, ints);
    SafeUnchanged(code, k, fused);
    assert WindowKept(after, k);
    WindowAbsorbs(after, k);
    ReachPlain(fused);
    var w := Reach(fused);
    assert Safe(code, k, w);
    forall f: Frame<X, W> | f.pc == k ensures Run(I, code, At(f), Live(slice)) == Step(I, after, At(f)) {
      WindowRuns(I, slice, code, k, ints, f);
    }
    forall f: Frame<X, W> | !Inside(k, w, f.pc) && Step(I, after, At(f)).At?
      ensures !Inside(k, w, Step(I, after, At(f)).s.pc)
    {
      if f.pc == k {
        LeavesOwn(I, after, f);
      } else {
        StaysOutside(I, code, k, w, f);
      }
    }
  }

  lemma LeavesOwn<X, W>(I: Interp<X, W>, code: Code, f: Frame<X, W>)
    requires WellFused(code) && InCode(code, f.pc) && Exec(I, code[f.pc], f).At?
    ensures !Inside(f.pc, Reach(code[f.pc]), Exec(I, code[f.pc], f).s.pc)
  {
    hide Exec, IsTarget, Begins, Reach;
    StepLands(I, code, f);
    assert WindowKept(code, f.pc);
    WindowAbsorbs(code, f.pc);
  }

  lemma SameRunsTransitive<X(!new), W(!new)>(I: Interp<X, W>, a: Code, b: Code, c: Code)
    requires SameRuns(I, a, b) && SameRuns(I, b, c)
    ensures SameRuns(I, a, c)
  {
    hide Finishes;
  }
}
