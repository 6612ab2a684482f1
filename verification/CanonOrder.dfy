/** Record literals and record patterns have one canonical form however their fields were written: the one
    with the names in order (crates/lex-ast/src/canonicalize.rs:306-315, 373-408). */
module CanonOrder {
  import opened Options
  import opened Ast
  import opened AstKids
  import opened Surface
  import opened Canonicalize
  import opened RecordOrder
  import opened PatternOrder
  import opened Utf8

  /** In every record pattern within, no field's name is less than one before it. */
  ghost predicate PatternOrdered(p: Pattern) {
    match p
    case PRecord(fields) =>
      && (forall i, j | 0 <= i < j < |fields| :: !Less(fields[j].name, fields[i].name))
      && forall i | 0 <= i < |fields| :: PatternOrdered(fields[i].pattern)
    case PConstructor(_, args) => forall i | 0 <= i < |args| :: PatternOrdered(args[i])
    case PTuple(items) => forall i | 0 <= i < |items| :: PatternOrdered(items[i])
    case _ => true
  }

  ghost predicate FieldsUp(fields: seq<RecordField>) {
    forall i, j | 0 <= i < j < |fields| :: !Less(fields[j].name, fields[i].name)
  }

  /** So in every record pattern and record literal within. */
  ghost predicate Ordered(e: CExpr) {
    && (e.RecordLit? ==> FieldsUp(e.fields))
    && (e.Match? ==> forall i | 0 <= i < |e.arms| :: PatternOrdered(e.arms[i].pattern))
    && forall i | 0 <= i < |Kids(e)| :: Ordered(Kids(e)[i])
  }

  // ---- patterns ----

  lemma {:induction false} CanonPatternOrdered(p: SPattern)
    ensures PatternOrdered(CanonPattern(p))
    decreases p
  {
    match p
    case SConPattern(_, args) => forall i | 0 <= i < |args| { CanonPatternOrdered(args[i]); }
    case STupPattern(items) => forall i | 0 <= i < |items| { CanonPatternOrdered(items[i]); }
    case SRecPattern(fields) =>
      forall i | 0 <= i < |fields| ensures PatternOrdered(FieldPattern(fields[i])) {
        if fields[i].pattern.Some? { CanonPatternOrdered(fields[i].pattern.value); }
      }
      SortedFieldsOrdered(fields);
    case _ =>
  }

  lemma {:induction false} SortedFieldsOrdered(fields: seq<SPatternField>)
    requires forall i | 0 <= i < |fields| :: PatternOrdered(FieldPattern(fields[i]))
    ensures PatternOrdered(CanonPattern(SRecPattern(fields)))
  {
    var named := NamedPatterns(fields);
    assert forall i | 0 <= i < |named| :: named[i].1 == FieldPattern(fields[i]);
    assert CanonPattern(SRecPattern(fields)) == PRecord(PatternFields(SortNamed(named)));
    SortedOrdered(named);
  }

  lemma {:induction false} SortedOrdered(named: seq<(string, Pattern)>)
    requires forall i | 0 <= i < |named| :: PatternOrdered(named[i].1)
    ensures PatternOrdered(PRecord(PatternFields(SortNamed(named))))
  {
    var sorted := SortNamed(named);
    SortInOrder(named);
    hide SortNamed, Less;
    forall i | 0 <= i < |sorted| ensures PatternOrdered(sorted[i].1) {
      var j := SortedFrom(named, i);
    }
    var out := PatternFields(sorted);
    forall i, j | 0 <= i < j < |out| ensures !Less(out[j].name, out[i].name) {
      assert out[j].name == sorted[j].0 && out[i].name == sorted[i].0;
    }
  }

  // ---- expressions ----

  ghost predicate AllOrdered(es: seq<CExpr>) {
    forall i | 0 <= i < |es| :: Ordered(es[i])
  }

  /** What is neither a record nor a match is in order when its parts are. */
  lemma PartsOrdered(e: CExpr)
    requires !e.RecordLit? && !e.Match? && AllOrdered(Kids(e))
    ensures Ordered(e)
  {
  }

  lemma MatchOrdered(scrutinee: CExpr, arms: seq<Arm>)
    requires Ordered(scrutinee) && forall i | 0 <= i < |arms| :: PatternOrdered(arms[i].pattern) && Ordered(arms[i].body)
    ensures Ordered(Match(scrutinee, arms))
  {
    var e := Match(scrutinee, arms);
    hide Ordered, PatternOrdered;
    forall i | 0 <= i < |Kids(e)| ensures Ordered(Kids(e)[i]) {
      if i > 0 { assert Kids(e)[i] == arms[i - 1].body; }
    }
    MatchIsOrdered(e);
  }

  lemma MatchIsOrdered(e: CExpr)
    requires e.Match? && AllOrdered(Kids(e)) && forall i | 0 <= i < |e.arms| :: PatternOrdered(e.arms[i].pattern)
    ensures Ordered(e)
  {
  }

  lemma {:induction false} RecordOrdered(named: seq<(string, CExpr)>)
    requires forall i | 0 <= i < |named| :: Ordered(named[i].1)
    ensures Ordered(RecordLit(RecordFields(SortNamed(named))))
  {
    var sorted := SortNamed(named);
    SortInOrder(named);
    hide SortNamed, Ordered;
    var fields := RecordFields(sorted);
    var e := RecordLit(fields);
    forall i | 0 <= i < |Kids(e)| ensures Ordered(Kids(e)[i]) {
      var j := SortedFrom(named, i);
      assert Kids(e)[i] == sorted[i].1;
    }
    forall i, j | 0 <= i < j < |fields| ensures !Less(fields[j].name, fields[i].name) {
      assert fields[j].name == sorted[j].0 && fields[i].name == sorted[i].0;
    }
    RecordIsOrdered(e);
  }

  lemma RecordIsOrdered(e: CExpr)
    requires e.RecordLit? && AllOrdered(Kids(e)) && FieldsUp(e.fields)
    ensures Ordered(e)
  {
  }

  ghost predicate StatementOrdered(s: CStatement) {
    Ordered(if s.CLet? then s.value else s.e)
  }

  lemma {:induction false} NestOrdered(ss: seq<CStatement>, result: CExpr)
    requires Ordered(result) && forall i | 0 <= i < |ss| :: StatementOrdered(ss[i])
    ensures Ordered(Nest(ss, result))
    decreases |ss|
  {
    if ss != [] {
      var inner := Nest(ss[1..], result);
      NestOrdered(ss[1..], result);
      assert StatementOrdered(ss[0]);
      NestStep(ss, result, inner);
    }
  }

  lemma NestStep(ss: seq<CStatement>, result: CExpr, inner: CExpr)
    requires ss != [] && inner == Nest(ss[1..], result) && Ordered(inner) && StatementOrdered(ss[0])
    ensures Ordered(Nest(ss, result))
  {
    var out := Nest(ss, result);
    if ss[0].CDo? && |ss| > 1 && ss[1].CDo? {
      assert AllOrdered(Kids(inner));
      assert Kids(out) == [ss[0].e] + Kids(inner);
    }
    hide Ordered;
    assert AllOrdered(Kids(out));
    PartsOrdered(out);
  }

  /** Every record literal and every record pattern of a canonical form has its names in order. */
  lemma {:induction false} CanonOrdered(e: SExpr)
    ensures Ordered(Canon(e))
    decreases e, 1
  {
    hide Ordered, PatternOrdered;
    if e.SCall? || e.SPipe? {
      CallOrdered(e);
    } else if e.SIf? || e.SMatch? || e.STry? {
      BranchOrdered(e);
    } else if e.SRecord? {
      var named := seq(|e.fields|, i requires 0 <= i < |e.fields| => (e.fields[i].name, Canon(e.fields[i].value)));
      forall i | 0 <= i < |named| ensures Ordered(named[i].1) { CanonOrdered(e.fields[i].value); }
      RecordOrdered(named);
    } else {
      PlainOrdered(e);
    }
  }

  lemma {:induction false} PlainOrdered(e: SExpr)
    requires !e.SCall? && !e.SPipe? && !e.SIf? && !e.SMatch? && !e.STry? && !e.SRecord?
    ensures Ordered(Canon(e))
    decreases e, 0
  {
    hide Ordered, PatternOrdered;
    match e {
      case SBraces(block) => BlockOrdered(block);
      case SAccess(record, _) => CanonOrdered(record);
      case SBinOp(_, lhs, rhs) =>
        CanonOrdered(lhs);
        CanonOrdered(rhs);
      case SUnaryOp(_, operand) => CanonOrdered(operand);
      case STuple(items) => forall i | 0 <= i < |items| { CanonOrdered(items[i]); }
      case SList(items) => forall i | 0 <= i < |items| { CanonOrdered(items[i]); }
      case SCon(_, args) => forall i | 0 <= i < |args| { CanonOrdered(args[i]); }
      case SFun(l) => BlockOrdered(l.body);
      case SAscription(value, _) =>
        CanonOrdered(value);
        PartsOrdered(Var(ASCRIPTION));
      case _ =>
    }
    if !e.SBraces? { PartsOrdered(Canon(e)); }
  }

  lemma {:induction false} CallOrdered(e: SExpr)
    requires e.SCall? || e.SPipe?
    ensures Ordered(Canon(e))
    decreases e, 0
  {
    hide Ordered, PatternOrdered;
    match e {
      case SCall(callee, args) =>
        CanonOrdered(callee);
        var cs := seq(|args|, i requires 0 <= i < |args| => Canon(args[i]));
        forall i | 0 <= i < |args| ensures Ordered(cs[i]) { CanonOrdered(args[i]); }
        PartsOrdered(Canon(e));
      case SPipe(left, right) =>
        CanonOrdered(left);
        CanonOrdered(right);
        PipeOrdered(Canon(left), Canon(right));
    }
  }

  lemma PipeOrdered(left: CExpr, right: CExpr)
    requires Ordered(left) && Ordered(right)
    ensures Ordered(CanonPipe(left, right))
  {
    var out := CanonPipe(left, right);
    assert AllOrdered(Kids(right));
    match right {
      case Call(callee, args) => assert Kids(right)[0] == callee && Kids(right)[1..] == args;
      case Constructor(_, args) =>
      case _ =>
    }
    hide Ordered;
    assert AllOrdered(Kids(out));
    PartsOrdered(out);
  }

  lemma {:induction false} BranchOrdered(e: SExpr)
    requires e.SIf? || e.SMatch? || e.STry?
    ensures Ordered(Canon(e))
    decreases e, 0
  {
    hide Ordered, PatternOrdered;
    match e {
      case SIf(cond, thenBlock, elseBlock) =>
        CanonOrdered(cond);
        BlockOrdered(thenBlock);
        BlockOrdered(elseBlock);
        LiteralsOrdered();
        MatchOrdered(Canon(cond), Canon(e).arms);
      case SMatch(scrutinee, arms) =>
        CanonOrdered(scrutinee);
        forall i | 0 <= i < |arms| ensures PatternOrdered(Canon(e).arms[i].pattern) && Ordered(Canon(e).arms[i].body) {
          CanonPatternOrdered(arms[i].pattern);
          CanonOrdered(arms[i].body);
        }
        MatchOrdered(Canon(scrutinee), Canon(e).arms);
      case STry(inner) =>
        CanonOrdered(inner);
        TryOrdered();
        MatchOrdered(Canon(inner), TRY_ARMS);
    }
  }

  lemma LiteralsOrdered()
    ensures forall b :: PatternOrdered(PLiteral(Bool(b)))
  {
  }

  lemma TryOrdered()
    ensures forall i | 0 <= i < |TRY_ARMS| :: PatternOrdered(TRY_ARMS[i].pattern) && Ordered(TRY_ARMS[i].body)
  {
    PartsOrdered(Var("v"));
    PartsOrdered(Var("e"));
    PartsOrdered(Constructor("Err", [Var("e")]));
    PartsOrdered(Return(Constructor("Err", [Var("e")])));
  }

  lemma {:induction false} BlockOrdered(b: SBlock)
    ensures Ordered(CanonBlock(b))
    decreases b, 2
  {
    hide Ordered;
    CanonOrdered(b.result);
    var ss := CanonStatements(b);
    forall i | 0 <= i < |ss| ensures StatementOrdered(ss[i]) {
      var stmt := b.statements[i];
      CanonOrdered(if stmt.SLet? then stmt.value else stmt.e);
      assert ss[i] == CanonStatement(stmt);
    }
    NestOrdered(ss, Canon(b.result));
  }

  // ---- one form ----

  ghost predicate StrictlyUp<T>(xs: seq<(string, T)>) {
    forall i, j | 0 <= i < j < |xs| :: Less(xs[i].0, xs[j].0)
  }

  ghost predicate SameMembers<X>(xs: seq<X>, ys: seq<X>) {
    (forall x | x in xs :: x in ys) && (forall y | y in ys :: y in xs)
  }

  ghost predicate DistinctKeys<T>(xs: seq<(string, T)>) {
    forall i, j | 0 <= i < j < |xs| :: xs[i].0 != xs[j].0
  }

  lemma {:induction false} HeadSmallest<T>(xs: seq<(string, T)>, ys: seq<(string, T)>)
    requires StrictlyUp(xs) && StrictlyUp(ys) && SameMembers(xs, ys) && xs != [] && ys != []
    ensures xs[0] == ys[0]
  {
    hide Less;
    assert xs[0] in ys && ys[0] in xs;
    var j :| 0 <= j < |ys| && ys[j] == xs[0];
    var i :| 0 <= i < |xs| && xs[i] == ys[0];
    LessTotal(xs[0].0, ys[0].0);
    if i > 0 && j > 0 {
      LessTransitive(xs[0].0, ys[0].0, xs[0].0);
    }
  }

  lemma {:induction false} MembersAfter<T>(xs: seq<(string, T)>, ys: seq<(string, T)>)
    requires StrictlyUp(xs) && StrictlyUp(ys) && SameMembers(xs, ys) && xs != [] && ys != [] && xs[0] == ys[0]
    ensures SameMembers(xs[1..], ys[1..])
  {
    hide Less;
    RestMembers(xs);
    RestMembers(ys);
  }

  lemma {:induction false} RestMembers<T>(xs: seq<(string, T)>)
    requires StrictlyUp(xs) && xs != []
    ensures forall x :: x in xs[1..] <==> x in xs && x != xs[0]
  {
    forall x ensures x in xs[1..] <==> x in xs && x != xs[0] {
      if x in xs[1..] {
        var i :| 0 <= i < |xs[1..]| && xs[1..][i] == x;
        assert xs[i + 1] == x && Less(xs[0].0, xs[i + 1].0);
        LessTotal(xs[0].0, x.0);
      }
      if x in xs && x != xs[0] {
        var i :| 0 <= i < |xs| && xs[i] == x;
        assert xs[1..][i - 1] == x;
      }
    }
  }

  /** Two lists with strictly rising names and the same members are one list. */
  lemma {:induction false} RisingUnique<T>(xs: seq<(string, T)>, ys: seq<(string, T)>)
    requires StrictlyUp(xs) && StrictlyUp(ys) && SameMembers(xs, ys)
    ensures xs == ys
    decreases |xs|
  {
    hide Less;
    if ys != [] { assert ys[0] in xs; }
    if xs != [] {
      assert xs[0] in ys;
      HeadSmallest(xs, ys);
      MembersAfter(xs, ys);
      RisingUnique(xs[1..], ys[1..]);
      assert xs == [xs[0]] + xs[1..] && ys == [ys[0]] + ys[1..];
    }
  }

  lemma {:induction false} SortedRises<T>(xs: seq<(string, T)>)
    requires DistinctKeys(xs)
    ensures StrictlyUp(SortNamed(xs))
  {
    var sorted := SortNamed(xs);
    SortInOrder(xs);
    SortMembers(xs);
    hide SortNamed, Less;
    forall i, j | 0 <= i < j < |sorted| ensures Less(sorted[i].0, sorted[j].0) {
      LessTotal(sorted[i].0, sorted[j].0);
      if sorted[i].0 == sorted[j].0 {
        TwicePlaced(xs, sorted, i, j);
      }
    }
  }

  lemma {:induction false} OnceEach<T>(xs: seq<(string, T)>, x: (string, T))
    requires DistinctKeys(xs)
    ensures multiset(xs)[x] <= 1
    decreases |xs|
  {
    if xs != [] {
      assert xs == [xs[0]] + xs[1..];
      OnceEach(xs[1..], x);
      assert x == xs[0] ==> x !in xs[1..];
    }
  }

  lemma {:induction false} TwoPlaces<X>(xs: seq<X>, i: nat, j: nat)
    requires i < j < |xs|
    ensures xs[i] == xs[j] ==> multiset(xs)[xs[i]] >= 2
  {
    assert xs == xs[..j] + xs[j..];
    assert xs[i] in xs[..j] && xs[j] in xs[j..];
    assert xs[i] in multiset(xs[..j]) && xs[j] in multiset(xs[j..]);
  }

  lemma {:induction false} TwicePlaced<T>(xs: seq<(string, T)>, sorted: seq<(string, T)>, i: nat, j: nat)
    requires DistinctKeys(xs) && multiset(xs) == multiset(sorted) && i < j < |sorted|
    ensures sorted[i].0 != sorted[j].0
  {
    var a := FoundIn(sorted, xs, i);
    var b := FoundIn(sorted, xs, j);
    OnceEach(xs, sorted[i]);
    TwoPlaces(sorted, i, j);
  }

  /** Sorting makes one list of two exactly when they hold the same. */
  lemma {:induction false} SortsAlike<T>(xs: seq<(string, T)>, ys: seq<(string, T)>)
    requires DistinctKeys(xs) && DistinctKeys(ys)
    ensures SortNamed(xs) == SortNamed(ys) <==> SameMembers(xs, ys)
  {
    hide SortNamed;
    SortKeepsMembers(xs);
    SortKeepsMembers(ys);
    SortedRises(xs);
    SortedRises(ys);
    hide StrictlyUp, DistinctKeys;
    assert SameMembers(xs, SortNamed(xs)) && SameMembers(ys, SortNamed(ys));
    if SameMembers(xs, ys) {
      assert SameMembers(SortNamed(xs), SortNamed(ys));
      RisingUnique(SortNamed(xs), SortNamed(ys));
    }
  }

  /** Record patterns whose field names differ have one canonical form exactly when they hold the same
      canonical patterns under the same names, in whatever order. */
  lemma {:induction false} OnePattern(fields: seq<SPatternField>, others: seq<SPatternField>)
    requires forall i, j | 0 <= i < j < |fields| :: fields[i].name != fields[j].name
    requires forall i, j | 0 <= i < j < |others| :: others[i].name != others[j].name
    ensures CanonPattern(SRecPattern(fields)) == CanonPattern(SRecPattern(others))
       <==> SameMembers(NamedPatterns(fields), NamedPatterns(others))
    ensures multiset(fields) == multiset(others) ==> CanonPattern(SRecPattern(fields)) == CanonPattern(SRecPattern(others))
  {
    var xs, ys := NamedPatterns(fields), NamedPatterns(others);
    assert CanonPattern(SRecPattern(fields)) == PRecord(PatternFields(SortNamed(xs)));
    assert CanonPattern(SRecPattern(others)) == PRecord(PatternFields(SortNamed(ys)));
    SortsAlike(xs, ys);
    PatternFieldsDiffer(SortNamed(xs), SortNamed(ys));
    hide SortNamed, CanonPattern;
    if multiset(fields) == multiset(others) {
      PermutedPatterns(fields, others);
      PermutedPatterns(others, fields);
    }
  }

  lemma {:induction false} PatternFieldsDiffer(xs: seq<(string, Pattern)>, ys: seq<(string, Pattern)>)
    ensures PatternFields(xs) == PatternFields(ys) ==> xs == ys
  {
    var as0, bs := PatternFields(xs), PatternFields(ys);
    if as0 == bs {
      forall i | 0 <= i < |xs| ensures xs[i] == ys[i] {
        assert as0[i] == bs[i];
      }
    }
  }

  lemma {:induction false} PermutedPatterns(fields: seq<SPatternField>, others: seq<SPatternField>)
    requires multiset(fields) == multiset(others)
    ensures forall x | x in NamedPatterns(fields) :: x in NamedPatterns(others)
  {
    var xs, ys := NamedPatterns(fields), NamedPatterns(others);
    forall x | x in xs ensures x in ys {
      var i :| 0 <= i < |xs| && xs[i] == x;
      var j := FoundIn(fields, others, i);
      assert ys[j] == x;
    }
  }

  function NamedValues(fields: seq<SField>): (named: seq<(string, CExpr)>)
    ensures |named| == |fields|
  {
    seq(|fields|, i requires 0 <= i < |fields| => (fields[i].name, Canon(fields[i].value)))
  }

  lemma CanonRecord(fields: seq<SField>)
    ensures Canon(SRecord(fields)) == RecordLit(RecordFields(SortNamed(NamedValues(fields))))
  {
    var e := SRecord(fields);
    var named := seq(|e.fields|, i requires 0 <= i < |e.fields| => (e.fields[i].name, Canon(e.fields[i].value)));
    assert named == NamedValues(fields);
    assert Canon(e) == RecordLit(RecordFields(SortNamed(named)));
  }

  /** So have record literals. */
  lemma {:induction false} OneRecord(fields: seq<SField>, others: seq<SField>)
    requires forall i, j | 0 <= i < j < |fields| :: fields[i].name != fields[j].name
    requires forall i, j | 0 <= i < j < |others| :: others[i].name != others[j].name
    ensures Canon(SRecord(fields)) == Canon(SRecord(others)) <==> SameMembers(NamedValues(fields), NamedValues(others))
    ensures multiset(fields) == multiset(others) ==> Canon(SRecord(fields)) == Canon(SRecord(others))
  {
    hide SortNamed, Canon;
    var xs, ys := NamedValues(fields), NamedValues(others);
    CanonRecord(fields);
    CanonRecord(others);
    SortsAlike(xs, ys);
    RecordFieldsDiffer(SortNamed(xs), SortNamed(ys));
    if multiset(fields) == multiset(others) {
      PermutedValues(fields, others);
      PermutedValues(others, fields);
    }
  }

  lemma {:induction false} RecordFieldsDiffer(xs: seq<(string, CExpr)>, ys: seq<(string, CExpr)>)
    ensures RecordFields(xs) == RecordFields(ys) ==> xs == ys
  {
    var as0, bs := RecordFields(xs), RecordFields(ys);
    if as0 == bs {
      forall i | 0 <= i < |xs| ensures xs[i] == ys[i] {
        assert as0[i] == bs[i];
      }
    }
  }

  lemma {:induction false} PermutedValues(fields: seq<SField>, others: seq<SField>)
    requires multiset(fields) == multiset(others)
    ensures forall x | x in NamedValues(fields) :: x in NamedValues(others)
  {
    hide Canon;
    var xs, ys := NamedValues(fields), NamedValues(others);
    forall x | x in xs ensures x in ys {
      var i :| 0 <= i < |xs| && xs[i] == x;
      var j := FoundIn(fields, others, i);
      assert ys[j] == x;
    }
  }
}
