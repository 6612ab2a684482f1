/** Record patterns are canonicalized with their fields in key order (crates/lex-ast/src/canonicalize.rs:373-408):
    when that keeps what a match binds. */
module PatternOrder {
  import opened Options
  import opened Ast
  import opened Meaning
  import opened EvalLaws
  import opened Surface
  import opened Canonicalize
  import opened RecordOrder
  import opened Utf8

  // ---- patterns ----

  /** Where two fields of a record pattern bind one name, sorting does not move the last that does before another. */
  predicate Settled(p: SPattern) {
    match p
    case SConPattern(_, args) => forall i | 0 <= i < |args| :: Settled(args[i])
    case STupPattern(items) => forall i | 0 <= i < |items| :: Settled(items[i])
    case SRecPattern(fields) =>
      && (forall i | 0 <= i < |fields| :: fields[i].pattern.Some? ==> Settled(fields[i].pattern.value))
      && LastStays(fields)
    case _ => true
  }

  predicate LastStays(fields: seq<SPatternField>) {
    forall i, j | 0 <= i < j < |fields| && Less(fields[j].name, fields[i].name) ::
      forall x | x in FieldNames(fields[i]) * FieldNames(fields[j]) ::
        exists k | j < k < |fields| :: x in FieldNames(fields[k])
  }

  function FieldPattern(f: SPatternField): Pattern {
    match f.pattern case Some(q) => CanonPattern(q) case None => PVar(f.name)
  }

  function FieldNames(f: SPatternField): set<string> {
    match f.pattern case Some(q) => Bound(q) case None => {f.name}
  }

  /** Names a pattern binds; a capitalized one is a constructor. */
  function Bound(p: SPattern): set<string> {
    match p
    case SLitPattern(_) | SWild => {}
    case SVarPattern(name) => if IsConstructorName(name) then {} else {name}
    case SConPattern(_, args) => set i, x | 0 <= i < |args| && x in Bound(args[i]) :: x
    case STupPattern(items) => set i, x | 0 <= i < |items| && x in Bound(items[i]) :: x
    case SRecPattern(fields) => set i, x | 0 <= i < |fields| && x in FieldNames(fields[i]) :: x
  }

  lemma {:induction false} BoundNames(p: SPattern)
    ensures PatternNames(CanonPattern(p)) == Bound(p)
    decreases p
  {
    match p
    case SConPattern(_, args) =>
      forall i | 0 <= i < |args| ensures PatternNames(CanonPattern(args[i])) == Bound(args[i]) { BoundNames(args[i]); }
      ListNames(p, args);
    case STupPattern(items) =>
      forall i | 0 <= i < |items| ensures PatternNames(CanonPattern(items[i])) == Bound(items[i]) { BoundNames(items[i]); }
      ListNames(p, items);
    case SRecPattern(fields) =>
      forall i | 0 <= i < |fields| ensures PatternNames(FieldPattern(fields[i])) == FieldNames(fields[i]) {
        if fields[i].pattern.Some? { BoundNames(fields[i].pattern.value); }
      }
      RecordNames(fields);
    case _ =>
  }

  lemma ListNames(p: SPattern, ps: seq<SPattern>)
    requires (p.SConPattern? && p.args == ps) || p == STupPattern(ps)
    requires forall i | 0 <= i < |ps| :: PatternNames(CanonPattern(ps[i])) == Bound(ps[i])
    ensures PatternNames(CanonPattern(p)) == Bound(p)
  {
    var cs := if p.SConPattern? then CanonPattern(p).args else CanonPattern(p).items;
    assert |cs| == |ps| && forall i | 0 <= i < |ps| :: cs[i] == CanonPattern(ps[i]);
    PatternNamesAre(CanonPattern(p));
    BoundAre(p);
    hide PatternNames, CanonPattern, Bound;
    assert NamesIn(cs) == BoundIn(ps);
  }

  function BoundIn(ps: seq<SPattern>): set<string> {
    set i, x | 0 <= i < |ps| && x in Bound(ps[i]) :: x
  }

  lemma BoundAre(p: SPattern)
    ensures p.SConPattern? ==> Bound(p) == BoundIn(p.args)
    ensures p.STupPattern? ==> Bound(p) == BoundIn(p.items)
  {
  }

  lemma RecordNames(fields: seq<SPatternField>)
    requires forall i | 0 <= i < |fields| :: PatternNames(FieldPattern(fields[i])) == FieldNames(fields[i])
    ensures PatternNames(CanonPattern(SRecPattern(fields))) == Bound(SRecPattern(fields))
  {
    var named := NamedPatterns(fields);
    var sorted := PatternFields(SortNamed(named));
    assert CanonPattern(SRecPattern(fields)) == PRecord(sorted);
    SortKeepsMembers(named);
    hide CanonPattern, PatternNames, Bound, SortNamed;
    forall x ensures x in PatternNames(PRecord(sorted)) <==> x in Bound(SRecPattern(fields)) {
      NamesOfRecord(sorted, x);
      BoundOfRecord(fields, x);
      if i :| 0 <= i < |sorted| && x in PatternNames(sorted[i].pattern) {
        assert SortNamed(named)[i] in named;
        var j :| 0 <= j < |named| && named[j] == SortNamed(named)[i];
        assert x in FieldNames(fields[j]);
      }
      if j :| 0 <= j < |fields| && x in FieldNames(fields[j]) {
        assert named[j] in SortNamed(named);
        var i :| 0 <= i < |sorted| && SortNamed(named)[i] == named[j];
        assert x in PatternNames(sorted[i].pattern);
      }
    }
  }

  lemma NamesOfRecord(fields: seq<PatternField>, x: string)
    ensures x in PatternNames(PRecord(fields)) <==> exists i | 0 <= i < |fields| :: x in PatternNames(fields[i].pattern)
  {
  }

  lemma BoundOfRecord(fields: seq<SPatternField>, x: string)
    ensures x in Bound(SRecPattern(fields)) <==> exists i | 0 <= i < |fields| :: x in FieldNames(fields[i])
  {
  }

  lemma {:induction false} PatternMeans<W>(I: Interp<W>, p: SPattern, v: Value)
    requires Settled(p)
    ensures MatchPattern(I, CanonPattern(p), v) == MatchSurface(I, p, v)
    decreases p, 1
  {
    match p
    case SConPattern(name, args) =>
      if v.VCon? && |v.args| == |args| { PatternsMean(I, args, CanonPattern(p).args, v.args); }
    case STupPattern(items) =>
      if v.VTup? && |v.items| == |items| { PatternsMean(I, items, CanonPattern(p).items, v.items); }
    case SRecPattern(fields) =>
      if v.VRec? {
        var named := NamedPatterns(fields);
        FieldPatternsMean(I, fields, named, v.fields);
        KeptFields(fields);
        SortMatches(I, named, v.fields);
      }
    case _ =>
  }

  function NamedPatterns(fields: seq<SPatternField>): (named: seq<(string, Pattern)>)
    ensures |named| == |fields|
  {
    seq(|fields|, i requires 0 <= i < |fields| =>
      (fields[i].name, match fields[i].pattern case Some(q) => CanonPattern(q) case None => PVar(fields[i].name)))
  }

  lemma {:induction false} PatternsMean<W>(I: Interp<W>, ps: seq<SPattern>, cs: seq<Pattern>, vs: seq<Value>)
    requires |ps| == |cs| == |vs| && forall i | 0 <= i < |ps| :: cs[i] == CanonPattern(ps[i]) && Settled(ps[i])
    ensures MatchPatterns(I, cs, vs) == MatchSurfaces(I, ps, vs)
    decreases ps, 0
  {
    if ps != [] {
      PatternMeans(I, ps[0], vs[0]);
      PatternsMean(I, ps[1..], cs[1..], vs[1..]);
    }
  }

  lemma {:induction false} FieldPatternsMean<W>(I: Interp<W>, fs: seq<SPatternField>, named: seq<(string, Pattern)>, vs: seq<(string, Value)>)
    requires |fs| == |named|
    requires forall i | 0 <= i < |fs| :: named[i] == (fs[i].name, FieldPattern(fs[i]))
    requires forall i | 0 <= i < |fs| :: fs[i].pattern.Some? ==> Settled(fs[i].pattern.value)
    ensures MatchFields(I, PatternFields(named), vs) == MatchSurfaceFields(I, fs, vs)
    decreases fs, 0
  {
    if fs != [] {
      assert PatternFields(named)[1..] == PatternFields(named[1..]);
      var v := FieldOf(vs, fs[0].name);
      if v.Some? && fs[0].pattern.Some? { PatternMeans(I, fs[0].pattern.value, v.value); }
      FieldPatternsMean(I, fs[1..], named[1..], vs);
    }
  }

  /** As `LastStays`, for canonical fields. */
  ghost predicate Kept(named: seq<(string, Pattern)>) {
    forall i, j, x | 0 <= i < j < |named| && Less(named[j].0, named[i].0) && Binds(named[i], x) && Binds(named[j], x) ::
      exists k | j < k < |named| :: Binds(named[k], x)
  }

  predicate Binds(f: (string, Pattern), x: string) {
    x in PatternNames(f.1)
  }

  lemma KeptFields(fields: seq<SPatternField>)
    requires LastStays(fields)
    ensures Kept(NamedPatterns(fields))
  {
    NamesOfFields(fields);
    var named := NamedPatterns(fields);
    hide PatternNames, FieldNames, Less, FieldPattern;
    forall i, j, x | 0 <= i < j < |named| && Less(named[j].0, named[i].0) && Binds(named[i], x) && Binds(named[j], x)
      ensures exists k | j < k < |named| :: Binds(named[k], x)
    {
      assert x in FieldNames(fields[i]) * FieldNames(fields[j]);
      var k :| j < k < |fields| && x in FieldNames(fields[k]);
      assert Binds(named[k], x);
    }
  }

  lemma NamesOfFields(fields: seq<SPatternField>)
    ensures forall i | 0 <= i < |fields| ::
              NamedPatterns(fields)[i].0 == fields[i].name && PatternNames(NamedPatterns(fields)[i].1) == FieldNames(fields[i])
  {
    forall i | 0 <= i < |fields|
      ensures NamedPatterns(fields)[i].0 == fields[i].name && PatternNames(NamedPatterns(fields)[i].1) == FieldNames(fields[i])
    {
      if fields[i].pattern.Some? { BoundNames(fields[i].pattern.value); }
    }
  }

  /** Every name `f` shares with a field it is moved past is bound again by one it is not. */
  ghost predicate Overridden(f: (string, Pattern), sorted: seq<(string, Pattern)>) {
    forall g, x | g in sorted && Less(g.0, f.0) && Binds(f, x) && Binds(g, x) :: BoundAfter(f, sorted, x)
  }

  ghost predicate BoundAfter(f: (string, Pattern), sorted: seq<(string, Pattern)>, x: string) {
    exists h :: h in sorted && !Less(h.0, f.0) && Binds(h, x)
  }

  lemma {:induction false} InsertMatches<W>(I: Interp<W>, f: (string, Pattern), sorted: seq<(string, Pattern)>, vs: seq<(string, Value)>)
    requires Overridden(f, sorted)
    ensures MatchFields(I, PatternFields(InsertNamed(f, sorted)), vs) == MatchFields(I, PatternFields([f] + sorted), vs)
    decreases |sorted|
  {
    hide MatchPattern, PatternNames, FieldOf, Less;
    if sorted == [] || !Less(sorted[0].0, f.0) {
    } else {
      var g, rest := sorted[0], sorted[1..];
      OverriddenRest(f, sorted);
      InsertMatches(I, f, rest, vs);
      MatchFirst(I, g, InsertNamed(f, rest), vs);
      MatchFirst(I, f, rest, vs);
      MatchFirst(I, f, sorted, vs);
      MatchFirst(I, g, rest, vs);
      assert [g] + rest == sorted;
      OneKeys(I, f, vs);
      OneKeys(I, g, vs);
      FieldsKeys(I, PatternFields(rest), vs);
      SharedBelow(f, sorted);
      hide *;
      SwapOverridden(MatchOne(I, f, vs), MatchOne(I, g, vs), MatchFields(I, PatternFields(rest), vs),
                     PatternNames(f.1), PatternNames(g.1), FieldNamesIn(PatternFields(rest)));
    }
  }

  lemma OverriddenRest(f: (string, Pattern), sorted: seq<(string, Pattern)>)
    requires Overridden(f, sorted) && sorted != [] && Less(sorted[0].0, f.0)
    ensures Overridden(f, sorted[1..])
  {
    hide Less, Binds;
    var g, rest := sorted[0], sorted[1..];
    assert sorted == [g] + rest;
    forall h, x | h in rest && Less(h.0, f.0) && Binds(f, x) && Binds(h, x) ensures BoundAfter(f, rest, x) {
      assert h in sorted && BoundAfter(f, sorted, x);
      var o :| o in sorted && !Less(o.0, f.0) && Binds(o, x);
      assert o in rest;
    }
  }

  /** What the inserted field shares with the first is bound by a later one. */
  lemma SharedBelow(f: (string, Pattern), sorted: seq<(string, Pattern)>)
    requires Overridden(f, sorted) && sorted != [] && Less(sorted[0].0, f.0)
    ensures PatternNames(f.1) * PatternNames(sorted[0].1) <= FieldNamesIn(PatternFields(sorted[1..]))
  {
    hide Less, PatternNames;
    var g, rest := sorted[0], sorted[1..];
    assert sorted == [g] + rest;
    forall x | x in PatternNames(f.1) * PatternNames(g.1) ensures x in FieldNamesIn(PatternFields(rest)) {
      assert g in sorted && Binds(f, x) && Binds(g, x);
      assert BoundAfter(f, sorted, x);
      var o :| o in sorted && !Less(o.0, f.0) && Binds(o, x);
      assert o in rest;
      var k :| 0 <= k < |rest| && rest[k] == o;
      assert PatternFields(rest)[k].pattern == o.1;
    }
  }

  function MatchOne<W>(I: Interp<W>, f: (string, Pattern), vs: seq<(string, Value)>): Option<Env> {
    var v := FieldOf(vs, f.0);
    if v.Some? then MatchPattern(I, f.1, v.value) else None
  }

  function Join(a: Option<Env>, b: Option<Env>): Option<Env> {
    if a.Some? && b.Some? then Some(a.value + b.value) else None
  }

  lemma OneKeys<W>(I: Interp<W>, f: (string, Pattern), vs: seq<(string, Value)>)
    ensures var m := MatchOne(I, f, vs); m.Some? ==> m.value.Keys == PatternNames(f.1)
  {
    var v := FieldOf(vs, f.0);
    if v.Some? { PatternKeys(I, f.1, v.value); }
  }

  lemma MatchFirst<W>(I: Interp<W>, f: (string, Pattern), rest: seq<(string, Pattern)>, vs: seq<(string, Value)>)
    ensures MatchFields(I, PatternFields([f] + rest), vs) == Join(MatchOne(I, f, vs), MatchFields(I, PatternFields(rest), vs))
  {
    hide MatchPattern, FieldOf;
    assert PatternFields([f] + rest)[1..] == PatternFields(rest);
  }

  lemma SwapOverridden(a: Option<Env>, b: Option<Env>, rest: Option<Env>, x: set<string>, y: set<string>, z: set<string>)
    requires (a.Some? ==> a.value.Keys == x) && (b.Some? ==> b.value.Keys == y) && (rest.Some? ==> rest.value.Keys == z)
    requires x * y <= z
    ensures Join(a, Join(b, rest)) == Join(b, Join(a, rest))
  {
    if a.Some? && b.Some? && rest.Some? {
      var u, v := a.value + (b.value + rest.value), b.value + (a.value + rest.value);
      forall k ensures k in u <==> k in v {}
      forall k | k in u ensures u[k] == v[k] {
        if k in a.value && k in b.value { assert k in x * y; }
      }
      assert u == v;
    }
  }

  lemma LastBinder(named: seq<(string, Pattern)>, x: string, a: nat) returns (l: nat)
    requires a < |named| && Binds(named[a], x)
    ensures a <= l < |named| && Binds(named[l], x) && forall k | l < k < |named| :: !Binds(named[k], x)
    decreases |named| - a
  {
    if k :| a < k < |named| && Binds(named[k], x) {
      l := LastBinder(named, x, k);
    } else {
      l := a;
    }
  }

  lemma KeptRest(named: seq<(string, Pattern)>)
    requires Kept(named) && named != []
    ensures Kept(named[1..])
  {
    hide Less, Binds;
    var rest := named[1..];
    forall i, j, x | 0 <= i < j < |rest| && Less(rest[j].0, rest[i].0) && Binds(rest[i], x) && Binds(rest[j], x)
      ensures exists k | j < k < |rest| :: Binds(rest[k], x)
    {
      assert rest[i] == named[i + 1] && rest[j] == named[j + 1];
      var k :| j + 1 < k < |named| && Binds(named[k], x);
      assert rest[k - 1] == named[k];
    }
  }

  /** The first field is overridden where it has to be. */
  lemma FirstOverridden(named: seq<(string, Pattern)>)
    requires Kept(named) && named != []
    ensures Overridden(named[0], SortNamed(named[1..]))
  {
    hide Less, Binds, SortNamed;
    var f, rest := named[0], named[1..];
    SortKeepsMembers(rest);
    forall g, x | g in SortNamed(rest) && Less(g.0, f.0) && Binds(f, x) && Binds(g, x)
      ensures BoundAfter(f, SortNamed(rest), x)
    {
      var a :| 0 <= a < |rest| && rest[a] == g;
      assert named[a + 1] == g;
      var l := LastBinder(named, x, a + 1);
      assert !Less(named[l].0, f.0);
      assert rest[l - 1] == named[l] && named[l] in SortNamed(rest);
    }
  }

  /** Where the last binder of each name stays last, the order of the fields does not matter. */
  lemma {:induction false} SortMatches<W>(I: Interp<W>, named: seq<(string, Pattern)>, vs: seq<(string, Value)>)
    requires Kept(named)
    ensures MatchFields(I, PatternFields(SortNamed(named)), vs) == MatchFields(I, PatternFields(named), vs)
    decreases |named|
  {
    hide Kept, Overridden, MatchFields, Less;
    if named != [] {
      var f, rest := named[0], named[1..];
      KeptRest(named);
      SortMatches(I, rest, vs);
      FirstOverridden(named);
      InsertMatches(I, f, SortNamed(rest), vs);
      MatchFirst(I, f, SortNamed(rest), vs);
      MatchFirst(I, f, rest, vs);
      assert named == [f] + rest;
    }
  }

  lemma {:induction false} PickMeans<W>(I: Interp<W>, arms: seq<SArm>, cs: seq<Arm>, v: Value)
    requires |arms| == |cs|
    requires forall i | 0 <= i < |arms| :: cs[i].pattern == CanonPattern(arms[i].pattern) && Settled(arms[i].pattern)
    ensures Pick(I, cs, v) == PickSurface(I, arms, v)
    decreases |arms|
  {
    hide MatchPattern, MatchSurface, CanonPattern, Settled;
    if arms != [] {
      PatternMeans(I, arms[0].pattern, v);
      PickMeans(I, arms[1..], cs[1..], v);
    }
  }

  // ---- exactly when ----

  /** Every field is a variable. */
  predicate Flat(fields: seq<SPatternField>) {
    forall i | 0 <= i < |fields| ::
      fields[i].pattern.None? || (fields[i].pattern.value.SVarPattern? && !IsConstructorName(fields[i].pattern.value.name))
  }

  function VarOf(f: SPatternField): string {
    if f.pattern.Some? && f.pattern.value.SVarPattern? then f.pattern.value.name else f.name
  }

  predicate AllVars(named: seq<(string, Pattern)>) {
    forall i | 0 <= i < |named| :: named[i].1.PVar?
  }

  /** Variables match whatever is there, and the last to bind a name has it. */
  lemma {:induction false} LastHas<W>(I: Interp<W>, named: seq<(string, Pattern)>, vs: seq<(string, Value)>, l: nat)
    requires AllVars(named) && (forall i | 0 <= i < |named| :: FieldOf(vs, named[i].0).Some?) && l < |named|
    requires forall k | l < k < |named| :: named[k].1 != named[l].1
    ensures var m := MatchFields(I, PatternFields(named), vs);
            m.Some? && named[l].1.name in m.value && m.value[named[l].1.name] == FieldOf(vs, named[l].0).value
    decreases |named|
  {
    hide FieldOf;
    var f, rest := named[0], named[1..];
    assert named == [f] + rest;
    MatchFirst(I, f, rest, vs);
    AllMatch(I, rest, vs);
    if l > 0 {
      LastHas(I, rest, vs, l - 1);
    } else {
      OnlyBinders(I, rest, vs, f.1.name);
    }
  }

  lemma {:induction false} AllMatch<W>(I: Interp<W>, named: seq<(string, Pattern)>, vs: seq<(string, Value)>)
    requires AllVars(named) && forall i | 0 <= i < |named| :: FieldOf(vs, named[i].0).Some?
    ensures MatchFields(I, PatternFields(named), vs).Some?
    decreases |named|
  {
    hide FieldOf;
    if named != [] {
      assert named == [named[0]] + named[1..];
      MatchFirst(I, named[0], named[1..], vs);
      AllMatch(I, named[1..], vs);
    }
  }

  lemma OnlyBinders<W>(I: Interp<W>, named: seq<(string, Pattern)>, vs: seq<(string, Value)>, x: string)
    requires AllVars(named) && forall k | 0 <= k < |named| :: named[k].1 != PVar(x)
    ensures var m := MatchFields(I, PatternFields(named), vs); m.Some? ==> x !in m.value
  {
    FieldsKeys(I, PatternFields(named), vs);
    forall k | 0 <= k < |named| ensures x !in PatternNames(PatternFields(named)[k].pattern) {
      assert named[k].1.PVar?;
    }
    hide MatchFields, PatternNames;
  }

  /** A record whose fields are told apart by their values. */
  function Numbered(fields: seq<SPatternField>): seq<(string, Value)> {
    seq(|fields|, i requires 0 <= i < |fields| => (fields[i].name, VLit(Int(i))))
  }

  lemma {:induction false} FieldOfFirst(vs: seq<(string, Value)>, i: nat) returns (k: nat)
    requires i < |vs|
    ensures k <= i && vs[k].0 == vs[i].0 && FieldOf(vs, vs[i].0) == Some(vs[k].1)
    decreases |vs|
  {
    if vs[0].0 == vs[i].0 {
      k := 0;
    } else {
      k := FieldOfFirst(vs[1..], i - 1);
      k := k + 1;
    }
  }

  /** Fields of different names have different values there. */
  lemma NumberedApart(fields: seq<SPatternField>, i: nat, j: nat)
    requires i < |fields| && j < |fields|
    ensures FieldOf(Numbered(fields), fields[i].name).Some? && FieldOf(Numbered(fields), fields[j].name).Some?
    ensures fields[i].name != fields[j].name ==>
              FieldOf(Numbered(fields), fields[i].name) != FieldOf(Numbered(fields), fields[j].name)
  {
    var vs := Numbered(fields);
    var a := FieldOfFirst(vs, i);
    var b := FieldOfFirst(vs, j);
    hide FieldOf;
    assert vs[a] == (fields[a].name, VLit(Int(a))) && vs[b] == (fields[b].name, VLit(Int(b)));
  }

  ghost predicate SameMatches<W(!new)>(I: Interp<W>, p: SPattern) {
    forall v :: MatchPattern(I, CanonPattern(p), v) == MatchSurface(I, p, v)
  }

  /** A record pattern of variables matches alike once canonicalized, whatever the value, exactly when the last
      field to bind each name stays the last. */
  lemma FlatPatternExact<W(!new)>(I: Interp<W>, fields: seq<SPatternField>)
    requires Flat(fields)
    ensures SameMatches(I, SRecPattern(fields)) <==> LastStays(fields)
  {
    FlatSettled(fields);
    hide *;
    if LastStays(fields) {
      AllSettled(I, fields);
    } else {
      MovedDiffers(I, fields);
    }
  }

  lemma FlatSettled(fields: seq<SPatternField>)
    requires Flat(fields)
    ensures LastStays(fields) ==> Settled(SRecPattern(fields))
  {
    hide LastStays, IsConstructorName;
  }

  lemma AllSettled<W(!new)>(I: Interp<W>, fields: seq<SPatternField>)
    requires Settled(SRecPattern(fields))
    ensures SameMatches(I, SRecPattern(fields))
  {
    hide MatchPattern, MatchSurface, CanonPattern, Settled;
    forall v ensures MatchPattern(I, CanonPattern(SRecPattern(fields)), v) == MatchSurface(I, SRecPattern(fields), v) {
      PatternMeans(I, SRecPattern(fields), v);
    }
  }

  lemma FlatVars(fields: seq<SPatternField>)
    requires Flat(fields)
    ensures forall i | 0 <= i < |fields| ::
              NamedPatterns(fields)[i] == (fields[i].name, PVar(VarOf(fields[i]))) && FieldNames(fields[i]) == {VarOf(fields[i])}
  {
    hide IsConstructorName;
  }

  /** Two fields that bind one name, the last to do so moved before the other. */
  lemma MovedPair(fields: seq<SPatternField>) returns (i: nat, j: nat)
    requires Flat(fields) && !LastStays(fields)
    ensures i < j < |fields| && Less(fields[j].name, fields[i].name) && VarOf(fields[i]) == VarOf(fields[j])
    ensures forall k | j < k < |fields| :: VarOf(fields[k]) != VarOf(fields[j])
  {
    FlatVars(fields);
    hide FieldNames, VarOf, Less;
    var x: string;
    i, j :| 0 <= i < j < |fields| && Less(fields[j].name, fields[i].name)
            && !forall x | x in FieldNames(fields[i]) * FieldNames(fields[j]) :: exists k | j < k < |fields| :: x in FieldNames(fields[k]);
    x :| x in FieldNames(fields[i]) * FieldNames(fields[j]) && !exists k | j < k < |fields| :: x in FieldNames(fields[k]);
    assert x == VarOf(fields[i]) == VarOf(fields[j]);
    forall k | j < k < |fields| ensures VarOf(fields[k]) != x {
      assert x !in FieldNames(fields[k]);
    }
  }

  lemma MovedDiffers<W(!new)>(I: Interp<W>, fields: seq<SPatternField>)
    requires Flat(fields) && !LastStays(fields)
    ensures !SameMatches(I, SRecPattern(fields))
  {
    hide *;
    var i, j := MovedPair(fields);
    FlatVars(fields);
    var named, vs, x := NamedPatterns(fields), Numbered(fields), VarOf(fields[j]);
    var sorted := SortNamed(named);
    var m, b := NewLast(fields, i, j);
    Available(fields, named, sorted);
    SurfaceBinds(I, fields, named, vs, j);
    SortedBinds(I, fields, named, sorted, vs, m);
    NumberedApart(fields, b, j);
    RecordsDiffer(I, fields, sorted, vs, x);
  }

  /** The last place of the name in key order, and the field that comes there. */
  lemma NewLast(fields: seq<SPatternField>, i: nat, j: nat) returns (m: nat, b: nat)
    requires Flat(fields) && i < j < |fields| && Less(fields[j].name, fields[i].name) && VarOf(fields[i]) == VarOf(fields[j])
    ensures var sorted, p := SortNamed(NamedPatterns(fields)), PVar(VarOf(fields[j]));
            m < |sorted| && b < |fields| && sorted[m] == (fields[b].name, p) && fields[b].name != fields[j].name
            && forall k | m < k < |sorted| :: sorted[k].1 != p
  {
    hide *;
    FlatVars(fields);
    var named, x := NamedPatterns(fields), VarOf(fields[j]);
    var sorted := SortNamed(named);
    SortKeepsMembers(named);
    SortInOrder(named);
    assert named[i] in sorted;
    var a :| 0 <= a < |sorted| && sorted[a] == named[i];
    m := LastPlace(sorted, PVar(x), a);
    assert sorted[m] in named;
    b :| 0 <= b < |named| && named[b] == sorted[m];
    NotMovedName(sorted, fields, i, j, a, m, b);
  }

  lemma LastPlace(named: seq<(string, Pattern)>, p: Pattern, a: nat) returns (l: nat)
    requires a < |named| && named[a].1 == p
    ensures a <= l < |named| && named[l].1 == p && forall k | l < k < |named| :: named[k].1 != p
    decreases |named| - a
  {
    if k :| a < k < |named| && named[k].1 == p {
      l := LastPlace(named, p, k);
    } else {
      l := a;
    }
  }

  /** The last place of the name in key order is not of the moved field's name. */
  lemma NotMovedName(sorted: seq<(string, Pattern)>, fields: seq<SPatternField>, i: nat, j: nat, a: nat, m: nat, b: nat)
    requires InKeyOrder(sorted) && a <= m < |sorted| && i < |fields| && j < |fields| && b < |fields|
    requires sorted[a].0 == fields[i].name && sorted[m].0 == fields[b].name && Less(fields[j].name, fields[i].name)
    ensures fields[b].name != fields[j].name
  {
    hide Less;
    LessTotal(fields[i].name, fields[i].name);
  }

  lemma {:induction false} Available(fields: seq<SPatternField>, named: seq<(string, Pattern)>, sorted: seq<(string, Pattern)>)
    requires |named| == |fields| && (forall i | 0 <= i < |fields| :: named[i] == (fields[i].name, PVar(VarOf(fields[i]))))
    requires sorted == SortNamed(named)
    ensures AllVars(named) && AllVars(sorted)
    ensures forall k | 0 <= k < |named| :: FieldOf(Numbered(fields), named[k].0).Some?
    ensures forall k | 0 <= k < |sorted| :: FieldOf(Numbered(fields), sorted[k].0).Some?
  {
    hide FieldOf, VarOf, Numbered, SortNamed;
    SortKeepsMembers(named);
    forall k | 0 <= k < |named| ensures FieldOf(Numbered(fields), named[k].0).Some? { NumberedApart(fields, k, k); }
    forall k | 0 <= k < |sorted| ensures sorted[k].1.PVar? && FieldOf(Numbered(fields), sorted[k].0).Some? {
      assert sorted[k] in named;
      var b :| 0 <= b < |named| && named[b] == sorted[k];
    }
  }

  lemma SurfaceBinds<W>(I: Interp<W>, fields: seq<SPatternField>, named: seq<(string, Pattern)>, vs: seq<(string, Value)>, j: nat)
    requires |named| == |fields| && (forall i | 0 <= i < |fields| :: named[i] == (fields[i].name, PVar(VarOf(fields[i]))))
    requires AllVars(named) && (forall k | 0 <= k < |named| :: FieldOf(vs, named[k].0).Some?) && j < |fields|
    requires forall k | j < k < |fields| :: VarOf(fields[k]) != VarOf(fields[j])
    ensures var m := MatchFields(I, PatternFields(named), vs);
            m.Some? && VarOf(fields[j]) in m.value && m.value[VarOf(fields[j])] == FieldOf(vs, fields[j].name).value
  {
    hide FieldOf, VarOf, MatchFields;
    LastHas(I, named, vs, j);
  }

  lemma SortedBinds<W>(I: Interp<W>, fields: seq<SPatternField>, named: seq<(string, Pattern)>, sorted: seq<(string, Pattern)>,
                       vs: seq<(string, Value)>, m: nat)
    requires AllVars(sorted) && (forall k | 0 <= k < |sorted| :: FieldOf(vs, sorted[k].0).Some?) && m < |sorted|
    requires forall k | m < k < |sorted| :: sorted[k].1 != sorted[m].1
    ensures var r := MatchFields(I, PatternFields(sorted), vs);
            r.Some? && sorted[m].1.name in r.value && r.value[sorted[m].1.name] == FieldOf(vs, sorted[m].0).value
  {
    hide FieldOf, MatchFields;
    LastHas(I, sorted, vs, m);
  }

  lemma RecordsDiffer<W(!new)>(I: Interp<W>, fields: seq<SPatternField>, sorted: seq<(string, Pattern)>,
                               vs: seq<(string, Value)>, x: string)
    requires Flat(fields) && sorted == SortNamed(NamedPatterns(fields))
    requires MatchFields(I, PatternFields(sorted), vs) != MatchFields(I, PatternFields(NamedPatterns(fields)), vs)
    ensures !SameMatches(I, SRecPattern(fields))
  {
    var named := NamedPatterns(fields);
    FlatFieldsMean(I, fields, vs);
    hide MatchFields, MatchSurfaceFields, SortNamed, Flat;
    assert MatchSurface(I, SRecPattern(fields), VRec(vs)) == MatchSurfaceFields(I, fields, vs);
    assert MatchPattern(I, CanonPattern(SRecPattern(fields)), VRec(vs)) == MatchFields(I, PatternFields(sorted), vs);
  }

  lemma FlatFieldsMean<W>(I: Interp<W>, fields: seq<SPatternField>, vs: seq<(string, Value)>)
    requires Flat(fields)
    ensures MatchFields(I, PatternFields(NamedPatterns(fields)), vs) == MatchSurfaceFields(I, fields, vs)
  {
    FieldPatternsMean(I, fields, NamedPatterns(fields), vs);
  }

  lemma VarNames(f: string, x: string)
    requires !IsConstructorName(x)
    ensures FieldNames(SPatternField(f, Some(SVarPattern(x)))) == {x}
  {
    hide IsConstructorName;
    assert Bound(SVarPattern(x)) == {x};
  }

  /** `{ b: x, a: x }` and the like: the value of b is bound once the fields are in key order, and of a before. */
  lemma SortingRebinds<W(!new)>(I: Interp<W>, a: string, b: string, x: string)
    requires Less(a, b) && !IsConstructorName(x)
    ensures !SameMatches(I, SRecPattern([SPatternField(b, Some(SVarPattern(x))), SPatternField(a, Some(SVarPattern(x)))]))
  {
    var fields := [SPatternField(b, Some(SVarPattern(x))), SPatternField(a, Some(SVarPattern(x)))];
    VarNames(b, x);
    VarNames(a, x);
    hide Less, IsConstructorName, FieldNames;
    assert x in FieldNames(fields[0]) * FieldNames(fields[1]);
    assert !LastStays(fields);
    FlatPatternExact(I, fields);
  }
}
