/** The parser-combinator interpreter (crates/lex-bytecode/src/parser_runtime.rs).

    Closures are outside the model: whatever a run's closures answer, in the order they are called, is its
    script. A run that asks for more answers than its script holds is cut off, so every run that ends is
    the run of some script. */
module ParserRuntime {
  import opened Options
  import opened Utf8

  datatype Value =
    | Str(s: string)
    | Unit
    | Tuple(items: seq<Value>)
    | List(items: seq<Value>)
    | Variant(name: string, args: seq<Value>)
    | Record(fields: map<string, Value>)
    | Opaque(id: nat)

  /** Byte positions. A slice that does not start at a character stops the original with a panic. */
  datatype Outcome =
    | Done(value: Value, end: nat)
    | Failed(at: nat)
    | Panic
    | CutOff

  /** The closures' answers still to come; `None` is a failed call. */
  type Script = seq<Option<Value>>

  function Get(node: Value, name: string): (r: Option<Value>)
    ensures r.Some? ==> r.value < node
  {
    if node.Record? && name in node.fields then Some(node.fields[name]) else None
  }

  function KindOf(node: Value): Option<string> {
    var k := Get(node, "kind");
    if k.Some? && k.value.Str? then Some(k.value.s) else None
  }

  predicate IsDigit(b: Byte) { 0x30 <= b <= 0x39 }

  predicate IsAlpha(b: Byte) { 0x41 <= b <= 0x5A || 0x61 <= b <= 0x7A }

  predicate IsWhitespace(b: Byte) { b == 0x20 || b == 0x09 || b == 0x0A || b == 0x0C || b == 0x0D }

  function OneByte(input: string, pos: nat, accepts: Byte -> bool): Outcome {
    var bytes := Encode(input);
    if pos < |bytes| && accepts(bytes[pos]) && bytes[pos] < 0x80 then Done(Str([bytes[pos] as char]), pos + 1)
    else Failed(pos)
  }

  /** `bytes[pos..]` begins with the bytes of `want`. */
  predicate Matches(input: string, pos: nat, want: string) {
    var bytes, w := Encode(input), Encode(want);
    pos + |w| <= |bytes| && bytes[pos..pos + |w|] == w
  }

  /** A node with no node below it. */
  function RunLeaf(node: Value, kind: string, input: string, pos: nat): Outcome {
    if kind == "Char" then
      var want := Get(node, "ch");
      if want.Some? && want.value.Str? && Matches(input, pos, want.value.s)
      then Done(want.value, pos + |Encode(want.value.s)|) else Failed(pos)
    else if kind == "String" then
      var want := Get(node, "s");
      if want.None? || !want.value.Str? then Failed(pos)
      else if !IsBoundary(input, pos) then Panic
      else if Matches(input, pos, want.value.s) then Done(want.value, pos + |Encode(want.value.s)|) else Failed(pos)
    else if kind == "Digit" then OneByte(input, pos, IsDigit)
    else if kind == "Alpha" then OneByte(input, pos, IsAlpha)
    else if kind == "Whitespace" then OneByte(input, pos, IsWhitespace)
    else if kind == "Eof" then if pos == |Encode(input)| then Done(Unit, pos) else Failed(pos)
    else Failed(pos)
  }

  const SOME := "Some"
  const NONE := "None"

  predicate Forward(o: Outcome, input: string, pos: nat) {
    o.Done? ==> pos <= o.end && (o.end <= |Encode(input)| || o.end == pos)
  }

  function Run(node: Value, input: string, pos: nat, script: Script): (r: (Outcome, Script))
    ensures |r.1| <= |script| && Forward(r.0, input, pos)
    decreases |script|, node, 1, 0
  {
    var kind := KindOf(node);
    if kind.None? then (Failed(pos), script)
    else if kind.value == "Seq" then
      var a, b := Get(node, "a"), Get(node, "b");
      if a.None? || b.None? then (Failed(pos), script) else
        var (ra, s1) := Run(a.value, input, pos, script);
        if !ra.Done? then (ra, s1) else
          var (rb, s2) := Run(b.value, input, ra.end, s1);
          (if rb.Done? then Done(Tuple([ra.value, rb.value]), rb.end) else rb, s2)
    else if kind.value == "Alt" then
      var a, b := Get(node, "a"), Get(node, "b");
      if a.None? || b.None? then (Failed(pos), script) else
        var (ra, s1) := Run(a.value, input, pos, script);
        if ra.Failed? then Run(b.value, input, pos, s1) else (ra, s1)
    else if kind.value == "Many" then
      var p := Get(node, "p");
      if p.None? then (Failed(pos), script) else ManyFrom(p.value, input, pos, [], script)
    else if kind.value == "Optional" then
      var p := Get(node, "p");
      if p.None? then (Failed(pos), script) else
        var (r, s1) := Run(p.value, input, pos, script);
        (match r
         case Done(v, end) => Done(Variant(SOME, [v]), end)
         case Failed(_) => Done(Variant(NONE, []), pos)
         case _ => r, s1)
    else if kind.value == "Map" then
      var p, f := Get(node, "p"), Get(node, "f");
      if p.None? || f.None? then (Failed(pos), script) else
        var (r, s1) := Run(p.value, input, pos, script);
        if !r.Done? then (r, s1)
        else if s1 == [] then (CutOff, s1)
        else (if s1[0].Some? then Done(s1[0].value, r.end) else Failed(pos), s1[1..])
    else if kind.value == "AndThen" then
      var p, f := Get(node, "p"), Get(node, "f");
      if p.None? || f.None? then (Failed(pos), script) else
        var (r, s1) := Run(p.value, input, pos, script);
        if !r.Done? then (r, s1)
        else if s1 == [] then (CutOff, s1)
        else if s1[0].None? then (Failed(r.end), s1[1..])
        else Run(s1[0].value, input, r.end, s1[1..])
    else (RunLeaf(node, kind.value, input, pos), script)
  }

  function Left(input: string, cur: nat): nat {
    if cur <= |Encode(input)| then |Encode(input)| - cur else 0
  }

  /** Repetition: on while the parser succeeds and moves. */
  function ManyFrom(p: Value, input: string, cur: nat, values: seq<Value>, script: Script): (r: (Outcome, Script))
    ensures |r.1| <= |script| && Forward(r.0, input, cur)
    decreases |script|, p, 2, Left(input, cur)
  {
    var (r, s1) := Run(p, input, cur, script);
    match r
    case Done(v, end) => if end > cur then ManyFrom(p, input, end, values + [v], s1) else (Done(List(values), cur), s1)
    case Failed(_) => (Done(List(values), cur), s1)
    case _ => (r, s1)
  }

  // ---- safety ----

  /** Never a panic; what succeeds ends at a character boundary not before the start, what fails fails
      at one. */
  predicate Safe(o: Outcome, input: string, pos: nat) {
    match o
    case Done(_, end) => pos <= end && IsBoundary(input, end)
    case Failed(at) => pos <= at && IsBoundary(input, at)
    case Panic => false
    case CutOff => true
  }

  lemma LeafSafe(node: Value, kind: string, input: string, pos: nat)
    requires IsBoundary(input, pos)
    ensures Safe(RunLeaf(node, kind, input, pos), input, pos)
  {
    hide OneByte, IsBoundary;
    if kind == "Char" || kind == "String" {
      var want := Get(node, if kind == "Char" then "ch" else "s");
      if want.Some? && want.value.Str? && Matches(input, pos, want.value.s) {
        MatchEndsAtBoundary(input, pos, want.value.s);
      }
    } else {
      OneByteSafe(input, pos, IsDigit);
      OneByteSafe(input, pos, IsAlpha);
      OneByteSafe(input, pos, IsWhitespace);
    }
  }

  lemma OneByteSafe(input: string, pos: nat, accepts: Byte -> bool)
    requires IsBoundary(input, pos)
    ensures Safe(OneByte(input, pos, accepts), input, pos)
  {
    hide Encode, IsBoundary;
    if pos < |Encode(input)| && Encode(input)[pos] < 0x80 {
      AsciiIsWhole(input, pos);
    }
  }

  /** From a boundary inside the input every run is safe, whatever its closures answer. */
  lemma {:induction false} RunSafe(node: Value, input: string, pos: nat, script: Script)
    requires IsBoundary(input, pos)
    ensures Safe(Run(node, input, pos, script).0, input, pos)
    decreases |script|, node, 1, 0
  {
    hide Encode, IsBoundary;
    var kind := KindOf(node);
    if kind.Some? {
      var k := kind.value;
      var a, b, p := Get(node, "a"), Get(node, "b"), Get(node, "p");
      if k == "Seq" && a.Some? && b.Some? {
        RunSafe(a.value, input, pos, script);
        var (ra, s1) := Run(a.value, input, pos, script);
        if ra.Done? { RunSafe(b.value, input, ra.end, s1); }
      } else if k == "Alt" && a.Some? && b.Some? {
        RunSafe(a.value, input, pos, script);
        RunSafe(b.value, input, pos, Run(a.value, input, pos, script).1);
      } else if k == "Many" && p.Some? {
        ManySafe(p.value, input, pos, [], script);
      } else if (k == "Optional" || k == "Map") && p.Some? {
        RunSafe(p.value, input, pos, script);
      } else if k == "AndThen" && p.Some? {
        RunSafe(p.value, input, pos, script);
        var (r, s1) := Run(p.value, input, pos, script);
        if r.Done? && s1 != [] && s1[0].Some? { RunSafe(s1[0].value, input, r.end, s1[1..]); }
      } else {
        LeafSafe(node, k, input, pos);
      }
    }
  }

  lemma {:induction false} ManySafe(p: Value, input: string, cur: nat, values: seq<Value>, script: Script)
    requires IsBoundary(input, cur)
    ensures Safe(ManyFrom(p, input, cur, values, script).0, input, cur)
    decreases |script|, p, 2, Left(input, cur)
  {
    RunSafe(p, input, cur, script);
    var (r, s1) := Run(p, input, cur, script);
    if r.Done? && r.end > cur { ManySafe(p, input, r.end, values + [r.value], s1); }
  }

  // ---- repetition ----

  /** A point in a repetition: where it is, and the answers left. */
  datatype Stop = Stop(at: nat, script: Script)

  /** Each stop is one advancing success after the one before it. */
  ghost predicate Chain(p: Value, input: string, stops: seq<Stop>, values: seq<Value>) {
    |stops| == |values| + 1
    && forall i | 0 <= i < |values| ::
         Run(p, input, stops[i].at, stops[i].script) == (Done(values[i], stops[i + 1].at), stops[i + 1].script)
         && stops[i].at < stops[i + 1].at
  }

  /** From here the parser fails, or succeeds without moving. */
  predicate Stuck(p: Value, input: string, s: Stop) {
    var r := Run(p, input, s.at, s.script).0;
    r.Failed? || (r.Done? && r.end <= s.at)
  }

  /** A repetition that ends has collected a chain of advancing matches that cannot be continued. */
  lemma {:induction false} ManyIsChain(p: Value, input: string, cur: nat, values: seq<Value>, script: Script)
    returns (stops: seq<Stop>, more: seq<Value>)
    requires ManyFrom(p, input, cur, values, script).0.Done?
    ensures var (r, rest) := ManyFrom(p, input, cur, values, script);
            && Chain(p, input, stops, more) && stops[0] == Stop(cur, script)
            && r == Done(List(values + more), stops[|more|].at) && stops[|more|].at == r.end
            && rest == Run(p, input, r.end, stops[|more|].script).1
            && Stuck(p, input, stops[|more|])
    decreases |script|, Left(input, cur)
  {
    var (r, s1) := Run(p, input, cur, script);
    if r.Done? && r.end > cur {
      var later, tail := ManyIsChain(p, input, r.end, values + [r.value], s1);
      stops, more := [Stop(cur, script)] + later, [r.value] + tail;
      assert values + [r.value] + tail == values + more;
      hide Run;
    } else {
      stops, more := [Stop(cur, script)], [];
      assert values + [] == values;
    }
  }

  /** Such a chain is the only one: the repetition is greedy. */
  lemma {:induction false} ChainOnce(p: Value, input: string, ss: seq<Stop>, vs: seq<Value>, ts: seq<Stop>, ws: seq<Value>)
    requires Chain(p, input, ss, vs) && Chain(p, input, ts, ws) && ss[0] == ts[0]
    requires Stuck(p, input, ss[|vs|]) && Stuck(p, input, ts[|ws|])
    ensures vs == ws && ss == ts
    decreases |vs|
  {
    ChainMoves(p, input, ss, vs);
    ChainMoves(p, input, ts, ws);
    hide Run, Stuck;
    if vs == [] {
      assert ws == [];
    } else {
      assert ws != [];
      assert ss[1] == ts[1] && vs[0] == ws[0];
      ChainTail(p, input, ss, vs);
      ChainTail(p, input, ts, ws);
      ChainOnce(p, input, ss[1..], vs[1..], ts[1..], ws[1..]);
      assert ss == [ss[0]] + ss[1..] && ts == [ts[0]] + ts[1..];
      assert vs == [vs[0]] + vs[1..] && ws == [ws[0]] + ws[1..];
    }
  }

  lemma {:induction false} ChainMoves(p: Value, input: string, ss: seq<Stop>, vs: seq<Value>)
    requires Chain(p, input, ss, vs)
    ensures vs != [] ==> !Stuck(p, input, ss[0])
  {
    hide Run;
    if vs != [] {
      var first := vs[0];
      assert Run(p, input, ss[0].at, ss[0].script) == (Done(first, ss[1].at), ss[1].script);
    }
  }

  lemma ChainTail(p: Value, input: string, ss: seq<Stop>, vs: seq<Value>)
    requires Chain(p, input, ss, vs) && vs != []
    ensures Chain(p, input, ss[1..], vs[1..]) && ss[1..][|vs[1..]|] == ss[|vs|]
  {
    hide Run;
    forall i | 0 <= i < |vs[1..]|
      ensures Run(p, input, ss[1..][i].at, ss[1..][i].script) == (Done(vs[1..][i], ss[1..][i + 1].at), ss[1..][i + 1].script)
      ensures ss[1..][i].at < ss[1..][i + 1].at
    {
      assert ss[1..][i] == ss[i + 1] && ss[1..][i + 1] == ss[i + 2] && vs[1..][i] == vs[i + 1];
    }
  }

  // ---- the interpreter ----

  method RunParser(node: Value, input: string, pos: nat, script: Script) returns (o: Outcome, rest: Script)
    ensures (o, rest) == Run(node, input, pos, script)
    decreases |script|, node, 1, 0
  {
    var kind := KindOf(node);
    if kind.None? {
      return Failed(pos), script;
    }
    var a, b, p, f := Get(node, "a"), Get(node, "b"), Get(node, "p"), Get(node, "f");
    match kind.value {
      case "Seq" =>
        if a.None? || b.None? { return Failed(pos), script; }
        o, rest := RunParser(a.value, input, pos, script);
        if o.Done? {
          var first := o;
          o, rest := RunParser(b.value, input, first.end, rest);
          if o.Done? { o := Done(Tuple([first.value, o.value]), o.end); }
        }
      case "Alt" =>
        if a.None? || b.None? { return Failed(pos), script; }
        o, rest := RunParser(a.value, input, pos, script);
        if o.Failed? { o, rest := RunParser(b.value, input, pos, rest); }
      case "Many" =>
        if p.None? { return Failed(pos), script; }
        o, rest := Repeat(p.value, input, pos, script);
      case "Optional" =>
        if p.None? { return Failed(pos), script; }
        o, rest := RunParser(p.value, input, pos, script);
        if o.Done? {
          o := Done(Variant(SOME, [o.value]), o.end);
        } else if o.Failed? {
          o := Done(Variant(NONE, []), pos);
        }
      case "Map" =>
        if p.None? || f.None? { return Failed(pos), script; }
        o, rest := RunParser(p.value, input, pos, script);
        if o.Done? {
          if rest == [] { return CutOff, rest; }
          o := if rest[0].Some? then Done(rest[0].value, o.end) else Failed(pos);
          rest := rest[1..];
        }
      case "AndThen" =>
        if p.None? || f.None? { return Failed(pos), script; }
        o, rest := RunParser(p.value, input, pos, script);
        if o.Done? {
          if rest == [] { return CutOff, rest; }
          if rest[0].None? { return Failed(o.end), rest[1..]; }
          o, rest := RunParser(rest[0].value, input, o.end, rest[1..]);
        }
      case other => o, rest := RunLeaf(node, other, input, pos), script;
    }
  }

  /** The loop of a repetition: it ends because every turn but the last moves on. */
  method Repeat(p: Value, input: string, pos: nat, script: Script) returns (o: Outcome, rest: Script)
    ensures (o, rest) == ManyFrom(p, input, pos, [], script)
    decreases |script|, p, 2, 0
  {
    var cur, values := pos, [];
    rest := script;
    while true
      invariant ManyFrom(p, input, cur, values, rest) == ManyFrom(p, input, pos, [], script)
      invariant |rest| <= |script|
      decreases Left(input, cur)
    {
      var r: Outcome;
      r, rest := RunParser(p, input, cur, rest);
      if r.Done? && r.end > cur {
        values := values + [r.value];
        cur := r.end;
      } else {
        o := if r.Panic? || r.CutOff? then r else Done(List(values), cur);
        return;
      }
    }
  }
}
