/** What the parser combinators stand for, on characters and with no positions: a parser takes a value off the
    front of a text, or refuses (crates/lex-bytecode/src/parser_runtime.rs:1-171). The interpreter, which
    works on byte offsets, does just that. */
module ParserReads {
  import opened Options
  import opened Utf8
  import opened ParserRuntime

  /** `Refused`: what was left where the parser that failed stood. */
  datatype Reading = Got(value: Value, rest: string) | Refused(rest: string) | Cut

  predicate DecimalDigit(c: char) { c in "0123456789" }

  predicate AsciiLetter(c: char) { 'a' <= c <= 'z' || 'A' <= c <= 'Z' }

  predicate Blank(c: char) { c in " \t\n\r\U{0C}" }

  function OneOf(accepts: char -> bool, text: string): Reading {
    if text != "" && accepts(text[0]) then Got(Str([text[0]]), text[1..]) else Refused(text)
  }

  /** The text wanted, if it comes first. */
  function Literally(want: Option<Value>, text: string): Reading {
    if want.Some? && want.value.Str? && want.value.s <= text then Got(want.value, text[|want.value.s|..]) else Refused(text)
  }

  function ReadLeaf(node: Value, kind: string, text: string): Reading {
    match kind
    case "Char" => Literally(Get(node, "ch"), text)
    case "String" => Literally(Get(node, "s"), text)
    case "Digit" => OneOf(DecimalDigit, text)
    case "Alpha" => OneOf(AsciiLetter, text)
    case "Whitespace" => OneOf(Blank, text)
    case "Eof" => if text == "" then Got(Unit, text) else Refused(text)
    case _ => Refused(text)
  }

  predicate EndOf(rest: string, text: string) {
    |rest| <= |text| && text[|text| - |rest|..] == rest
  }

  lemma EndOfEnd(a: string, b: string, c: string)
    requires EndOf(a, b) && EndOf(b, c)
    ensures EndOf(a, c)
  {
    assert b[|b| - |a|..] == c[|c| - |b|..][|b| - |a|..] == c[|c| - |a|..];
  }

  /** First one parser, then another on what it left; the other only when the first refuses; as often as it
      can. A closure's answer is the next of the script. */
  function Read(node: Value, text: string, script: Script): (r: (Reading, Script))
    ensures |r.1| <= |script| && (!r.0.Cut? ==> |r.0.rest| <= |text|)
    decreases |script|, node, 1, 0
  {
    var a, b, p, f := Get(node, "a"), Get(node, "b"), Get(node, "p"), Get(node, "f");
    match KindOf(node)
    case None => (Refused(text), script)
    case Some("Seq") =>
      if a.None? || b.None? then (Refused(text), script) else
        var (first, s1) := Read(a.value, text, script);
        if !first.Got? then (first, s1) else
          var (second, s2) := Read(b.value, first.rest, s1);
          (if second.Got? then Got(Tuple([first.value, second.value]), second.rest) else second, s2)
    case Some("Alt") =>
      if a.None? || b.None? then (Refused(text), script) else
        var (first, s1) := Read(a.value, text, script);
        if first.Refused? then Read(b.value, text, s1) else (first, s1)
    case Some("Many") => if p.None? then (Refused(text), script) else ReadMany(p.value, text, [], script)
    case Some("Optional") =>
      if p.None? then (Refused(text), script) else
        var (r, s1) := Read(p.value, text, script);
        (match r
         case Got(v, rest) => Got(Variant(SOME, [v]), rest)
         case Refused(_) => Got(Variant(NONE, []), text)
         case Cut => Cut, s1)
    case Some("Map") =>
      if p.None? || f.None? then (Refused(text), script) else
        var (r, s1) := Read(p.value, text, script);
        if !r.Got? then (r, s1)
        else if s1 == [] then (Cut, s1)
        else (if s1[0].Some? then Got(s1[0].value, r.rest) else Refused(text), s1[1..])
    case Some("AndThen") =>
      if p.None? || f.None? then (Refused(text), script) else
        var (r, s1) := Read(p.value, text, script);
        if !r.Got? then (r, s1)
        else if s1 == [] then (Cut, s1)
        else if s1[0].None? then (Refused(r.rest), s1[1..])
        else Read(s1[0].value, r.rest, s1[1..])
    case Some(kind) =>
      var r := ReadLeaf(node, kind, text);
      (r, script)
  }

  function ReadMany(p: Value, text: string, values: seq<Value>, script: Script): (r: (Reading, Script))
    ensures |r.1| <= |script| && (!r.0.Cut? ==> |r.0.rest| <= |text|)
    decreases |script|, p, 2, |text|
  {
    var (r, s1) := Read(p, text, script);
    match r
    case Got(v, rest) => if |rest| < |text| then ReadMany(p, rest, values + [v], s1) else (Got(List(values), text), s1)
    case Refused(_) => (Got(List(values), text), s1)
    case Cut => (Cut, s1)
  }

  // ---- offsets ----

  /** The outcome says of `pre + text`, from behind `pre`, what the reading says of `text`. */
  predicate Says(o: Outcome, pre: string, text: string, r: Reading) {
    match r
    case Got(v, rest) => EndOf(rest, text) && o.Done? && o.value == v && o.end + |Encode(rest)| == |Encode(pre + text)|
    case Refused(rest) => EndOf(rest, text) && o.Failed? && o.at + |Encode(rest)| == |Encode(pre + text)|
    case Cut => o.CutOff?
  }

  /** The bytes a leaf accepts are those of the characters it stands for. */
  lemma SameBytes(b: Byte)
    requires b < 0x80
    ensures IsDigit(b) <==> DecimalDigit(b as char)
    ensures IsAlpha(b) <==> AsciiLetter(b as char)
    ensures IsWhitespace(b) <==> Blank(b as char)
  {
    var digits, blanks := "0123456789", " \t\n\r\U{0C}";
    if IsDigit(b) { assert digits[b - 0x30] == b as char; }
    if DecimalDigit(b as char) {
      var i :| 0 <= i < |digits| && digits[i] == b as char;
    }
  }

  lemma NotAscii(c: char)
    requires c as int >= 0x80
    ensures !DecimalDigit(c) && !AsciiLetter(c) && !Blank(c)
  {
  }

  lemma EndSplits(pre: string, text: string, rest: string) returns (taken: string)
    requires EndOf(rest, text)
    ensures text == taken + rest && pre + text == (pre + taken) + rest
    ensures |Encode(pre + text)| == |Encode(pre + taken)| + |Encode(rest)|
    ensures |Encode(rest)| <= |Encode(text)| && (|rest| < |text| <==> |Encode(rest)| < |Encode(text)|)
    ensures |Encode(pre + text)| == |Encode(pre)| + |Encode(text)|
  {
    taken := text[..|text| - |rest|];
    assert text == taken + rest;
    assert pre + text == (pre + taken) + rest;
    EncodeAppend(pre + taken, rest);
    EncodeAppend(taken, rest);
    EncodeAppend(pre, text);
    assert |taken| == 0 <==> taken == "";
  }

  // ---- leaves ----

  lemma FirstByte(text: string)
    requires text != ""
    ensures Encode(text) != [] && (Encode(text)[0] < 0x80 <==> text[0] as int < 0x80)
    ensures text[0] as int < 0x80 ==> Encode(text)[0] == text[0] as int && |Encode(text)| == 1 + |Encode(text[1..])|
  {
    FirstOf(text[0]);
    hide EncodeChar;
    assert Encode(text) == EncodeChar(text[0]) + Encode(text[1..]);
    assert Encode(text)[0] == EncodeChar(text[0])[0];
  }

  lemma FirstOf(c: char)
    ensures EncodeChar(c)[0] < 0x80 <==> c as int < 0x80
    ensures c as int < 0x80 ==> EncodeChar(c) == [c as int]
  {
  }

  lemma OneByteReads(accepts: Byte -> bool, takes: char -> bool, pre: string, text: string)
    requires forall b: Byte | b < 0x80 :: accepts(b) <==> takes(b as char)
    requires forall c: char | c as int >= 0x80 :: !takes(c)
    ensures Says(OneByte(pre + text, |Encode(pre)|, accepts), pre, text, OneOf(takes, text))
  {
    hide Encode;
    PreBoundary(pre, text);
    EncodeAppend(pre, text);
    if text != "" {
      FirstByte(text);
      assert Encode(pre + text)[|Encode(pre)|] == Encode(text)[0];
    }
  }

  lemma MatchReads(want: string, pre: string, text: string)
    ensures Matches(pre + text, |Encode(pre)|, want) <==> want <= text
    ensures want <= text ==> |Encode(pre + text)| == |Encode(pre)| + |Encode(want)| + |Encode(text[|want|..])|
  {
    EncodeAppend(pre, text);
    var bytes, pos := Encode(pre + text), |Encode(pre)|;
    if want <= text {
      assert text == want + text[|want|..];
      EncodeAppend(want, text[|want|..]);
      assert bytes[pos..pos + |Encode(want)|] == Encode(want);
    }
    if Matches(pre + text, pos, want) {
      assert Encode(text) == bytes[pos..];
      assert Encode(text)[..|Encode(want)|] == bytes[pos..pos + |Encode(want)|];
      EncodingPrefix(want, text);
    }
  }

  lemma PreBoundary(pre: string, text: string)
    ensures IsBoundary(pre + text, |Encode(pre)|) && |Encode(pre)| <= |Encode(pre + text)|
    ensures |Encode(pre)| == |Encode(pre + text)| <==> text == ""
    ensures |Encode("")| == 0 && EndOf(text, text)
    ensures |Encode(pre + text)| == |Encode(pre)| + |Encode(text)|
  {
    EncodeAppend(pre, text);
    assert (pre + text)[..|pre|] == pre;
    OffsetIsBoundary(pre + text, |pre|);
  }

  lemma WantedReads(want: Option<Value>, pre: string, text: string)
    requires want.Some? && want.value.Str?
    ensures Matches(pre + text, |Encode(pre)|, want.value.s) ==>
              Says(Done(want.value, |Encode(pre)| + |Encode(want.value.s)|), pre, text, Literally(want, text))
    ensures !Matches(pre + text, |Encode(pre)|, want.value.s) ==> Literally(want, text) == Refused(text)
  {
    hide Encode, Matches;
    PreBoundary(pre, text);
    MatchReads(want.value.s, pre, text);
  }

  lemma RefusedHere(pre: string, text: string)
    ensures Says(Failed(|Encode(pre)|), pre, text, Refused(text))
    ensures text == "" ==> Says(Done(Unit, |Encode(pre)|), pre, text, Got(Unit, text))
  {
    PreBoundary(pre, text);
  }

  lemma BytesRead(pre: string, text: string)
    ensures Says(OneByte(pre + text, |Encode(pre)|, IsDigit), pre, text, OneOf(DecimalDigit, text))
    ensures Says(OneByte(pre + text, |Encode(pre)|, IsAlpha), pre, text, OneOf(AsciiLetter, text))
    ensures Says(OneByte(pre + text, |Encode(pre)|, IsWhitespace), pre, text, OneOf(Blank, text))
  {
    hide *;
    forall b: Byte | b < 0x80
      ensures IsDigit(b) <==> DecimalDigit(b as char)
      ensures IsAlpha(b) <==> AsciiLetter(b as char)
      ensures IsWhitespace(b) <==> Blank(b as char)
    {
      SameBytes(b);
    }
    forall c: char | c as int >= 0x80 ensures !DecimalDigit(c) && !AsciiLetter(c) && !Blank(c) { NotAscii(c); }
    OneByteReads(IsDigit, DecimalDigit, pre, text);
    OneByteReads(IsAlpha, AsciiLetter, pre, text);
    OneByteReads(IsWhitespace, Blank, pre, text);
  }

  lemma LeafReads(node: Value, kind: string, pre: string, text: string)
    ensures Says(RunLeaf(node, kind, pre + text, |Encode(pre)|), pre, text, ReadLeaf(node, kind, text))
  {
    hide OneByte, OneOf, Matches, IsBoundary, Encode, Says, Get, IsDigit, IsAlpha, IsWhitespace, DecimalDigit, AsciiLetter, Blank;
    PreBoundary(pre, text);
    RefusedHere(pre, text);
    BytesRead(pre, text);
    if kind == "Char" || kind == "String" {
      var want := Get(node, if kind == "Char" then "ch" else "s");
      if want.Some? && want.value.Str? { WantedReads(want, pre, text); }
    }
  }

  // ---- whole parsers ----

  /** Behind whatever came before, the interpreter reads what the parser reads from the rest of the text, is at the
      byte where that ends, and has asked its closures as often. */
  lemma {:induction false} RunReads(node: Value, pre: string, text: string, script: Script)
    ensures var (o, s1) := Run(node, pre + text, |Encode(pre)|, script);
            var (r, s2) := Read(node, text, script);
            s1 == s2 && Says(o, pre, text, r)
    decreases |script|, node, 1, 1
  {
    hide Encode, Run, Read, Says;
    var kind := KindOf(node);
    if kind == Some("Seq") {
      SeqReads(node, pre, text, script);
    } else if kind == Some("Alt") {
      AltReads(node, pre, text, script);
    } else if kind == Some("Many") || kind == Some("Optional") || kind == Some("Map") || kind == Some("AndThen") {
      OneReads(node, pre, text, script);
    } else {
      OtherReads(node, pre, text, script);
    }
  }

  lemma OtherReads(node: Value, pre: string, text: string, script: Script)
    requires KindOf(node).Some? ==>
               KindOf(node).value !in ["Seq", "Alt", "Many", "Optional", "Map", "AndThen"]
    ensures var (o, s1) := Run(node, pre + text, |Encode(pre)|, script);
            var (r, s2) := Read(node, text, script);
            s1 == s2 && Says(o, pre, text, r)
  {
    PreBoundary(pre, text);
    hide Encode, RunLeaf, ReadLeaf, Get;
    if KindOf(node).Some? { LeafReads(node, KindOf(node).value, pre, text); }
  }

  lemma {:induction false} SeqReads(node: Value, pre: string, text: string, script: Script)
    requires KindOf(node) == Some("Seq")
    ensures var (o, s1) := Run(node, pre + text, |Encode(pre)|, script);
            var (r, s2) := Read(node, text, script);
            s1 == s2 && Says(o, pre, text, r)
    decreases |script|, node, 1, 0
  {
    PreBoundary(pre, text);
    hide Encode, RunLeaf, ReadLeaf;
    var a, b := Get(node, "a"), Get(node, "b");
    if a.Some? && b.Some? {
      RunReads(a.value, pre, text, script);
      var (r, s1) := Read(a.value, text, script);
      if r.Got? {
        RunReadsOn(b.value, pre, text, r.rest, Run(a.value, pre + text, |Encode(pre)|, script).0.end, s1);
      }
    }
  }

  lemma {:induction false} AltReads(node: Value, pre: string, text: string, script: Script)
    requires KindOf(node) == Some("Alt")
    ensures var (o, s1) := Run(node, pre + text, |Encode(pre)|, script);
            var (r, s2) := Read(node, text, script);
            s1 == s2 && Says(o, pre, text, r)
    decreases |script|, node, 1, 0
  {
    PreBoundary(pre, text);
    hide Encode, RunLeaf, ReadLeaf;
    var a, b := Get(node, "a"), Get(node, "b");
    if a.Some? && b.Some? {
      RunReads(a.value, pre, text, script);
      RunReads(b.value, pre, text, Read(a.value, text, script).1);
    }
  }

  lemma {:induction false} OneReads(node: Value, pre: string, text: string, script: Script)
    requires KindOf(node).Some? && KindOf(node).value in ["Many", "Optional", "Map", "AndThen"]
    ensures var (o, s1) := Run(node, pre + text, |Encode(pre)|, script);
            var (r, s2) := Read(node, text, script);
            s1 == s2 && Says(o, pre, text, r)
    decreases |script|, node, 1, 0
  {
    hide Encode, RunLeaf, ReadLeaf;
    var p := Get(node, "p");
    PreBoundary(pre, text);
    if p.Some? {
      if KindOf(node) == Some("Many") {
        ManyReads(p.value, pre, text, [], script);
      } else {
        RunReads(p.value, pre, text, script);
        var (r, s1) := Read(p.value, text, script);
        if KindOf(node) == Some("AndThen") && r.Got? && s1 != [] && s1[0].Some? {
          RunReadsOn(s1[0].value, pre, text, r.rest, Run(p.value, pre + text, |Encode(pre)|, script).0.end, s1[1..]);
        }
      }
    }
  }

  /** From where a first parser ended. */
  lemma {:induction false} RunReadsOn(node: Value, pre: string, text: string, rest: string, pos: nat, script: Script)
    requires EndOf(rest, text) && pos + |Encode(rest)| == |Encode(pre + text)|
    ensures var (o, s1) := Run(node, pre + text, pos, script);
            var (r, s2) := Read(node, rest, script);
            s1 == s2 && Says(o, pre, text, r)
    decreases |script|, node, 2, 0
  {
    hide Encode, Run, Read;
    var taken := EndSplits(pre, text, rest);
    RunReads(node, pre + taken, rest, script);
    SaysBehind(Run(node, pre + text, pos, script).0, pre, text, taken, rest, Read(node, rest, script).0);
  }

  /** What is said behind a longer text is said behind the shorter one. */
  lemma SaysBehind(o: Outcome, pre: string, text: string, taken: string, rest: string, r: Reading)
    requires EndOf(rest, text) && pre + text == (pre + taken) + rest && Says(o, pre + taken, rest, r)
    ensures Says(o, pre, text, r)
  {
    hide Encode;
    if !r.Cut? { EndOfEnd(r.rest, rest, text); }
  }

  lemma StopsHere(pre: string, text: string, values: seq<Value>)
    ensures Says(Done(List(values), |Encode(pre)|), pre, text, Got(List(values), text))
  {
    PreBoundary(pre, text);
  }

  /** Whether a match moved on. */
  lemma Moved(o: Outcome, pre: string, text: string, r: Reading) returns (taken: string)
    requires Says(o, pre, text, r) && r.Got?
    ensures o.Done? && o.value == r.value && EndOf(r.rest, text)
    ensures pre + text == (pre + taken) + r.rest && o.end == |Encode(pre + taken)|
    ensures o.end > |Encode(pre)| <==> |r.rest| < |text|
  {
    taken := EndSplits(pre, text, r.rest);
  }

  lemma {:induction false} ManyReads(p: Value, pre: string, text: string, values: seq<Value>, script: Script)
    ensures var (o, s1) := ManyFrom(p, pre + text, |Encode(pre)|, values, script);
            var (r, s2) := ReadMany(p, text, values, script);
            s1 == s2 && Says(o, pre, text, r)
    decreases |script|, p, 2, |text|
  {
    hide Encode, Run, Read, Says;
    RunReads(p, pre, text, script);
    StopsHere(pre, text, values);
    var (o, s0) := Run(p, pre + text, |Encode(pre)|, script);
    var (r, s1) := Read(p, text, script);
    Kinds(o, pre, text, r);
    if r.Got? {
      var taken := Moved(o, pre, text, r);
      if |r.rest| < |text| {
        ManyReads(p, pre + taken, r.rest, values + [r.value], s1);
        var (q, s2) := ManyFrom(p, pre + text, |Encode(pre + taken)|, values + [r.value], s1);
        SaysBehind(q, pre, text, taken, r.rest, ReadMany(p, r.rest, values + [r.value], s1).0);
      }
    }
  }

  lemma Kinds(o: Outcome, pre: string, text: string, r: Reading)
    requires Says(o, pre, text, r)
    ensures (r.Got? <==> o.Done?) && (r.Refused? <==> o.Failed?) && (r.Cut? <==> o.CutOff?)
    ensures r.Cut? ==> forall t :: Says(o, pre, t, r)
  {
  }
}
