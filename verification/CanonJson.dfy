/** Canonical JSON (crates/lex-ast/src/canon_json.rs) and the program bytes built on it
    (crates/lex-ast/src/canonical_format.rs). */
module CanonJson {
  import opened Options
  import opened Utf8

  /** A number is known by the text it renders to. */
  datatype Json =
    | Null
    | Bool(b: bool)
    | Number(token: string)
    | Str(s: string)
    | Array(items: seq<Json>)
    | Object(members: map<string, Json>)

  predicate IsNumberChar(c: char) {
    '0' <= c <= '9' || c == '-' || c == '+' || c == '.' || c == 'e' || c == 'E'
  }

  predicate StartsNumber(c: char) {
    '0' <= c <= '9' || c == '-'
  }

  /** What number renderings look like. */
  predicate IsToken(t: string) {
    t != "" && StartsNumber(t[0]) && forall i | 0 <= i < |t| :: IsNumberChar(t[i])
  }

  predicate Valid(v: Json) {
    match v
    case Number(token) => IsToken(token)
    case Array(items) => forall i | 0 <= i < |items| :: Valid(items[i])
    case Object(members) => forall k | k in members :: Valid(members[k])
    case _ => true
  }

  // ---- key order ----

  predicate Sorted(keys: seq<string>) {
    forall i, j | 0 <= i < j < |keys| :: Less(keys[i], keys[j])
  }

  function Members(keys: seq<string>): set<string> {
    set i | 0 <= i < |keys| :: keys[i]
  }

  ghost predicate IsLeast(k: string, keys: set<string>) {
    k in keys && forall j | j in keys :: j == k || Less(k, j)
  }

  lemma {:induction false} LeastExists(keys: set<string>)
    requires keys != {}
    ensures exists k :: IsLeast(k, keys)
    decreases |keys|
  {
    var k :| k in keys;
    var rest := keys - {k};
    assert keys == rest + {k};
    if rest == {} {
      assert IsLeast(k, keys);
    } else {
      LeastExists(rest);
      var least :| IsLeast(least, rest);
      LessTotal(k, least);
      if Less(least, k) {
        assert IsLeast(least, keys);
      } else {
        forall j | j in keys && j != k ensures Less(k, j) {
          if j != least { LessTransitive(k, least, j); }
        }
        assert IsLeast(k, keys);
      }
    }
  }

  ghost function Least(keys: set<string>): (k: string)
    requires keys != {}
    ensures IsLeast(k, keys)
  {
    LeastExists(keys);
    var k :| IsLeast(k, keys);
    k
  }

  ghost function SortedKeys(keys: set<string>): (r: seq<string>)
    ensures Sorted(r) && Members(r) == keys && |r| == |keys|
    decreases |keys|
  {
    if keys == {} then [] else
      var k := Least(keys);
      SortedCons(k, SortedKeys(keys - {k}), keys);
      [k] + SortedKeys(keys - {k})
  }

  lemma SortedCons(k: string, rest: seq<string>, keys: set<string>)
    requires IsLeast(k, keys) && Sorted(rest) && Members(rest) == keys - {k}
    ensures Sorted([k] + rest) && Members([k] + rest) == keys
  {
    MembersCons(k, rest);
    var all := [k] + rest;
    forall i, j | 0 <= i < j < |all| ensures Less(all[i], all[j]) {
      assert all[j] == rest[j - 1] && rest[j - 1] in Members(rest);
      if i > 0 { assert all[i] == rest[i - 1]; }
    }
  }

  lemma MembersCons(k: string, rest: seq<string>)
    ensures Members([k] + rest) == {k} + Members(rest)
  {
    var all := [k] + rest;
    forall x | x in {k} + Members(rest) ensures x in Members(all) {
      if x == k {
        assert all[0] == x;
      } else {
        var i :| 0 <= i < |rest| && rest[i] == x;
        assert all[i + 1] == x;
      }
    }
  }

  lemma {:induction false} SortedOnce(a: seq<string>, b: seq<string>)
    requires Sorted(a) && Sorted(b) && Members(a) == Members(b)
    ensures a == b
    decreases |a|
  {
    if a == [] {
      NonEmpty(b);
    } else {
      NonEmpty(a);
      assert a[0] in Members(b);
      assert b[0] in Members(a);
      LessTotal(a[0], b[0]);
      assert a == [a[0]] + a[1..] && b == [b[0]] + b[1..];
      MembersCons(a[0], a[1..]);
      MembersCons(b[0], b[1..]);
      FirstNotAgain(a);
      FirstNotAgain(b);
      SortedOnce(a[1..], b[1..]);
    }
  }

  lemma NonEmpty(a: seq<string>)
    ensures a != [] ==> a[0] in Members(a)
  {
  }

  lemma FirstNotAgain(a: seq<string>)
    requires Sorted(a) && a != []
    ensures a[0] !in Members(a[1..])
  {
    LessTotal(a[0], a[0]);
    forall i | 0 <= i < |a[1..]| ensures a[1..][i] != a[0] {
      assert Less(a[0], a[i + 1]);
    }
  }

  // ---- the text ----

  function HexDigit(n: nat): char
    requires n < 16
  {
    if n < 10 then '0' + n as char else 'a' + (n - 10) as char
  }

  function EscapeChar(c: char): (e: string)
    ensures e != ""
  {
    if c == '\"' then "\\\""
    else if c == '\\' then "\\\\"
    else if c == '\n' then "\\n"
    else if c == '\r' then "\\r"
    else if c == '\t' then "\\t"
    else if c as int == 0x08 then "\\b"
    else if c as int == 0x0C then "\\f"
    else if c as int < 0x20 then ['\\', 'u', '0', '0', HexDigit(c as int / 16), HexDigit(c as int % 16)]
    else [c]
  }

  function Escape(s: string): string {
    if s == "" then "" else EscapeChar(s[0]) + Escape(s[1..])
  }

  function PrintString(s: string): string {
    "\"" + Escape(s) + "\""
  }

  ghost function PrintItems(items: seq<Json>): string
    requires items != []
    decreases items, 2, 0
  {
    Print(items[0]) + if |items| == 1 then "" else "," + PrintItems(items[1..])
  }

  ghost function PrintMembers(keys: seq<string>, v: Json): string
    requires v.Object? && keys != [] && forall k | k in keys :: k in v.members
    decreases v, 0, |keys|
  {
    PrintString(keys[0]) + ":" + Print(v.members[keys[0]])
    + if |keys| == 1 then "" else "," + PrintMembers(keys[1..], v)
  }

  lemma AllMembers(members: map<string, Json>)
    ensures forall k | k in SortedKeys(members.Keys) :: k in members
    ensures members.Keys != {} ==> SortedKeys(members.Keys) != []
  {
    var keys := SortedKeys(members.Keys);
    forall k | k in keys ensures k in members {
      assert k in Members(keys);
    }
  }

  /** The canonical text. */
  ghost function Print(v: Json): string
    decreases v, 1, 0
  {
    match v
    case Null => "null"
    case Bool(b) => if b then "true" else "false"
    case Number(token) => token
    case Str(s) => PrintString(s)
    case Array(items) => "[" + (if items == [] then "" else PrintItems(items)) + "]"
    case Object(members) =>
      AllMembers(members);
      "{" + (if members.Keys == {} then "" else PrintMembers(SortedKeys(members.Keys), v)) + "}"
  }

  // ---- writing ----

  method WriteString(s: string, before: string) returns (out: string)
    ensures out == before + PrintString(s)
  {
    out := before + "\"";
    for i := 0 to |s|
      invariant out + Escape(s[i..]) == before + "\"" + Escape(s)
    {
      assert s[i..][0] == s[i] && s[i..][1..] == s[i + 1..];
      Glue(out, EscapeChar(s[i]), Escape(s[i + 1..]));
      out := out + EscapeChar(s[i]);
    }
    assert out + "" == out && s[|s|..] == "";
    Enclosed(before, "\"", Escape(s), "\"");
    out := out + "\"";
  }

  lemma Glue(a: string, b: string, c: string)
    ensures a + b + c == a + (b + c)
  {
  }

  lemma Enclosed(before: string, open: string, inside: string, close: string)
    ensures before + open + inside + close == before + (open + inside + close)
  {
  }

  /** `map.keys().collect()` and `sort()`: each key goes before the first one above it. */
  method SortKeys(keys: set<string>) returns (sorted: seq<string>)
    ensures sorted == SortedKeys(keys)
  {
    sorted := [];
    var left := keys;
    while left != {}
      invariant Sorted(sorted) && left <= keys && Members(sorted) == keys - left
      decreases |left|
    {
      var k :| k in left;
      sorted := InsertKey(sorted, k);
      left := left - {k};
    }
    SortedOnce(sorted, SortedKeys(keys));
  }

  method InsertKey(sorted: seq<string>, k: string) returns (more: seq<string>)
    requires Sorted(sorted) && k !in Members(sorted)
    ensures Sorted(more) && Members(more) == Members(sorted) + {k}
  {
    var i := 0;
    while i < |sorted| && Less(sorted[i], k)
      invariant i <= |sorted| && forall j | 0 <= j < i :: Less(sorted[j], k)
    {
      i := i + 1;
    }
    more := sorted[..i] + [k] + sorted[i..];
    InsertedSorted(sorted, k, i);
  }

  lemma InsertedSorted(sorted: seq<string>, k: string, i: nat)
    requires Sorted(sorted) && k !in Members(sorted) && i <= |sorted|
    requires forall j | 0 <= j < i :: Less(sorted[j], k)
    requires i < |sorted| ==> !Less(sorted[i], k)
    ensures var more := sorted[..i] + [k] + sorted[i..]; Sorted(more) && Members(more) == Members(sorted) + {k}
  {
    hide Less;
    var more := sorted[..i] + [k] + sorted[i..];
    forall j | i <= j < |sorted| ensures Less(k, sorted[j]) {
      assert sorted[i] in Members(sorted);
      LessTotal(k, sorted[i]);
      if j > i { LessTransitive(k, sorted[i], sorted[j]); }
    }
    assert forall j | 0 <= j < |more| :: more[j] == if j < i then sorted[j] else if j == i then k else sorted[j - 1];
    forall x | x in Members(sorted) + {k} ensures x in Members(more) {
      if x == k {
        assert more[i] == x;
      } else {
        var j :| 0 <= j < |sorted| && sorted[j] == x;
        assert more[if j < i then j else j + 1] == x;
      }
    }
  }

  /** The writer appends exactly the canonical text. */
  method WriteValue(v: Json, before: string) returns (out: string)
    ensures out == before + Print(v)
    decreases v, 1, 0
  {
    match v {
      case Null => out := before + "null";
      case Bool(b) => out := before + if b then "true" else "false";
      case Number(token) => out := before + token;
      case Str(s) => out := WriteString(s, before);
      case Array(items) => out := WriteArray(items, v, before);
      case Object(members) => out := WriteObject(v, before);
    }
  }

  method WriteArray(items: seq<Json>, v: Json, before: string) returns (out: string)
    requires v == Array(items)
    ensures out == before + Print(v)
    decreases v, 0, 0
  {
    hide Print, PrintItems, ItemsLeft;
    out := before + "[";
    StartItems(items, before);
    for i := 0 to |items|
      invariant ItemsLeft(out, items, i, before)
    {
      WriteItem(out, items, i, before);
      if i > 0 { out := out + ","; }
      out := WriteValue(items[i], out);
    }
    EndItems(out, items, before);
    out := out + "]";
  }

  /** What `out` still lacks of the array: its items from the `i`-th on, and the bracket. */
  ghost predicate ItemsLeft(out: string, items: seq<Json>, i: nat, before: string)
    requires i <= |items|
  {
    out + Rest(items, i) == before + "[" + Rest(items, 0)
  }

  lemma StartItems(items: seq<Json>, before: string)
    ensures ItemsLeft(before + "[", items, 0, before)
  {
  }

  lemma WriteItem(out: string, items: seq<Json>, i: nat, before: string)
    requires i < |items| && ItemsLeft(out, items, i, before)
    ensures i > 0 ==> ItemsLeft(out + "," + Print(items[i]), items, i + 1, before)
    ensures i == 0 ==> ItemsLeft(out + Print(items[i]), items, i + 1, before)
  {
    RestStep(items, i);
    hide Rest, Print;
    if i > 0 {
      Glue3(out, ",", Print(items[i]), Rest(items, i + 1));
    } else {
      Glue(out, Print(items[i]), Rest(items, i + 1));
    }
  }

  lemma Glue3(a: string, b: string, c: string, d: string)
    ensures a + b + c + d == a + (b + c + d)
  {
  }

  lemma EndItems(out: string, items: seq<Json>, before: string)
    requires ItemsLeft(out, items, |items|, before)
    ensures out + "]" == before + Print(Array(items))
  {
    assert items[0..] == items;
    Enclosed(before, "[", Rest(items, 0), "]");
    assert out + "" == out;
  }

  method WriteObject(v: Json, before: string) returns (out: string)
    requires v.Object?
    ensures out == before + Print(v)
    decreases v, 0, 0
  {
    AllMembers(v.members);
    hide Print, PrintMembers, MembersLeft;
    var keys := SortKeys(v.members.Keys);
    out := before + "{";
    StartMembers(keys, v, before);
    for i := 0 to |keys|
      invariant MembersLeft(out, keys, i, v, before)
    {
      WriteMember(out, keys, i, v, before);
      if i > 0 { out := out + ","; }
      out := WriteString(keys[i], out);
      out := out + ":";
      out := WriteValue(v.members[keys[i]], out);
    }
    EndMembers(out, keys, v, before);
    out := out + "}";
  }

  ghost predicate MembersLeft(out: string, keys: seq<string>, i: nat, v: Json, before: string)
    requires v.Object? && i <= |keys| && forall k | k in keys :: k in v.members
  {
    out + RestOfMembers(keys, i, v) == before + "{" + RestOfMembers(keys, 0, v)
  }

  lemma StartMembers(keys: seq<string>, v: Json, before: string)
    requires v.Object? && forall k | k in keys :: k in v.members
    ensures MembersLeft(before + "{", keys, 0, v, before)
  {
  }

  lemma WriteMember(out: string, keys: seq<string>, i: nat, v: Json, before: string)
    requires v.Object? && i < |keys| && forall k | k in keys :: k in v.members
    requires MembersLeft(out, keys, i, v, before)
    ensures var key, value := PrintString(keys[i]), Print(v.members[keys[i]]);
            && (i > 0 ==> MembersLeft(out + "," + key + ":" + value, keys, i + 1, v, before))
            && (i == 0 ==> MembersLeft(out + key + ":" + value, keys, i + 1, v, before))
  {
    RestOfMembersStep(keys, i, v);
    hide RestOfMembers, Print, PrintString;
    var key, value := PrintString(keys[i]), Print(v.members[keys[i]]);
    if i > 0 {
      GlueMember(out, ",", key, value, RestOfMembers(keys, i + 1, v));
    } else {
      GlueFirst(out, key, value, RestOfMembers(keys, i + 1, v));
    }
  }

  lemma GlueMember(out: string, comma: string, key: string, value: string, rest: string)
    ensures out + comma + key + ":" + value + rest == out + (comma + key + ":" + value + rest)
  {
  }

  lemma GlueFirst(out: string, key: string, value: string, rest: string)
    ensures out + key + ":" + value + rest == out + (key + ":" + value + rest)
  {
  }

  lemma EndMembers(out: string, keys: seq<string>, v: Json, before: string)
    requires v.Object? && keys == SortedKeys(v.members.Keys) && forall k | k in keys :: k in v.members
    requires MembersLeft(out, keys, |keys|, v, before)
    ensures out + "}" == before + Print(v)
  {
    PrintObject(v, keys);
    hide RestOfMembers, Print;
    Enclosed(before, "{", RestOfMembers(keys, 0, v), "}");
    assert out + "" == out;
  }

  lemma PrintObject(v: Json, keys: seq<string>)
    requires v.Object? && keys == SortedKeys(v.members.Keys) && forall k | k in keys :: k in v.members
    ensures Print(v) == "{" + RestOfMembers(keys, 0, v) + "}"
    ensures RestOfMembers(keys, |keys|, v) == ""
  {
    AllMembers(v.members);
    hide PrintMembers;
    assert keys[0..] == keys;
  }

  /** What is left to write from the `i`-th item on, comma included. */
  ghost function Rest(items: seq<Json>, i: nat): string
    requires i <= |items|
  {
    if i == |items| then "" else (if i > 0 then "," else "") + PrintItems(items[i..])
  }

  lemma RestStep(items: seq<Json>, i: nat)
    requires i < |items|
    ensures i > 0 ==> Rest(items, i) == "," + Print(items[i]) + Rest(items, i + 1)
    ensures i == 0 ==> Rest(items, i) == Print(items[i]) + Rest(items, i + 1)
  {
    assert items[i..][1..] == items[i + 1..];
    var more := if i + 1 == |items| then "" else "," + PrintItems(items[i + 1..]);
    assert PrintItems(items[i..]) == Print(items[i]) + more;
    hide Print, PrintItems;
    if i > 0 { Glue(",", Print(items[i]), more); }
  }

  ghost function RestOfMembers(keys: seq<string>, i: nat, v: Json): string
    requires v.Object? && i <= |keys| && forall k | k in keys :: k in v.members
  {
    if i == |keys| then "" else (if i > 0 then "," else "") + PrintMembers(keys[i..], v)
  }

  lemma RestOfMembersStep(keys: seq<string>, i: nat, v: Json)
    requires v.Object? && i < |keys| && forall k | k in keys :: k in v.members
    ensures var key, value := PrintString(keys[i]), Print(v.members[keys[i]]);
            && (i > 0 ==> RestOfMembers(keys, i, v) == "," + key + ":" + value + RestOfMembers(keys, i + 1, v))
            && (i == 0 ==> RestOfMembers(keys, i, v) == key + ":" + value + RestOfMembers(keys, i + 1, v))
  {
    assert keys[i..][1..] == keys[i + 1..];
    var key, value := PrintString(keys[i]), Print(v.members[keys[i]]);
    var more := if i + 1 == |keys| then "" else "," + PrintMembers(keys[i + 1..], v);
    assert PrintMembers(keys[i..], v) == key + ":" + value + more;
    hide Print, PrintMembers, PrintString;
    if i > 0 { Glue3(",", key, ":" + value, more); assert "," + key + (":" + value) == "," + key + ":" + value; assert key + (":" + value) == key + ":" + value; }
  }

  // ---- reading ----

  function HexValue(c: char): Option<nat> {
    if '0' <= c <= '9' then Some(c as int - '0' as int)
    else if 'a' <= c <= 'f' then Some(c as int - 'a' as int + 10)
    else if 'A' <= c <= 'F' then Some(c as int - 'A' as int + 10)
    else None
  }

  function ReadHex(s: string): Option<nat> {
    if s == "" then Some(0) else
      var high := ReadHex(s[..|s| - 1]);
      var low := HexValue(s[|s| - 1]);
      if high.Some? && low.Some? then Some(16 * high.value + low.value) else None
  }

  /** The character a two-character escape stands for (section 7 of RFC 8259). */
  function Unescape(c: char): Option<char> {
    if c == '\"' || c == '\\' || c == '/' then Some(c)
    else if c == 'n' then Some('\n')
    else if c == 'r' then Some('\r')
    else if c == 't' then Some('\t')
    else if c == 'b' then Some(8 as char)
    else if c == 'f' then Some(12 as char)
    else None
  }

  /** One character of a string, escaped or not. */
  function ReadUnit(s: string): (r: Option<(char, string)>)
    ensures r.Some? ==> |r.value.1| < |s|
  {
    if s == "" || s[0] as int < 0x20 then None
    else if s[0] != '\\' then Some((s[0], s[1..]))
    else if |s| < 2 then None
    else if s[1] == 'u' then
      if |s| < 6 then None else
        var n := ReadHex(s[2..6]);
        if n.Some? && IsScalar(n.value) && n.value < 0x10000 then Some((n.value as char, s[6..])) else None
    else
      var c := Unescape(s[1]);
      if c.Some? then Some((c.value, s[2..])) else None
  }

  /** The rest of a string, up to its closing quote. */
  function ReadChars(s: string): (r: Option<(string, string)>)
    ensures r.Some? ==> |r.value.1| < |s|
    decreases |s|
  {
    if s == "" then None
    else if s[0] == '\"' then Some(("", s[1..]))
    else
      var c := ReadUnit(s);
      if c.None? then None else
        var rest := ReadChars(c.value.1);
        if rest.None? then None else Some(([c.value.0] + rest.value.0, rest.value.1))
  }

  function TokenLength(s: string): (n: nat)
    ensures n <= |s|
  {
    if s == "" || !IsNumberChar(s[0]) then 0 else 1 + TokenLength(s[1..])
  }

  /** A value and what follows it. */
  function ReadValue(s: string): (r: Option<(Json, string)>)
    ensures r.Some? ==> |r.value.1| < |s|
    decreases |s|, 1
  {
    if s == "" then None
    else if s[0] == 'n' then if "null" <= s then Some((Null, s[4..])) else None
    else if s[0] == 't' then if "true" <= s then Some((Bool(true), s[4..])) else None
    else if s[0] == 'f' then if "false" <= s then Some((Bool(false), s[5..])) else None
    else if s[0] == '\"' then
      var text := ReadChars(s[1..]);
      if text.None? then None else Some((Str(text.value.0), text.value.1))
    else if s[0] == '[' then
      if |s| > 1 && s[1] == ']' then Some((Array([]), s[2..])) else
        var items := ReadItems(s[1..]);
        if items.None? then None else Some((Array(items.value.0), items.value.1))
    else if s[0] == '{' then
      if |s| > 1 && s[1] == '}' then Some((Object(map[]), s[2..])) else
        var members := ReadMembers(s[1..]);
        if members.None? then None else Some((Object(members.value.0), members.value.1))
    else if StartsNumber(s[0]) then
      var n := TokenLength(s);
      assert n > 0;
      Some((Number(s[..n]), s[n..]))
    else None
  }

  function ReadItems(s: string): (r: Option<(seq<Json>, string)>)
    ensures r.Some? ==> |r.value.1| < |s|
    decreases |s|, 2
  {
    var first := ReadValue(s);
    if first.None? || first.value.1 == "" then None else
      var (v, rest) := first.value;
      if rest[0] == ']' then Some(([v], rest[1..]))
      else if rest[0] != ',' then None
      else
        var more := ReadItems(rest[1..]);
        if more.None? then None else Some(([v] + more.value.0, more.value.1))
  }

  function ReadMembers(s: string): (r: Option<(map<string, Json>, string)>)
    ensures r.Some? ==> |r.value.1| < |s|
    decreases |s|, 2
  {
    if s == "" || s[0] != '\"' then None else
      var key := ReadChars(s[1..]);
      if key.None? || key.value.1 == "" || key.value.1[0] != ':' then None else
        var value := ReadValue(key.value.1[1..]);
        if value.None? || value.value.1 == "" then None else
          var (v, rest) := value.value;
          if rest[0] == '}' then Some((map[key.value.0 := v], rest[1..]))
          else if rest[0] != ',' then None
          else
            var more := ReadMembers(rest[1..]);
            if more.None? then None else Some((map[key.value.0 := v] + more.value.0, more.value.1))
  }

  // ---- the reader inverts the writer ----

  lemma UnitBack(c: char, tail: string)
    ensures ReadUnit(EscapeChar(c) + tail) == Some((c, tail))
    ensures EscapeChar(c)[0] != '\"'
  {
    var e := EscapeChar(c);
    var s := e + tail;
    if |e| == 6 {
      var n := c as int;
      assert s[2..6] == ['0', '0', HexDigit(n / 16), HexDigit(n % 16)];
      HexBack(n / 16, n % 16);
      assert s[6..] == tail;
    } else if |e| == 2 {
      assert s[2..] == tail;
    } else {
      assert s[1..] == tail;
    }
  }

  /** A text the reader takes, inside a string, for just the character `c`. */
  predicate StandsFor(e: string, c: char) {
    e != "" && e[0] != '\"' && ReadUnit(e) == Some((c, ""))
  }

  predicate LowerHex(e: string) {
    forall i | 2 <= i < |e| :: !('A' <= e[i] <= 'F')
  }

  /** Characters are written as briefly as they can be read, and of what is as brief, with lower-case digits. */
  lemma ShortestEscape(e: string, c: char)
    requires StandsFor(e, c)
    ensures StandsFor(EscapeChar(c), c) && LowerHex(EscapeChar(c))
    ensures |EscapeChar(c)| <= |e|
    ensures |EscapeChar(c)| == |e| && LowerHex(e) ==> e == EscapeChar(c)
  {
    UnitBack(c, "");
    assert EscapeChar(c) + "" == EscapeChar(c);
    hide ReadHex;
    EscapeLengths(c);
    if e[0] != '\\' {
      assert e == [c];
    } else if e[1] == 'u' {
      assert |e| == 6;
      if |EscapeChar(c)| == 6 && LowerHex(e) {
        assert LowerHexDigits(e[2..6]) by { assert forall i | 0 <= i < 4 :: e[2..6][i] == e[i + 2]; }
        HexOnce(e[2..6], c as int);
        assert e == ['\\', 'u'] + e[2..6];
      }
    } else {
      assert |e| == 2;
    }
  }

  predicate LowerHexDigits(s: string) {
    forall i | 0 <= i < |s| :: !('A' <= s[i] <= 'F')
  }

  lemma EscapeLengths(c: char)
    ensures |EscapeChar(c)| == 1 <==> c as int >= 0x20 && c != '\"' && c != '\\'
    ensures |EscapeChar(c)| == 1 ==> EscapeChar(c) == [c]
    ensures |EscapeChar(c)| == 2 <==> exists d :: Unescape(d) == Some(c) && d != '/'
    ensures forall d | Unescape(d) == Some(c) && d != '/' :: EscapeChar(c) == ['\\', d]
    ensures |EscapeChar(c)| in {1, 2, 6}
  {
    var e := EscapeChar(c);
    if |e| == 2 { assert Unescape(e[1]) == Some(c); }
  }

  lemma HexOnce(s: string, n: nat)
    requires |s| == 4 && ReadHex(s) == Some(n) && n < 0x20 && LowerHexDigits(s)
    ensures s == ['0', '0', HexDigit(n / 16), HexDigit(n % 16)]
  {
    hide HexDigit;
    var a, b, c, d := HexValue(s[0]), HexValue(s[1]), HexValue(s[2]), HexValue(s[3]);
    FourDigits(s);
    assert n == 16 * (16 * (16 * a.value + b.value) + c.value) + d.value;
    assert a.value == 0 && b.value == 0;
    assert c.value == n / 16 && d.value == n % 16;
    LowerDigit(s[0]);
    LowerDigit(s[1]);
    LowerDigit(s[2]);
    LowerDigit(s[3]);
    assert HexDigit(0) == '0' by { ZeroDigit(); }
  }

  lemma ZeroDigit()
    ensures HexDigit(0) == '0'
  {
  }

  lemma LowerDigit(x: char)
    requires !('A' <= x <= 'F') && HexValue(x).Some?
    ensures HexValue(x).value < 16 && x == HexDigit(HexValue(x).value)
  {
  }

  lemma FourDigits(s: string)
    requires |s| == 4 && ReadHex(s).Some?
    ensures forall i | 0 <= i < 4 :: HexValue(s[i]).Some? && HexValue(s[i]).value < 16
    ensures ReadHex(s).value ==
            16 * (16 * (16 * HexValue(s[0]).value + HexValue(s[1]).value) + HexValue(s[2]).value) + HexValue(s[3]).value
  {
    assert s[..3][..2] == s[..2] && s[..2][..1] == s[..1] && s[..1][..0] == "";
    assert ReadHex(s[..3]).Some? && ReadHex(s[..2]).Some? && ReadHex(s[..1]).Some?;
    assert s[..3][2] == s[2] && s[..2][1] == s[1] && s[..1][0] == s[0];
    hide HexValue;
    assert ReadHex(s).value == 16 * ReadHex(s[..3]).value + HexValue(s[3]).value;
    assert ReadHex(s[..3]).value == 16 * ReadHex(s[..2]).value + HexValue(s[2]).value;
    assert ReadHex(s[..2]).value == 16 * ReadHex(s[..1]).value + HexValue(s[1]).value;
    assert ReadHex(s[..1]).value == 16 * ReadHex("").value + HexValue(s[0]).value;
    DigitBelow(s[0]);
    DigitBelow(s[1]);
    DigitBelow(s[2]);
    DigitBelow(s[3]);
  }

  lemma DigitBelow(x: char)
    ensures HexValue(x).Some? ==> HexValue(x).value < 16
  {
  }

  lemma HexBack(a: nat, b: nat)
    requires a < 16 && b < 16
    ensures ReadHex(['0', '0', HexDigit(a), HexDigit(b)]) == Some(16 * a + b)
  {
    var s := ['0', '0', HexDigit(a), HexDigit(b)];
    assert s[..3] == ['0', '0', HexDigit(a)];
    assert s[..3][..2] == ['0', '0'] && ['0', '0'][..1] == ['0'] && ['0'][..0] == "";
    assert HexValue(HexDigit(a)) == Some(a) && HexValue(HexDigit(b)) == Some(b);
    assert ReadHex(['0']) == Some(0);
    assert ReadHex(['0', '0']) == Some(0);
  }

  lemma {:induction false} CharsBack(text: string, tail: string)
    ensures ReadChars(Escape(text) + "\"" + tail) == Some((text, tail))
  {
    hide EscapeChar, ReadUnit;
    if text == "" {
      assert (Escape(text) + "\"" + tail)[1..] == tail;
    } else {
      var after := Escape(text[1..]) + "\"" + tail;
      CharsBack(text[1..], tail);
      UnitBack(text[0], after);
      assert Escape(text) + "\"" + tail == EscapeChar(text[0]) + after;
      assert text == [text[0]] + text[1..];
    }
  }

  lemma {:induction false} TokenBack(t: string, tail: string)
    requires (forall i | 0 <= i < |t| :: IsNumberChar(t[i])) && (tail == "" || !IsNumberChar(tail[0]))
    ensures TokenLength(t + tail) == |t|
  {
    if t == "" {
      assert t + tail == tail;
    } else {
      assert (t + tail)[1..] == t[1..] + tail;
      TokenBack(t[1..], tail);
    }
  }

  predicate Ends(tail: string) {
    tail == "" || !IsNumberChar(tail[0])
  }

  lemma PrintStarts(v: Json)
    requires Valid(v)
    ensures Print(v) != "" && Print(v)[0] != ']' && Print(v)[0] != '}'
  {
  }

  /** Reading back what was written, with any text after it (which must not go on a number). */
  lemma {:induction false} ValueBack(v: Json, tail: string)
    requires Valid(v) && (v.Number? ==> Ends(tail))
    ensures ReadValue(Print(v) + tail) == Some((v, tail))
    decreases v, 1, 0
  {
    match v {
      case Null => assert ("null" + tail)[4..] == tail;
      case Bool(b) => BoolBack(b, tail);
      case Number(token) => NumberBack(token, tail);
      case Str(s) => StringBack(s, tail);
      case Array(items) =>
        if items == [] {
          assert ("[" + "" + "]" + tail)[2..] == tail;
        } else {
          ItemsBack(items, tail);
          ArrayBack(items, tail);
        }
      case Object(members) =>
        if members.Keys == {} {
          assert members == map[];
          assert ("{" + "" + "}" + tail)[2..] == tail;
        } else {
          AllMembers(members);
          var keys := SortedKeys(members.Keys);
          MembersBack(keys, v, tail);
          ObjectBack(v, keys, tail);
        }
    }
  }

  lemma BoolBack(b: bool, tail: string)
    ensures ReadValue(Print(Bool(b)) + tail) == Some((Bool(b), tail))
  {
    assert ("true" + tail)[4..] == tail && ("false" + tail)[5..] == tail;
  }

  lemma NumberBack(token: string, tail: string)
    requires IsToken(token) && Ends(tail)
    ensures ReadValue(token + tail) == Some((Number(token), tail))
  {
    TokenBack(token, tail);
    var s := token + tail;
    assert s[0] == token[0] && s[..|token|] == token && s[|token|..] == tail;
    hide TokenLength;
  }

  lemma StringBack(text: string, tail: string)
    ensures ReadValue(PrintString(text) + tail) == Some((Str(text), tail))
  {
    CharsBack(text, tail);
    hide Escape, ReadChars;
    assert (PrintString(text) + tail)[1..] == Escape(text) + "\"" + tail;
  }

  lemma ArrayBack(items: seq<Json>, tail: string)
    requires items != [] && Valid(items[0])
    requires ReadItems(PrintItems(items) + ("]" + tail)) == Some((items, tail))
    ensures ReadValue(Print(Array(items)) + tail) == Some((Array(items), tail))
  {
    PrintStarts(items[0]);
    assert PrintItems(items)[0] == Print(items[0])[0];
    var s := Print(Array(items)) + tail;
    assert Print(Array(items)) == "[" + PrintItems(items) + "]";
    hide Print, PrintItems, ReadItems;
    Inside("[", PrintItems(items), "]", tail);
    assert s[1] == PrintItems(items)[0];
  }

  lemma Inside(open: string, inside: string, close: string, tail: string)
    requires |open| == 1
    ensures var s := open + inside + close + tail; s[0] == open[0] && s[1..] == inside + (close + tail)
  {
  }

  lemma ObjectBack(v: Json, keys: seq<string>, tail: string)
    requires v.Object? && keys == SortedKeys(v.members.Keys) && keys != [] && forall k | k in keys :: k in v.members
    requires ReadMembers(PrintMembers(keys, v) + ("}" + tail)) == Some((Restrict(v, keys), tail))
    ensures ReadValue(Print(v) + tail) == Some((v, tail))
  {
    assert Restrict(v, keys) == v.members;
    PrintObject(v, keys);
    MembersStart(v, keys);
    hide *;
    Inside("{", PrintMembers(keys, v), "}", tail);
    ReadsObject(Print(v) + tail);
  }

  lemma ReadsObject(s: string)
    requires |s| > 1 && s[0] == '{' && s[1] != '}' && ReadMembers(s[1..]).Some?
    ensures ReadValue(s) == Some((Object(ReadMembers(s[1..]).value.0), ReadMembers(s[1..]).value.1))
  {
    hide ReadMembers;
  }

  lemma MembersStart(v: Json, keys: seq<string>)
    requires v.Object? && keys != [] && forall k | k in keys :: k in v.members
    ensures PrintMembers(keys, v) != "" && PrintMembers(keys, v)[0] == '\"'
    ensures RestOfMembers(keys, 0, v) == PrintMembers(keys, v)
  {
    assert keys[0..] == keys;
    hide Print, Escape;
  }

  ghost function Restrict(v: Json, keys: seq<string>): map<string, Json>
    requires v.Object? && forall k | k in keys :: k in v.members
  {
    map k | k in Members(keys) :: v.members[k]
  }

  lemma {:induction false} ItemsBack(items: seq<Json>, tail: string)
    requires items != [] && forall i | 0 <= i < |items| :: Valid(items[i])
    ensures ReadItems(PrintItems(items) + ("]" + tail)) == Some((items, tail))
    decreases items, 2, 0
  {
    hide *;
    var v, rest, end := items[0], items[1..], "]" + tail;
    assert end[0] == ']' && end[1..] == tail;
    var after := ItemsSplit(items, end);
    ValueBack(v, after) by {
      if rest != [] { CommaEnds(after, end, false, PrintItems(rest)); } else { CommaEnds(after, end, true, ""); }
    }
    assert items == [v] + rest;
    assert rest == [] ==> items == [v];
    if rest != [] {
      ItemsBack(rest, tail);
      assert after[1..] == PrintItems(rest) + end;
    }
    ItemsStep(PrintItems(items) + end, v, after);
  }

  lemma CommaEnds(after: string, end: string, last: bool, more: string)
    requires end != "" && (end[0] == ']' || end[0] == '}') && after == if last then end else "," + (more + end)
    ensures Ends(after)
  {
  }

  lemma ItemsStep(s: string, v: Json, after: string)
    requires ReadValue(s) == Some((v, after)) && after != ""
    ensures after[0] == ']' ==> ReadItems(s) == Some(([v], after[1..]))
    ensures after[0] == ',' && ReadItems(after[1..]).Some? ==>
              ReadItems(s) == Some(([v] + ReadItems(after[1..]).value.0, ReadItems(after[1..]).value.1))
  {
    hide ReadValue;
  }

  lemma ItemsSplit(items: seq<Json>, end: string) returns (after: string)
    requires items != []
    ensures PrintItems(items) + end == Print(items[0]) + after
    ensures after == if |items| == 1 then end else "," + (PrintItems(items[1..]) + end)
  {
    var first, rest := Print(items[0]), items[1..];
    if |items| == 1 {
      after := end;
      assert first + "" == first;
    } else {
      var more := PrintItems(rest);
      after := "," + (more + end);
      assert PrintItems(items) == first + ("," + more);
      hide Print, PrintItems;
      Glue(first, "," + more, end);
      Glue(",", more, end);
    }
  }

  lemma {:induction false} MembersBack(keys: seq<string>, v: Json, tail: string)
    requires v.Object? && Valid(v) && keys != [] && forall k | k in keys :: k in v.members
    ensures ReadMembers(PrintMembers(keys, v) + ("}" + tail)) == Some((Restrict(v, keys), tail))
    decreases v, 0, |keys|
  {
    assert Valid(v.members[keys[0]]);
    hide *;
    var k, rest, end := keys[0], keys[1..], "}" + tail;
    var value := v.members[k];
    assert end[0] == '}' && end[1..] == tail;
    var after := MembersSplit(keys, v, end);
    ValueBack(value, after) by {
      if rest != [] { CommaEnds(after, end, false, PrintMembers(rest, v)); } else { CommaEnds(after, end, true, ""); }
    }
    CharsBack(k, ":" + Print(value) + after);
    RestrictCons(v, keys);
    if rest != [] {
      MembersBack(rest, v, tail);
      assert after[1..] == PrintMembers(rest, v) + end;
    }
    var s := PrintMembers(keys, v) + end;
    MembersStep(s, k, Print(value), v.members[k], after);
  }

  lemma MembersStep(s: string, k: string, text: string, value: Json, after: string)
    requires s != "" && s[0] == '\"' && ReadChars(s[1..]) == Some((k, ":" + text + after))
    requires ReadValue(text + after) == Some((value, after)) && after != ""
    ensures after[0] == '}' ==> ReadMembers(s) == Some((map[k := value], after[1..]))
    ensures after[0] == ',' && ReadMembers(after[1..]).Some? ==>
              ReadMembers(s) == Some((map[k := value] + ReadMembers(after[1..]).value.0, ReadMembers(after[1..]).value.1))
  {
    hide ReadValue, ReadChars;
    assert (":" + text + after)[1..] == text + after;
  }

  lemma RestrictCons(v: Json, keys: seq<string>)
    requires v.Object? && keys != [] && forall k | k in keys :: k in v.members
    ensures Restrict(v, keys) == map[keys[0] := v.members[keys[0]]] + Restrict(v, keys[1..])
    ensures |keys| == 1 ==> Restrict(v, keys) == map[keys[0] := v.members[keys[0]]]
  {
    MembersCons(keys[0], keys[1..]);
    assert keys == [keys[0]] + keys[1..];
  }

  lemma MembersSplit(keys: seq<string>, v: Json, end: string) returns (after: string)
    requires v.Object? && keys != [] && forall k | k in keys :: k in v.members
    ensures var s := PrintMembers(keys, v) + end;
            s != "" && s[0] == '\"' && s[1..] == Escape(keys[0]) + "\"" + (":" + Print(v.members[keys[0]]) + after)
    ensures after == if |keys| == 1 then end else "," + (PrintMembers(keys[1..], v) + end)
  {
    var key, value, rest := Escape(keys[0]), Print(v.members[keys[0]]), keys[1..];
    var first := PrintString(keys[0]) + ":" + value;
    if |keys| == 1 {
      after := end;
      assert PrintMembers(keys, v) == first + "";
      assert first + "" == first;
    } else {
      var more := PrintMembers(rest, v);
      after := "," + (more + end);
      assert PrintMembers(keys, v) == first + ("," + more);
      hide Print, PrintMembers, PrintString;
      Glue(first, "," + more, end);
      Glue(",", more, end);
    }
    assert PrintMembers(keys, v) + end == first + after;
    assert first == "\"" + key + "\"" + ":" + value by { Quoted(keys[0]); }
    hide Print, PrintMembers, PrintString, Escape;
    MemberText(key, value, after);
  }

  lemma Quoted(k: string)
    ensures PrintString(k) == "\"" + Escape(k) + "\""
  {
  }

  lemma MemberText(key: string, value: string, after: string)
    ensures var s := "\"" + key + "\"" + ":" + value + after;
            s != "" && s[0] == '\"' && s[1..] == key + "\"" + (":" + value + after)
  {
  }

  // ---- an unambiguous code ----

  /** Two values print alike exactly when they are equal (objects being equal whatever the order their
      members came in). */
  lemma Unambiguous(v: Json, w: Json)
    requires Valid(v) && Valid(w)
    ensures Print(v) == Print(w) <==> v == w
  {
    ValueBack(v, "");
    ValueBack(w, "");
    assert Print(v) + "" == Print(v) && Print(w) + "" == Print(w);
  }

  /** Nor does one text begin another, numbers aside: what is printed ends where it ends. */
  lemma PrefixFree(v: Json, t: string, w: Json, u: string)
    requires Valid(v) && Valid(w) && (v.Number? ==> Ends(t)) && (w.Number? ==> Ends(u))
    requires Print(v) + t == Print(w) + u
    ensures v == w && t == u
  {
    ValueBack(v, t);
    ValueBack(w, u);
  }

  // ---- programs ----

  const CANONICAL_VERSION: Byte := 1

  datatype DecodeError = Empty | UnsupportedVersion(found: Byte) | NotUtf8 | Deserialize

  datatype Result<+T> = Ok(value: T) | Err(error: DecodeError)

  /** A program's serialized form and back (serde); what comes back may differ from what went in only in
      ways serialization does not see. */
  ghost predicate Serializes<P(!new)>(toValue: P -> Json, fromValue: Json -> Option<P>) {
    forall p: P :: Valid(toValue(p)) && fromValue(toValue(p)).Some? && toValue(fromValue(toValue(p)).value) == toValue(p)
  }

  ghost function EncodeProgram<P>(toValue: P -> Json, program: P): seq<Byte> {
    [CANONICAL_VERSION] + Encode(Print(toValue(program)))
  }

  function DecodeProgram<P>(fromValue: Json -> Option<P>, bytes: seq<Byte>): Result<P> {
    if bytes == [] then Err(Empty)
    else if bytes[0] != CANONICAL_VERSION then Err(UnsupportedVersion(bytes[0]))
    else
      var text := Decode(bytes[1..]);
      if text.None? then Err(NotUtf8) else
        var v := ReadValue(text.value);
        if v.None? || v.value.1 != "" then Err(Deserialize) else
          var program := fromValue(v.value.0);
          if program.None? then Err(Deserialize) else Ok(program.value)
  }

  /** Decoding an encoded program and encoding the result gives the same bytes. */
  lemma ReencodeIdentical<P(!new)>(toValue: P -> Json, fromValue: Json -> Option<P>, program: P)
    requires Serializes(toValue, fromValue)
    ensures var r := DecodeProgram(fromValue, EncodeProgram(toValue, program));
            r.Ok? && EncodeProgram(toValue, r.value) == EncodeProgram(toValue, program)
  {
    var v := toValue(program);
    var bytes := EncodeProgram(toValue, program);
    assert bytes[1..] == Encode(Print(v));
    RoundTrip(Print(v));
    ValueBack(v, "");
    assert Print(v) + "" == Print(v);
  }

  /** Programs have the same bytes exactly when they serialize alike. */
  lemma SameBytes<P(!new)>(toValue: P -> Json, fromValue: Json -> Option<P>, p: P, q: P)
    requires Serializes(toValue, fromValue)
    ensures EncodeProgram(toValue, p) == EncodeProgram(toValue, q) <==> toValue(p) == toValue(q)
  {
    var a, b := Print(toValue(p)), Print(toValue(q));
    RoundTrip(a);
    RoundTrip(b);
    assert EncodeProgram(toValue, p)[1..] == Encode(a) && EncodeProgram(toValue, q)[1..] == Encode(b);
    Unambiguous(toValue(p), toValue(q));
  }
}
