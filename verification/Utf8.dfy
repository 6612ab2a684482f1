/** UTF-8 (section 3 of RFC 3629), as far as Rust strings rely on it. */
module Utf8 {
  import opened Options

  type Byte = n: nat | n < 256

  /** Leading bits in the first byte, six bits in each that follows. */
  function EncodeChar(c: char): (bytes: seq<Byte>)
    ensures 1 <= |bytes| <= 4
  {
    var n := c as int;
    if n < 0x80 then [n]
    else if n < 0x800 then [0xC0 + n / 0x40, 0x80 + n % 0x40]
    else if n < 0x10000 then [0xE0 + n / 0x40 / 0x40, 0x80 + n / 0x40 % 0x40, 0x80 + n % 0x40]
    else [0xF0 + n / 0x40 / 0x40 / 0x40, 0x80 + n / 0x40 / 0x40 % 0x40, 0x80 + n / 0x40 % 0x40, 0x80 + n % 0x40]
  }

  function Encode(s: string): seq<Byte> {
    if s == "" then [] else EncodeChar(s[0]) + Encode(s[1..])
  }

  predicate Continues(b: Byte) {
    0x80 <= b < 0xC0
  }

  /** Length of the sequence a first byte announces. */
  function Announced(b: Byte): Option<nat> {
    if b < 0x80 then Some(1) else if b < 0xC0 then None else if b < 0xE0 then Some(2)
    else if b < 0xF0 then Some(3) else if b < 0xF8 then Some(4) else None
  }

  function Scalar(bytes: seq<Byte>): int
    requires 1 <= |bytes| <= 4
  {
    var b0: int := bytes[0];
    if |bytes| == 1 then b0
    else if |bytes| == 2 then Shift(b0 - 0xC0, bytes[1])
    else if |bytes| == 3 then Shift(Shift(b0 - 0xE0, bytes[1]), bytes[2])
    else Shift(Shift(Shift(b0 - 0xF0, bytes[1]), bytes[2]), bytes[3])
  }

  /** Six more bits. */
  function Shift(high: int, b: Byte): int {
    high * 0x40 + (b as int - 0x80)
  }

  predicate IsScalar(n: int) {
    0 <= n < 0xD800 || 0xE000 <= n < 0x110000
  }

  /** The first character, when the bytes are exactly its encoding. */
  function DecodeChar(bytes: seq<Byte>): (r: Option<(char, nat)>)
    ensures r.Some? ==> 1 <= r.value.1 <= |bytes|
  {
    if bytes == [] then None else
      var size := Announced(bytes[0]);
      if size.None? || size.value > |bytes| then None else
        var n := Scalar(bytes[..size.value]);
        if !IsScalar(n) || EncodeChar(n as char) != bytes[..size.value] then None else Some((n as char, size.value))
  }

  /** `std::str::from_utf8`: all of the bytes, or nothing. */
  function Decode(bytes: seq<Byte>): Option<string>
    decreases |bytes|
  {
    if bytes == [] then Some("") else
      var first := DecodeChar(bytes);
      if first.None? then None else
        var rest := Decode(bytes[first.value.1..]);
        if rest.None? then None else Some([first.value.0] + rest.value)
  }

  lemma CharRoundTrip(c: char)
    ensures Announced(EncodeChar(c)[0]) == Some(|EncodeChar(c)|)
    ensures Scalar(EncodeChar(c)) == c as int && IsScalar(c as int)
    ensures !Continues(EncodeChar(c)[0]) && forall i | 0 < i < |EncodeChar(c)| :: Continues(EncodeChar(c)[i])
  {
  }

  lemma FirstDecodes(c: char, rest: seq<Byte>)
    ensures DecodeChar(EncodeChar(c) + rest) == Some((c, |EncodeChar(c)|))
  {
    CharRoundTrip(c);
    var bytes := EncodeChar(c) + rest;
    assert bytes[..|EncodeChar(c)|] == EncodeChar(c);
    hide EncodeChar, Announced, Scalar;
  }

  /** Decoding undoes encoding. */
  lemma {:induction false} RoundTrip(s: string)
    ensures Decode(Encode(s)) == Some(s)
  {
    if s != "" {
      hide EncodeChar, DecodeChar;
      FirstDecodes(s[0], Encode(s[1..]));
      RoundTrip(s[1..]);
      assert Encode(s)[|EncodeChar(s[0])|..] == Encode(s[1..]);
      assert s == [s[0]] + s[1..];
    }
  }

  lemma {:induction false} EncodeAppend(s: string, t: string)
    ensures Encode(s + t) == Encode(s) + Encode(t)
  {
    if s == "" {
      assert s + t == t;
    } else {
      assert (s + t)[1..] == s[1..] + t;
      EncodeAppend(s[1..], t);
    }
  }

  // ---- order ----

  predicate Less(a: string, b: string) {
    b != "" && (a == "" || a[0] < b[0] || (a[0] == b[0] && Less(a[1..], b[1..])))
  }

  lemma {:induction false} LessTotal(a: string, b: string)
    ensures a == b || Less(a, b) || Less(b, a)
    ensures !(Less(a, b) && Less(b, a)) && !Less(a, a)
    decreases |a|
  {
    if a != "" && b != "" {
      LessTotal(a[1..], b[1..]);
      LessTotal(a[1..], a[1..]);
      assert a == [a[0]] + a[1..] && b == [b[0]] + b[1..];
    } else if a != "" {
      LessTotal(a[1..], a[1..]);
    }
  }

  lemma {:induction false} LessTransitive(a: string, b: string, c: string)
    requires Less(a, b) && Less(b, c)
    ensures Less(a, c)
    decreases |a|
  {
    if a != "" && a[0] == b[0] == c[0] { LessTransitive(a[1..], b[1..], c[1..]); }
  }

  predicate BytesLess(a: seq<Byte>, b: seq<Byte>) {
    b != [] && (a == [] || a[0] < b[0] || (a[0] == b[0] && BytesLess(a[1..], b[1..])))
  }

  lemma {:induction false} BytesAfter(p: seq<Byte>, a: seq<Byte>, b: seq<Byte>)
    ensures BytesLess(p + a, p + b) <==> BytesLess(a, b)
    decreases |p|
  {
    if p == [] {
      assert p + a == a && p + b == b;
    } else {
      assert (p + a)[1..] == p[1..] + a && (p + b)[1..] == p[1..] + b;
      BytesAfter(p[1..], a, b);
    }
  }

  /** Two characters' encodings first differ where the smaller one is smaller. */
  lemma CharOrder(c: char, d: char) returns (i: nat)
    requires c < d
    ensures i < |EncodeChar(c)| && i < |EncodeChar(d)|
    ensures EncodeChar(c)[..i] == EncodeChar(d)[..i] && EncodeChar(c)[i] < EncodeChar(d)[i]
  {
    CharRoundTrip(c);
    CharRoundTrip(d);
    var a, b := EncodeChar(c), EncodeChar(d);
    if a[0] != b[0] {
      FirstByteOrder(c, d);
      i := 0;
    } else {
      SameFirstByte(a, b);
      hide EncodeChar;
      if a[1] != b[1] {
        i := 1;
      } else if a[2] != b[2] {
        i := 2;
      } else {
        i := 3;
      }
    }
  }

  lemma FirstByteOrder(c: char, d: char)
    requires c < d
    ensures EncodeChar(c)[0] <= EncodeChar(d)[0]
  {
    assert c as int / 0x40 <= d as int / 0x40;
    assert c as int / 0x40 / 0x40 <= d as int / 0x40 / 0x40;
  }

  lemma SameFirstByte(a: seq<Byte>, b: seq<Byte>)
    requires 1 <= |a| <= 4 && 1 <= |b| <= 4 && a[0] == b[0]
    requires Announced(a[0]) == Some(|a|) && Announced(b[0]) == Some(|b|)
    requires (forall i | 0 < i < |a| :: Continues(a[i])) && (forall i | 0 < i < |b| :: Continues(b[i]))
    requires Scalar(a) < Scalar(b)
    ensures |a| == |b| >= 2
    ensures a[1] < b[1] || (a[1] == b[1] && |a| >= 3 && (a[2] < b[2] || (a[2] == b[2] && |a| == 4 && a[3] < b[3])))
  {
  }

  lemma CharsDecide(c: char, u: seq<Byte>, d: char, v: seq<Byte>)
    requires c < d
    ensures BytesLess(EncodeChar(c) + u, EncodeChar(d) + v) && !BytesLess(EncodeChar(d) + v, EncodeChar(c) + u)
  {
    var i := CharOrder(c, d);
    var a, b := EncodeChar(c) + u, EncodeChar(d) + v;
    hide EncodeChar;
    var p := a[..i];
    assert a == p + a[i..] && b == p + b[i..];
    BytesAfter(p, a[i..], b[i..]);
    BytesAfter(p, b[i..], a[i..]);
  }

  /** Strings compare as their bytes do, so Rust's byte order is the order of code points. */
  lemma {:induction false} OrderIsBytewise(a: string, b: string)
    ensures Less(a, b) <==> BytesLess(Encode(a), Encode(b))
    decreases |a|
  {
    hide EncodeChar;
    if a != "" && b != "" {
      if a[0] == b[0] {
        OrderIsBytewise(a[1..], b[1..]);
        BytesAfter(EncodeChar(a[0]), Encode(a[1..]), Encode(b[1..]));
      } else if a[0] < b[0] {
        CharsDecide(a[0], Encode(a[1..]), b[0], Encode(b[1..]));
      } else {
        CharsDecide(b[0], Encode(b[1..]), a[0], Encode(a[1..]));
      }
    }
  }

  // ---- boundaries ----

  /** Byte offset of the `k`-th character. */
  function OffsetOf(s: string, k: nat): nat
    requires k <= |s|
  {
    |Encode(s[..k])|
  }

  /** `str::is_char_boundary`. */
  predicate IsBoundary(s: string, pos: int) {
    0 <= pos <= |Encode(s)| && (pos == |Encode(s)| || !Continues(Encode(s)[pos]))
  }

  lemma {:induction false} SplitEncoding(s: string, k: nat)
    requires k <= |s|
    ensures Encode(s) == Encode(s[..k]) + Encode(s[k..])
  {
    EncodeAppend(s[..k], s[k..]);
    assert s == s[..k] + s[k..];
  }

  /** Boundaries are where characters start, and the end. */
  lemma {:induction false} BoundaryIsOffset(s: string, pos: nat) returns (k: nat)
    requires IsBoundary(s, pos)
    ensures k <= |s| && OffsetOf(s, k) == pos
    decreases |s|
  {
    if pos == 0 {
      k := 0;
    } else {
      assert s != "";
      var first := EncodeChar(s[0]);
      CharRoundTrip(s[0]);
      assert forall i | 0 < i < |first| :: Encode(s)[i] == first[i];
      assert pos >= |first|;
      hide EncodeChar;
      assert pos < |Encode(s)| ==> Encode(s)[pos] == Encode(s[1..])[pos - |first|];
      var rest := BoundaryIsOffset(s[1..], pos - |first|);
      k := rest + 1;
      assert s[..k][1..] == s[1..][..rest] && s[..k][0] == s[0];
    }
  }

  lemma OffsetIsBoundary(s: string, k: nat)
    requires k <= |s|
    ensures IsBoundary(s, OffsetOf(s, k))
  {
    SplitEncoding(s, k);
    if k < |s| {
      CharRoundTrip(s[k]);
      assert Encode(s)[OffsetOf(s, k)] == Encode(s[k..])[0] == EncodeChar(s[k])[0];
    } else {
      assert s[..k] == s;
    }
  }

  /** A string whose bytes begin another's begins it. */
  lemma {:induction false} EncodingPrefix(w: string, t: string)
    requires Encode(w) <= Encode(t)
    ensures w <= t
  {
    if w != "" {
      assert t != "";
      var rest := Encode(t)[|EncodeChar(w[0])|..];
      assert Encode(t) == EncodeChar(w[0]) + rest;
      FirstDecodes(w[0], rest);
      FirstDecodes(t[0], Encode(t[1..]));
      assert w[0] == t[0];
      hide EncodeChar;
      assert Encode(w[1..]) == Encode(w)[|EncodeChar(w[0])|..] && Encode(t[1..]) == rest;
      EncodingPrefix(w[1..], t[1..]);
      assert w == [w[0]] + w[1..] && t == [t[0]] + t[1..];
    }
  }

  /** Text that matches at a boundary ends at one. */
  lemma MatchEndsAtBoundary(s: string, pos: nat, w: string)
    requires IsBoundary(s, pos) && pos + |Encode(w)| <= |Encode(s)|
    requires Encode(s)[pos..pos + |Encode(w)|] == Encode(w)
    ensures IsBoundary(s, pos + |Encode(w)|)
  {
    var k := BoundaryIsOffset(s, pos);
    SplitEncoding(s, k);
    var t := s[k..];
    assert Encode(t) == Encode(s)[pos..];
    assert Encode(t)[..|Encode(w)|] == Encode(w);
    EncodingPrefix(w, t);
    var m := k + |w|;
    assert s[..m] == s[..k] + w;
    EncodeAppend(s[..k], w);
    OffsetIsBoundary(s, m);
  }

  lemma AsciiIsWhole(s: string, pos: nat)
    requires IsBoundary(s, pos) && pos < |Encode(s)| && Encode(s)[pos] < 0x80
    ensures IsBoundary(s, pos + 1)
  {
    var k := BoundaryIsOffset(s, pos);
    SplitEncoding(s, k);
    assert s[..|s|] == s;
    assert k < |s|;
    assert Encode(s)[pos] == Encode(s[k..])[0] == EncodeChar(s[k])[0];
    CharRoundTrip(s[k]);
    assert EncodeChar(s[k]) == Encode([s[k]]) by { assert [s[k]][1..] == ""; }
    assert s[..k + 1] == s[..k] + [s[k]];
    EncodeAppend(s[..k], [s[k]]);
    OffsetIsBoundary(s, k + 1);
  }
}
