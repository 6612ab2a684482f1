/** The paging cursor `v1.<head>.<base or _>.<offset>` (crates/lex-api/src/ops_since_http.rs:284-308). */
module Cursors {
  import opened Options
  import opened History
  import Text

  datatype Position = Position(head: OpId, base: Option<OpId>, offset: nat)

  predicate IsHexDigit(c: char) {
    '0' <= c <= '9' || 'a' <= c <= 'f' || 'A' <= c <= 'F'
  }

  predicate IsOpId(s: string) {
    0 < |s| <= 128 && forall i | 0 <= i < |s| :: IsHexDigit(s[i])
  }

  function EncodeCursor(at: Position): string {
    Text.Join(["v1", at.head, if at.base.Some? then at.base.value else "_", Text.Show(at.offset)], '.')
  }

  function DecodeCursor(c: string): Option<Position> {
    var parts := Text.Split(c, '.');
    if |parts| != 4 || parts[0] != "v1" || !IsOpId(parts[1]) then None
    else if parts[2] != "_" && !IsOpId(parts[2]) then None
    else
      var offset := Text.ParseUsize(parts[3]);
      if offset.None? then None
      else Some(Position(parts[1], if parts[2] == "_" then None else Some(parts[2]), offset.value))
  }

  predicate Encodable(at: Position) {
    IsOpId(at.head) && (at.base.Some? ==> IsOpId(at.base.value)) && at.offset < Text.USIZE_LIMIT
  }

  /** A cursor reads back as the position it was made from exactly when its ids are op ids. */
  lemma CursorRoundTrip(at: Position)
    ensures DecodeCursor(EncodeCursor(at)) == Some(at) <==> Encodable(at)
  {
    if Encodable(at) { EncodedReadsBack(at); }
    DecodedIsEncodable(EncodeCursor(at));
  }

  lemma EncodedReadsBack(at: Position)
    requires Encodable(at)
    ensures DecodeCursor(EncodeCursor(at)) == Some(at)
  {
    var base := if at.base.Some? then at.base.value else "_";
    var parts := ["v1", at.head, base, Text.Show(at.offset)];
    Text.NoSeparatorInDigits(parts[3], '.');
    Text.ParseShow(at.offset);
    hide Text.Show, Text.ParseUsize, Text.Split;
    assert '.' !in parts[0] && '.' !in parts[1] && '.' !in parts[2];
    Text.SplitJoin(parts, '.');
    assert Text.Split(EncodeCursor(at), '.') == parts;
    assert at.base.Some? ==> IsHexDigit(base[0]);
  }

  lemma DecodedIsEncodable(c: string)
    ensures DecodeCursor(c).Some? ==> Encodable(DecodeCursor(c).value)
  {
    var parts := Text.Split(c, '.');
    assert |parts| == 4 && Text.ParseUsize(parts[3]).Some? ==> Text.ParseUsize(parts[3]).value < Text.USIZE_LIMIT;
  }
}
