/** Index resolution: maps an index token to an existing row of a table,
    or reports that there is none (`index_to_row`). */
module Resolver {
  import opened Outcomes
  import opened Schema
  import opened Values
  import opened Store

  /** The string an index column of row `v` is compared with: the row's
      UUID text for the `uuid` column, otherwise `str()` of the attribute. */
  function IndexText(h: Helpers, s: Snapshot, v: Uuid, col: Column): string {
    if col == UuidColumn then h.uuidText(v) else h.show(Attr(s, v, col))
  }

  /** Every index column of row `v` equals its component of the token. */
  predicate Matches(h: Helpers, s: Snapshot, v: Uuid, indexes: seq<Column>, values: seq<string>)
    requires |indexes| == |values|
  {
    forall i :: 0 <= i < |indexes| ==> IndexText(h, s, v, indexes[i]) == values[i]
  }

  /** The first row of `rows`, in scan order, that matches on every index column. */
  function FirstMatch(h: Helpers, s: Snapshot, rows: seq<Uuid>, indexes: seq<Column>, values: seq<string>): (r: Option<Uuid>)
    requires |indexes| == |values|
    ensures r.Some? ==> exists k :: 0 <= k < |rows| && rows[k] == r.value &&
                          Matches(h, s, rows[k], indexes, values) &&
                          forall j :: 0 <= j < k ==> !Matches(h, s, rows[j], indexes, values)
    ensures r.None? <==> forall v :: v in rows ==> !Matches(h, s, v, indexes, values)
  {
    if rows == [] then None
    else if Matches(h, s, rows[0], indexes, values) then Some(rows[0])
    else
      var r := FirstMatch(h, s, rows[1..], indexes, values);
      assert forall v :: v in rows ==> v == rows[0] || v in rows[1..];
      r
  }

  /** `index_to_row(tok, ts, idl.tables[t])` on the store `s`. */
  function Resolve(h: Helpers, ts: TableSchema, s: Snapshot, t: TableName, tok: Token): (r: Result<Option<Uuid>>)
    requires t in s.tables
    // a UUID token: direct lookup
    ensures tok.UuidToken? ==>
              r == Ok(if tok.uuid in s.tables[t] then Some(tok.uuid) else None)
    // a composite token on a table without index columns never raises
    ensures tok.TextToken? && ts.indexColumns == [] ==> r == Ok(None)
    // otherwise the component count must equal the index count
    ensures tok.TextToken? && ts.indexColumns != [] ==>
              (r.Fail? <==> |h.escapedSplit(tok.text)| != |ts.indexes|) &&
              (r.Fail? ==> r.error == CompositeIndexError)
    // a resolved composite token names a row that matches on every index column
    ensures tok.TextToken? && r.Ok? && r.value.Some? ==>
              |h.escapedSplit(tok.text)| == |ts.indexes| &&
              r.value.value in s.tables[t] &&
              Matches(h, s, r.value.value, ts.indexes, h.escapedSplit(tok.text))
    // not-found for a composite token means that no row matches
    ensures tok.TextToken? && ts.indexColumns != [] && r == Ok(None) ==>
              forall v :: v in s.tables[t] ==> !Matches(h, s, v, ts.indexes, h.escapedSplit(tok.text))
  {
    match tok
    case UuidToken(u) =>
      Ok(if u in s.tables[t] then Some(u) else None)
    case TextToken(text) =>
      var values := h.escapedSplit(text);
      if ts.indexColumns == [] then Ok(None)
      else if |values| != |ts.indexes| then Fail(CompositeIndexError)
      else Ok(FirstMatch(h, s, s.tables[t], ts.indexes, values))
  }

  /** The inner loop of `index_to_row`: count matching index columns of
      row `v` until the first mismatch; the row matches when every column did. */
  method RowMatches(h: Helpers, idl: Idl, v: Uuid, indexes: seq<Column>, values: seq<string>) returns (matched: bool)
    requires |indexes| == |values|
    ensures matched == Matches(h, idl.Snap(), v, indexes, values)
  {
    var i := 0;
    while i < |indexes|
      invariant 0 <= i <= |indexes|
      invariant forall j :: 0 <= j < i ==> IndexText(h, idl.Snap(), v, indexes[j]) == values[j]
    {
      var text := if indexes[i] == UuidColumn then h.uuidText(v) else h.show(Attr(idl.Snap(), v, indexes[i]));
      if text != values[i] {
        break;
      }
      i := i + 1;
    }
    matched := i == |indexes|;
  }

  /** `index_to_row`: a direct lookup for a UUID token, otherwise a linear
      scan for the first row matching every index column.  It only reads
      the store. */
  method IndexToRow(h: Helpers, ts: TableSchema, idl: Idl, t: TableName, tok: Token) returns (r: Result<Option<Uuid>>)
    requires t in idl.tables
    ensures r == Resolve(h, ts, idl.Snap(), t, tok)
  {
    if tok.UuidToken? {
      if tok.uuid in idl.tables[t] {
        return Ok(Some(tok.uuid));
      }
      return Ok(None);
    }
    var values := h.escapedSplit(tok.text);
    var indexes := ts.indexes;
    if ts.indexColumns == [] {
      return Ok(None);
    }
    if |values| != |indexes| {
      return Fail(CompositeIndexError);
    }
    var rows := idl.tables[t];
    var k := 0;
    while k < |rows|
      invariant 0 <= k <= |rows|
      invariant FirstMatch(h, idl.Snap(), rows, indexes, values) == FirstMatch(h, idl.Snap(), rows[k..], indexes, values)
    {
      var matched := RowMatches(h, idl, rows[k], indexes, values);
      if matched {
        return Ok(Some(rows[k]));
      }
      assert rows[k..][1..] == rows[k + 1..];
      k := k + 1;
    }
    return Ok(None);
  }
}
