/** The loops `setup_row` runs over a row's children besides the recursive
    calls: finding the current children and the stale ones, finding the
    parent column of a backward child table, rewriting the document keys
    of index-less children to their UUIDs, and building the value of a
    forward child column. */
module Children {
  import opened Outcomes
  import opened Dicts
  import opened Schema
  import opened Values
  import opened Store
  import opened Cascade

  // ---------------------------------------------------------------------
  // Current and stale children

  /** The rows a forward child column holds now (`current_list`, through
      `.values()` for a key-value column); an empty or unset column holds
      none.  A column of the wrong shape raises.  Where it succeeds it
      finds exactly the rows a cascade delete of the owner would follow. */
  function Current(v: Value, kv: bool): (r: Result<seq<Uuid>>)
    ensures r.Ok? ==> r == ChildRefs(v)
    ensures v == Null ==> r == Ok([])
  {
    match v
    case Null => Ok([])
    case RefList(items) =>
      if items == [] then Ok([])
      else if kv then Fail(AttributeError)
      else RefsOf(items)
    case RefMap(pairs) =>
      if pairs == [] then Ok([])
      else if kv then RefsOf(Dicts.Values(pairs))
      else Fail(TypeError)
    case Ref(_) => Fail(TypeError)
    case Data(_) => Fail(TypeError)
  }

  /** The current children whose index is not a key of the new data. */
  function Stale(h: Helpers, s: Snapshot, ct: TableName, cs: seq<Uuid>, keys: seq<Token>): (r: seq<Uuid>)
    ensures forall w :: w in r <==> w in cs && h.rowToIndex(ct, w, s) !in keys
    ensures |r| <= |cs|
    decreases |cs|
  {
    if cs == [] then []
    else
      var last := cs[|cs| - 1];
      assert cs == cs[..|cs| - 1] + [last];
      Stale(h, s, ct, cs[..|cs| - 1], keys) + (if h.rowToIndex(ct, last, s) in keys then [] else [last])
  }

  /** The `delete_list` loop of `setup_row`. */
  method StaleOf(h: Helpers, idl: Idl, ct: TableName, cs: seq<Uuid>, keys: seq<Token>) returns (stale: seq<Uuid>)
    ensures stale == Stale(h, idl.Snap(), ct, cs, keys)
  {
    stale := [];
    var i := 0;
    while i < |cs|
      invariant 0 <= i <= |cs|
      invariant stale == Stale(h, idl.Snap(), ct, cs[..i], keys)
    {
      assert cs[..i + 1][..i] == cs[..i];
      var index := h.rowToIndex(ct, cs[i], idl.Snap());
      if index !in keys {
        stale := stale + [cs[i]];
      }
      i := i + 1;
    }
    assert cs[..i] == cs;
  }

  // ---------------------------------------------------------------------
  // Backward children

  /** The first reference column of a child table whose relation is Parent. */
  function FirstParent(refs: Dict<Column, RefSpec>): (r: Option<Column>)
    ensures r.None? <==> forall i :: 0 <= i < |refs| ==> refs[i].1.relation != Parent
    ensures r.Some? ==> exists i :: 0 <= i < |refs| && refs[i].0 == r.value && refs[i].1.relation == Parent &&
                                    forall j :: 0 <= j < i ==> refs[j].1.relation != Parent
  {
    if refs == [] then None
    else if refs[0].1.relation == Parent then Some(refs[0].0)
    else
      var r := FirstParent(refs[1..]);
      assert r.Some? ==> exists i :: 1 <= i < |refs| && refs[i].0 == r.value && refs[i].1.relation == Parent &&
                                     forall j :: 0 <= j < i ==> refs[j].1.relation != Parent by {
        if r.Some? {
          var i :| 0 <= i < |refs[1..]| && refs[1..][i].0 == r.value && refs[1..][i].1.relation == Parent &&
                   forall j :: 0 <= j < i ==> refs[1..][j].1.relation != Parent;
          assert refs[i + 1] == refs[1..][i];
          assert forall j :: 1 <= j < i + 1 ==> refs[j] == refs[1..][j - 1];
        }
      }
      r
  }

  /** The loop of `setup_row` that looks for the Parent-relation column. */
  method FindParent(refs: Dict<Column, RefSpec>) returns (col: Option<Column>)
    ensures col == FirstParent(refs)
  {
    var i := 0;
    while i < |refs|
      invariant 0 <= i <= |refs|
      invariant FirstParent(refs) == FirstParent(refs[i..])
    {
      assert refs[i..][1..] == refs[i + 1..];
      if refs[i].1.relation == Parent {
        return Some(refs[i].0);
      }
      i := i + 1;
    }
    col := None;
  }

  /** The rows among `rows` whose parent column `pc` points at row `u`;
      reading `.uuid` of a parent column that holds no row raises. */
  function PointingAt(s: Snapshot, rows: seq<Uuid>, pc: Column, u: Uuid): (r: Result<seq<Uuid>>)
    ensures r.Ok? <==> forall w :: w in rows ==> Attr(s, w, pc).Ref?
    ensures r.Fail? ==> r.error == AttributeError
    ensures r.Ok? ==> forall w :: w in r.value <==> w in rows && Attr(s, w, pc) == Ref(u)
    decreases |rows|
  {
    if rows == [] then Ok([])
    else
      var last := rows[|rows| - 1];
      assert rows == rows[..|rows| - 1] + [last];
      match PointingAt(s, rows[..|rows| - 1], pc, u)
      case Fail(e) => Fail(e)
      case Ok(cs) =>
        if !Attr(s, last, pc).Ref? then Fail(AttributeError)
        else Ok(cs + if Attr(s, last, pc).row == u then [last] else [])
  }

  /** The `current_list` loop over the rows of a backward child table. */
  method ParentedRows(idl: Idl, rows: seq<Uuid>, pc: Column, u: Uuid) returns (r: Result<seq<Uuid>>)
    ensures r == PointingAt(idl.Snap(), rows, pc, u)
  {
    var cs := [];
    var i := 0;
    while i < |rows|
      invariant 0 <= i <= |rows|
      invariant PointingAt(idl.Snap(), rows[..i], pc, u) == Ok(cs)
    {
      assert rows[..i + 1][..i] == rows[..i];
      assert rows[..i + 1][i] == rows[i];
      var parent := Attr(idl.Snap(), rows[i], pc);
      if !parent.Ref? {
        assert rows[..i + 1][i] == rows[i];
        return Fail(AttributeError);
      }
      cs := cs + if parent.row == u then [rows[i]] else [];
      i := i + 1;
    }
    assert rows[..i] == rows;
    r := Ok(cs);
  }

  // ---------------------------------------------------------------------
  // Rewriting the document keys of index-less children

  /** `new_data[v.uuid] = new_data[k]; del new_data[k]` for every synced
      child `k -> v` in order. */
  function Rekeyed(d: Dict<Token, Doc>, kids: Dict<Token, Uuid>): Result<Dict<Token, Doc>>
    decreases |kids|
  {
    if kids == [] then Ok(d)
    else
      match Get(d, kids[0].0)
      case None => Fail(KeyError)
      case Some(doc) => Rekeyed(Del(Put(d, UuidToken(kids[0].1), doc), kids[0].0), kids[1..])
  }

  /** The rekey loop of `setup_row`. */
  method Rekey(d: Dict<Token, Doc>, kids: Dict<Token, Uuid>) returns (r: Result<Dict<Token, Doc>>)
    ensures r == Rekeyed(d, kids)
  {
    var cur := d;
    var i := 0;
    while i < |kids|
      invariant 0 <= i <= |kids|
      invariant Rekeyed(d, kids) == Rekeyed(cur, kids[i..])
    {
      assert kids[i..][1..] == kids[i + 1..];
      var (k, v) := kids[i];
      var doc := Get(cur, k);
      if doc.None? {
        return Fail(KeyError);
      }
      cur := Del(Put(cur, UuidToken(v), doc.value), k);
      i := i + 1;
    }
    r := Ok(cur);
  }

  /** The conditions under which the rewrite files every child under its UUID. */
  ghost predicate Movable(d: Dict<Token, Doc>, kids: Dict<Token, Uuid>) {
    && (forall i :: 0 <= i < |kids| ==> kids[i].0.TextToken? && Has(d, kids[i].0))
    && Distinct(Keys(kids)) && Distinct(Dicts.Values(kids))
  }

  /** The document after the first child is moved. */
  function MovedFirst(d: Dict<Token, Doc>, kids: Dict<Token, Uuid>): Dict<Token, Doc>
    requires kids != [] && Has(d, kids[0].0)
  {
    Del(Put(d, UuidToken(kids[0].1), Get(d, kids[0].0).value), kids[0].0)
  }

  lemma MovedFirstGet(d: Dict<Token, Doc>, kids: Dict<Token, Uuid>, j: Token)
    requires kids != [] && Has(d, kids[0].0)
    ensures Get(MovedFirst(d, kids), j) ==
              if j == kids[0].0 then None
              else if j == UuidToken(kids[0].1) then Get(d, kids[0].0)
              else Get(d, j)
  {
    var d0 := Put(d, UuidToken(kids[0].1), Get(d, kids[0].0).value);
    DelGet(d0, kids[0].0, j);
    PutGet(d, UuidToken(kids[0].1), Get(d, kids[0].0).value, j);
  }

  /** After the first move the remaining children still meet the conditions. */
  lemma MovableTail(d: Dict<Token, Doc>, kids: Dict<Token, Uuid>)
    requires kids != [] && Movable(d, kids)
    ensures Movable(MovedFirst(d, kids), kids[1..])
  {
    var d1, rest := MovedFirst(d, kids), kids[1..];
    forall i | 0 <= i < |rest| ensures rest[i].0.TextToken? && Has(d1, rest[i].0) {
      assert rest[i] == kids[i + 1];
      assert Keys(kids)[0] != Keys(kids)[i + 1];
      MovedFirstGet(d, kids, rest[i].0);
    }
    assert Keys(rest) == Keys(kids)[1..];
    assert Dicts.Values(rest) == Dicts.Values(kids)[1..];
  }

  /** When the children were listed under distinct composite keys and
      synced to distinct rows, the rewrite succeeds and files every child's
      data under its row's UUID instead, leaving other keys alone. */
  lemma {:induction false} RekeyMoves(d: Dict<Token, Doc>, kids: Dict<Token, Uuid>)
    requires Movable(d, kids)
    ensures Rekeyed(d, kids).Ok?
    ensures forall i :: 0 <= i < |kids| ==> Get(Rekeyed(d, kids).value, UuidToken(kids[i].1)) == Get(d, kids[i].0)
    ensures forall i :: 0 <= i < |kids| ==> !Has(Rekeyed(d, kids).value, kids[i].0)
    ensures forall j :: j !in Keys(kids) && (forall i :: 0 <= i < |kids| ==> j != UuidToken(kids[i].1)) ==>
              Get(Rekeyed(d, kids).value, j) == Get(d, j)
    decreases |kids|
  {
    if kids != [] {
      MovableTail(d, kids);
      RekeyMoves(MovedFirst(d, kids), kids[1..]);
      RekeyLift(d, kids, Rekeyed(d, kids).value);
    }
  }

  /** One step of `RekeyMoves`: from the rest of the children to all of them. */
  lemma RekeyLift(d: Dict<Token, Doc>, kids: Dict<Token, Uuid>, res: Dict<Token, Doc>)
    requires kids != [] && Movable(d, kids)
    requires var d1, rest := MovedFirst(d, kids), kids[1..];
             && (forall i :: 0 <= i < |rest| ==> Get(res, UuidToken(rest[i].1)) == Get(d1, rest[i].0))
             && (forall i :: 0 <= i < |rest| ==> !Has(res, rest[i].0))
             && (forall j :: j !in Keys(rest) && (forall i :: 0 <= i < |rest| ==> j != UuidToken(rest[i].1)) ==>
                   Get(res, j) == Get(d1, j))
    ensures forall i :: 0 <= i < |kids| ==> Get(res, UuidToken(kids[i].1)) == Get(d, kids[i].0)
    ensures forall i :: 0 <= i < |kids| ==> !Has(res, kids[i].0)
    ensures forall j :: j !in Keys(kids) && (forall i :: 0 <= i < |kids| ==> j != UuidToken(kids[i].1)) ==>
              Get(res, j) == Get(d, j)
  {
    var d1, rest := MovedFirst(d, kids), kids[1..];
    assert Keys(rest) == Keys(kids)[1..];
    forall i | 0 <= i < |kids| ensures Get(res, UuidToken(kids[i].1)) == Get(d, kids[i].0) {
      LiftMoved(d, kids, res, i);
    }
    forall i | 0 <= i < |kids| ensures !Has(res, kids[i].0) {
      LiftGone(d, kids, res, i);
    }
    forall j | j !in Keys(kids) && (forall i :: 0 <= i < |kids| ==> j != UuidToken(kids[i].1))
      ensures Get(res, j) == Get(d, j)
    {
      LiftKept(d, kids, res, j);
    }
  }

  /** A token neither moved nor introduced by any of `kids` keeps its document. */
  lemma LiftKept(d: Dict<Token, Doc>, kids: Dict<Token, Uuid>, res: Dict<Token, Doc>, j: Token)
    requires kids != [] && Movable(d, kids)
    requires var d1, rest := MovedFirst(d, kids), kids[1..];
             forall j :: j !in Keys(rest) && (forall i :: 0 <= i < |rest| ==> j != UuidToken(rest[i].1)) ==>
               Get(res, j) == Get(d1, j)
    requires j !in Keys(kids) && forall i :: 0 <= i < |kids| ==> j != UuidToken(kids[i].1)
    ensures Get(res, j) == Get(d, j)
  {
    var rest := kids[1..];
    assert Keys(kids)[0] == kids[0].0;
    assert j != kids[0].0 && j != UuidToken(kids[0].1);
    assert j !in Keys(rest);
    forall i | 0 <= i < |rest| ensures j != UuidToken(rest[i].1) {
      assert rest[i] == kids[i + 1];
    }
    assert Get(res, j) == Get(MovedFirst(d, kids), j);
    MovedFirstGet(d, kids, j);
  }

  lemma LiftMoved(d: Dict<Token, Doc>, kids: Dict<Token, Uuid>, res: Dict<Token, Doc>, i: nat)
    requires kids != [] && Movable(d, kids) && i < |kids|
    requires var d1, rest := MovedFirst(d, kids), kids[1..];
             && (forall i :: 0 <= i < |rest| ==> Get(res, UuidToken(rest[i].1)) == Get(d1, rest[i].0))
             && (forall j :: j !in Keys(rest) && (forall i :: 0 <= i < |rest| ==> j != UuidToken(rest[i].1)) ==>
                   Get(res, j) == Get(d1, j))
    ensures Get(res, UuidToken(kids[i].1)) == Get(d, kids[i].0)
  {
    var v, rest := kids[0].1, kids[1..];
    if i == 0 {
      forall i' | 0 <= i' < |rest| ensures UuidToken(v) != UuidToken(rest[i'].1) {
        assert rest[i'] == kids[i' + 1];
        assert Dicts.Values(kids)[0] != Dicts.Values(kids)[i' + 1];
      }
      assert UuidToken(v) !in Keys(rest);
      MovedFirstGet(d, kids, UuidToken(v));
    } else {
      assert kids[i] == rest[i - 1];
      assert Keys(kids)[0] != Keys(kids)[i];
      MovedFirstGet(d, kids, kids[i].0);
    }
  }

  lemma LiftGone(d: Dict<Token, Doc>, kids: Dict<Token, Uuid>, res: Dict<Token, Doc>, i: nat)
    requires kids != [] && Movable(d, kids) && i < |kids|
    requires var d1, rest := MovedFirst(d, kids), kids[1..];
             && (forall i :: 0 <= i < |rest| ==> !Has(res, rest[i].0))
             && (forall j :: j !in Keys(rest) && (forall i :: 0 <= i < |rest| ==> j != UuidToken(rest[i].1)) ==>
                   Get(res, j) == Get(d1, j))
    ensures !Has(res, kids[i].0)
  {
    var k, rest := kids[0].0, kids[1..];
    if i == 0 {
      forall i' | 0 <= i' < |rest| ensures k != rest[i'].0 {
        assert rest[i'] == kids[i' + 1];
        assert Keys(kids)[0] != Keys(kids)[i' + 1];
      }
      assert k !in Keys(rest);
      MovedFirstGet(d, kids, k);
    } else {
      assert kids[i] == rest[i - 1];
    }
  }

  // ---------------------------------------------------------------------
  // The value of a forward child column

  /** `children.values()`: the synced rows in order. */
  function RefValues(kids: Dict<Token, Uuid>): (r: seq<Value>)
    ensures |r| == |kids| && forall i :: 0 <= i < |kids| ==> r[i] == Ref(kids[i].1)
  {
    if kids == [] then [] else [Ref(kids[0].1)] + RefValues(kids[1..])
  }

  /** `children` itself, a key-value column keyed by the index tokens. */
  function TokenMap(kids: Dict<Token, Uuid>): (r: Dict<MapKey, Value>)
    ensures Keys(r) == seq(|kids|, i requires 0 <= i < |kids| => TokenKey(kids[i].0))
  {
    if kids == [] then [] else [(TokenKey(kids[0].0), Ref(kids[0].1))] + TokenMap(kids[1..])
  }

  /** Looking a token up in the column finds the row synced under it. */
  lemma {:induction false} TokenMapGet(kids: Dict<Token, Uuid>, key: MapKey)
    ensures Get(TokenMap(kids), key) ==
              if key.TokenKey? && Get(kids, key.token).Some? then Some(Ref(Get(kids, key.token).value)) else None
  {
    if kids != [] {
      TokenMapGet(kids[1..], key);
    }
  }

  /** The row synced last under a token that casts to `n`. */
  function LastCast(h: Helpers, kids: Dict<Token, Uuid>, n: int): (r: Option<Uuid>)
    ensures r.Some? ==> exists i :: 0 <= i < |kids| && h.toInt(kids[i].0) == Some(n) && kids[i].1 == r.value &&
                                    forall j :: i < j < |kids| ==> h.toInt(kids[j].0) != Some(n)
    ensures r.None? <==> forall i :: 0 <= i < |kids| ==> h.toInt(kids[i].0) != Some(n)
    decreases |kids|
  {
    if kids == [] then None
    else
      var last := kids[|kids| - 1];
      if h.toInt(last.0) == Some(n) then Some(last.1)
      else
        var r := LastCast(h, kids[..|kids| - 1], n);
        assert forall i :: 0 <= i < |kids| - 1 ==> kids[..|kids| - 1][i] == kids[i];
        r
  }

  /** `tmp[int(k)] = v` for every synced child in order; an index that is
      not an integer raises ValueError. */
  function Casted(h: Helpers, kids: Dict<Token, Uuid>): (r: Result<Dict<MapKey, Value>>)
    ensures r.Ok? <==> forall i :: 0 <= i < |kids| ==> h.toInt(kids[i].0).Some?
    ensures r.Fail? ==> r.error == ValueError
    decreases |kids|
  {
    if kids == [] then Ok([])
    else
      var last := kids[|kids| - 1];
      assert forall i :: 0 <= i < |kids| - 1 ==> kids[..|kids| - 1][i] == kids[i];
      match Casted(h, kids[..|kids| - 1])
      case Fail(e) => Fail(e)
      case Ok(m) =>
        match h.toInt(last.0)
        case None => Fail(ValueError)
        case Some(n) => Ok(Put(m, IntKey(n), Ref(last.1)))
  }

  /** The integer-keyed column maps each integer to the row synced last
      under a token that casts to it, and has no other keys. */
  lemma {:induction false} CastGet(h: Helpers, kids: Dict<Token, Uuid>, key: MapKey)
    requires Casted(h, kids).Ok?
    ensures Get(Casted(h, kids).value, key) ==
              if key.IntKey? && LastCast(h, kids, key.n).Some? then Some(Ref(LastCast(h, kids, key.n).value)) else None
    decreases |kids|
  {
    if kids != [] {
      var last := kids[|kids| - 1];
      var m := Casted(h, kids[..|kids| - 1]).value;
      CastGet(h, kids[..|kids| - 1], key);
      PutGet(m, IntKey(h.toInt(last.0).value), Ref(last.1), key);
    }
  }

  /** The `tmp` loop of `setup_row`. */
  method CastKeys(h: Helpers, kids: Dict<Token, Uuid>) returns (r: Result<Dict<MapKey, Value>>)
    ensures r == Casted(h, kids)
  {
    var tmp := [];
    var i := 0;
    while i < |kids|
      invariant 0 <= i <= |kids|
      invariant Casted(h, kids[..i]) == Ok(tmp)
    {
      assert kids[..i + 1][..i] == kids[..i];
      var n := h.toInt(kids[i].0);
      if n.None? {
        return Fail(ValueError);
      }
      tmp := Put(tmp, IntKey(n.value), Ref(kids[i].1));
      i := i + 1;
    }
    assert kids[..i] == kids;
    r := Ok(tmp);
  }

  /** The value `setup_row` writes to a forward child column: the synced
      rows as a map with integer-cast keys, as a map keyed by token, or
      as the list of rows. */
  function Linked(h: Helpers, spec: RefSpec, kids: Dict<Token, Uuid>): Result<Value> {
    if spec.kvType then
      if spec.kvKeyType == IntegerKey then
        match Casted(h, kids)
        case Ok(m) => Ok(RefMap(m))
        case Fail(e) => Fail(e)
      else Ok(RefMap(TokenMap(kids)))
    else Ok(RefList(RefValues(kids)))
  }
}
