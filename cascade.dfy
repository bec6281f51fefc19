/** Cascading delete (`_delete`): a row is deleted after every row reachable
    from it through forward child columns, depth first. */
module Cascade {
  import opened Outcomes
  import opened Dicts
  import opened Schema
  import opened Values
  import opened Store

  /** Deleted rows, in deletion order, with their tables. */
  type Trace = seq<(TableName, Uuid)>

  ghost function Ids(tr: Trace): set<Uuid> {
    set e | e in tr :: e.1
  }

  /** The UUIDs of a list of rows; an element that is not a row has no `.uuid`. */
  function RefsOf(items: seq<Value>): (r: Result<seq<Uuid>>)
    ensures r.Ok? ==> |r.value| == |items| && forall i :: 0 <= i < |items| ==> items[i] == Ref(r.value[i])
    ensures r.Fail? ==> exists i :: 0 <= i < |items| && !items[i].Ref?
  {
    if items == [] then Ok([])
    else if !items[0].Ref? then Fail(AttributeError)
    else
      match RefsOf(items[1..])
      case Ok(rest) => Ok([items[0].row] + rest)
      case Fail(e) => Fail(e)
  }

  /** The rows a forward child column value holds, in the order `_delete`
      visits them: the list itself, or the values of a map; None and empty
      collections hold none. */
  function ChildRefs(v: Value): Result<seq<Uuid>> {
    match v
    case Null => Ok([])
    case RefList(items) => RefsOf(items)
    case RefMap(pairs) => RefsOf(Dicts.Values(pairs))
    case Ref(_) => Fail(TypeError)
    case Data(_) => Fail(AttributeError)
  }

  /** A deletion of the rows of `res.1` from `s`, every one of them taken
      from a table ranked below `bound`. */
  ghost predicate Deletion(sch: Schema, rank: map<TableName, nat>, s: Snapshot, res: (Snapshot, Trace), bound: nat) {
    && res.0 == Prune(s, Ids(res.1))
    && forall e :: e in res.1 ==> e.0 in sch.tables && e.0 in rank && rank[e.0] < bound && Present(s, e.0, e.1)
  }

  function AfterTrace(tr: Trace, r: Result<(Snapshot, Trace)>): Result<(Snapshot, Trace)> {
    match r
    case Ok((s, tr')) => Ok((s, tr + tr'))
    case Fail(e) => Fail(e)
  }

  lemma {:induction false} WithoutTwice(xs: seq<Uuid>, a: set<Uuid>, b: set<Uuid>)
    ensures Without(Without(xs, a), b) == Without(xs, a + b)
  {
    if xs != [] {
      WithoutTwice(xs[1..], a, b);
    }
  }

  lemma PruneTwice(s: Snapshot, a: set<Uuid>, b: set<Uuid>)
    ensures Prune(Prune(s, a), b) == Prune(s, a + b)
  {
    var l, r := Prune(Prune(s, a), b), Prune(s, a + b);
    forall x | x in s.tables ensures l.tables[x] == r.tables[x] {
      WithoutTwice(s.tables[x], a, b);
    }
    assert l.tables == r.tables;
    assert l.cells == r.cells;
  }

  lemma {:induction false} WithoutNone(xs: seq<Uuid>)
    ensures Without(xs, {}) == xs
  {
    if xs != [] {
      WithoutNone(xs[1..]);
    }
  }

  lemma PruneNone(s: Snapshot)
    ensures Prune(s, {}) == s
  {
    forall x | x in s.tables ensures Prune(s, {}).tables[x] == s.tables[x] {
      WithoutNone(s.tables[x]);
    }
    assert Prune(s, {}).tables == s.tables;
    assert Prune(s, {}).cells == s.cells;
  }

  /** Deleting nothing is a deletion. */
  lemma DeletionNone(sch: Schema, rank: map<TableName, nat>, s: Snapshot, bound: nat)
    ensures Deletion(sch, rank, s, (s, []), bound)
  {
    PruneNone(s);
    assert Ids([]) == {};
  }

  /** Two deletions in a row are one deletion. */
  lemma DeletionConcat(sch: Schema, rank: map<TableName, nat>, s: Snapshot, s1: Snapshot, tr1: Trace, s2: Snapshot, tr2: Trace, bound: nat)
    requires Deletion(sch, rank, s, (s1, tr1), bound)
    requires Deletion(sch, rank, s1, (s2, tr2), bound)
    ensures Deletion(sch, rank, s, (s2, tr1 + tr2), bound)
  {
    PruneTwice(s, Ids(tr1), Ids(tr2));
    assert Ids(tr1 + tr2) == Ids(tr1) + Ids(tr2);
    forall e | e in tr1 + tr2 ensures e.0 in sch.tables && e.0 in rank && rank[e.0] < bound && Present(s, e.0, e.1) {
      if e !in tr1 {
        assert e in tr2;
        assert Present(s1, e.0, e.1);
      }
    }
  }

  /** A row deleted from a table ranked below `t` is never a row of `t`. */
  lemma NotBelow(rank: map<TableName, nat>, s: Snapshot, tr: Trace, t: TableName, u: Uuid)
    requires t in rank && Consistent(s) && Present(s, t, u)
    requires forall e :: e in tr ==> e.0 in rank && rank[e.0] < rank[t] && Present(s, e.0, e.1)
    ensures u !in Ids(tr)
  {
    forall e | e in tr ensures e.1 != u {
      assert e.0 != t;
    }
  }

  lemma StillPresent(s: Snapshot, tr: Trace, t: TableName, u: Uuid)
    requires Present(s, t, u) && u !in Ids(tr)
    ensures Present(Prune(s, Ids(tr)), t, u)
  {
  }

  lemma PruneOwner(s: Snapshot, tr: Trace, t: TableName, u: Uuid)
    ensures Prune(Prune(s, Ids(tr)), {u}) == Prune(s, Ids(tr + [(t, u)]))
  {
    PruneTwice(s, Ids(tr), {u});
    assert Ids(tr + [(t, u)]) == Ids(tr) + {u};
  }

  /** Deleting the owner after the rows below it, all ranked below `t`. */
  lemma DeletionOwner(sch: Schema, rank: map<TableName, nat>, s: Snapshot, s1: Snapshot, tr: Trace, t: TableName, u: Uuid)
    requires t in sch.tables && t in rank && Present(s, t, u)
    requires Deletion(sch, rank, s, (s1, tr), rank[t])
    ensures Deletion(sch, rank, s, (Prune(s1, {u}), tr + [(t, u)]), rank[t] + 1)
  {
    PruneOwner(s, tr, t, u);
    assert forall e :: e in tr + [(t, u)] ==> e in tr || e == (t, u);
  }

  /** `_delete(row u, t)` on the store `s`: the rows under the forward child
      columns first, then the row itself.  Returns the store afterwards and
      the deleted rows in deletion order. */
  function DelRow(sch: Schema, rank: map<TableName, nat>, s: Snapshot, t: TableName, u: Uuid): (r: Result<(Snapshot, Trace)>)
    requires WellFormed(sch, rank) && t in sch.tables
    ensures r.Ok? ==> Present(s, t, u) && |r.value.1| > 0 && r.value.1[|r.value.1| - 1] == (t, u)
    ensures r.Ok? ==> Deletion(sch, rank, s, r.value, rank[t] + 1)
    decreases rank[t], 2, 0
  {
    if !Present(s, t, u) then Fail(KeyError)
    else
      match DelKeys(sch, rank, s, t, u, sch.tables[t].children)
      case Fail(e) => Fail(e)
      case Ok((s1, tr)) =>
        if !Present(s1, t, u) then Fail(KeyError)
        else
          DeletionOwner(sch, rank, s, s1, tr, t, u);
          Ok((Prune(s1, {u}), tr + [(t, u)]))
  }

  /** The loop of `_delete` over the child relationships `keys` of row `u`. */
  function DelKeys(sch: Schema, rank: map<TableName, nat>, s: Snapshot, t: TableName, u: Uuid, keys: seq<Column>): (r: Result<(Snapshot, Trace)>)
    requires WellFormed(sch, rank) && t in sch.tables
    requires forall k :: k in keys ==> k in sch.tables[t].children
    ensures r.Ok? ==> Deletion(sch, rank, s, r.value, rank[t])
    decreases rank[t], 1, |keys|
  {
    if keys == [] then DeletionNone(sch, rank, s, rank[t]); Ok((s, []))
    else if !IsForward(sch.tables[t], keys[0]) then DelKeys(sch, rank, s, t, u, keys[1..])
    else
      var ct := ChildTable(sch.tables[t], keys[0]);
      match ChildRefs(Attr(s, u, keys[0]))
      case Fail(e) => Fail(e)
      case Ok(cs) =>
        match DelEach(sch, rank, s, ct, cs)
        case Fail(e) => Fail(e)
        case Ok((s1, tr1)) =>
          match DelKeys(sch, rank, s1, t, u, keys[1..])
          case Fail(e) => Fail(e)
          case Ok((s2, tr2)) =>
            DeletionConcat(sch, rank, s, s1, tr1, s2, tr2, rank[t]);
            Ok((s2, tr1 + tr2))
  }

  /** The `while child_uuid_list` loop: delete the child rows `cs` of table `ct` in order. */
  function DelEach(sch: Schema, rank: map<TableName, nat>, s: Snapshot, ct: TableName, cs: seq<Uuid>): (r: Result<(Snapshot, Trace)>)
    requires WellFormed(sch, rank) && ct in sch.tables
    ensures r.Ok? ==> Deletion(sch, rank, s, r.value, rank[ct] + 1)
    decreases rank[ct] + 1, 0, |cs|
  {
    if cs == [] then DeletionNone(sch, rank, s, rank[ct] + 1); Ok((s, []))
    else
      match DelRow(sch, rank, s, ct, cs[0])
      case Fail(e) => Fail(e)
      case Ok((s1, tr1)) =>
        match DelEach(sch, rank, s1, ct, cs[1..])
        case Fail(e) => Fail(e)
        case Ok((s2, tr2)) =>
          DeletionConcat(sch, rank, s, s1, tr1, s2, tr2, rank[ct] + 1);
          Ok((s2, tr1 + tr2))
  }

  lemma AfterTraceNil(r: Result<(Snapshot, Trace)>)
    ensures AfterTrace([], r) == r
  {
    if r.Ok? {
      assert [] + r.value.1 == r.value.1;
    }
  }

  lemma AfterTraceAssoc(a: Trace, b: Trace, r: Result<(Snapshot, Trace)>)
    ensures AfterTrace(a, AfterTrace(b, r)) == AfterTrace(a + b, r)
  {
    if r.Ok? {
      assert a + (b + r.value.1) == (a + b) + r.value.1;
    }
  }

  /** A turn of the loop of `_delete` over the child relationships, on a
      column that is not a forward reference. */
  lemma DelKeysSkip(sch: Schema, rank: map<TableName, nat>, s: Snapshot, t: TableName, u: Uuid, keys: seq<Column>)
    requires WellFormed(sch, rank) && t in sch.tables && keys != []
    requires forall k :: k in keys ==> k in sch.tables[t].children
    requires !IsForward(sch.tables[t], keys[0])
    ensures DelKeys(sch, rank, s, t, u, keys) == DelKeys(sch, rank, s, t, u, keys[1..])
  {
  }

  /** A turn on a forward column whose value is not a list of rows. */
  lemma DelKeysBad(sch: Schema, rank: map<TableName, nat>, s: Snapshot, t: TableName, u: Uuid, keys: seq<Column>)
    requires WellFormed(sch, rank) && t in sch.tables && keys != []
    requires forall k :: k in keys ==> k in sch.tables[t].children
    requires IsForward(sch.tables[t], keys[0]) && ChildRefs(Attr(s, u, keys[0])).Fail?
    ensures DelKeys(sch, rank, s, t, u, keys).Fail?
  {
  }

  /** A turn on a forward column: its rows, then the remaining columns. */
  lemma DelKeysStep(sch: Schema, rank: map<TableName, nat>, s: Snapshot, t: TableName, u: Uuid, keys: seq<Column>)
    requires WellFormed(sch, rank) && t in sch.tables && keys != []
    requires forall k :: k in keys ==> k in sch.tables[t].children
    requires IsForward(sch.tables[t], keys[0]) && ChildRefs(Attr(s, u, keys[0])).Ok?
    ensures var each := DelEach(sch, rank, s, ChildTable(sch.tables[t], keys[0]), ChildRefs(Attr(s, u, keys[0])).value);
            (each.Fail? ==> DelKeys(sch, rank, s, t, u, keys).Fail?) &&
            (each.Ok? ==> DelKeys(sch, rank, s, t, u, keys) ==
                            AfterTrace(each.value.1, DelKeys(sch, rank, each.value.0, t, u, keys[1..])))
  {
  }

  /** `_delete` on a present row: the child relationships, then the row. */
  lemma DelRowStep(sch: Schema, rank: map<TableName, nat>, s: Snapshot, t: TableName, u: Uuid)
    requires WellFormed(sch, rank) && t in sch.tables && Present(s, t, u)
    ensures var keys := DelKeys(sch, rank, s, t, u, sch.tables[t].children);
            (keys.Fail? ==> DelRow(sch, rank, s, t, u).Fail?) &&
            (keys.Ok? ==> DelRow(sch, rank, s, t, u) ==
                            if Present(keys.value.0, t, u) then Ok((Prune(keys.value.0, {u}), keys.value.1 + [(t, u)]))
                            else Fail(KeyError))
  {
  }

  /** One turn of the `while child_uuid_list` loop. */
  lemma DelEachStep(sch: Schema, rank: map<TableName, nat>, s: Snapshot, ct: TableName, cs: seq<Uuid>)
    requires WellFormed(sch, rank) && ct in sch.tables && cs != []
    ensures DelRow(sch, rank, s, ct, cs[0]).Fail? ==> DelEach(sch, rank, s, ct, cs).Fail?
    ensures DelRow(sch, rank, s, ct, cs[0]).Ok? ==>
              DelEach(sch, rank, s, ct, cs) ==
              AfterTrace(DelRow(sch, rank, s, ct, cs[0]).value.1,
                         DelEach(sch, rank, DelRow(sch, rank, s, ct, cs[0]).value.0, ct, cs[1..]))
  {
  }

  /** The `while child_uuid_list` loop of `_delete`: delete the rows `cs`
      of table `ct`, popping the list from the front. */
  method DeleteEach(idl: Idl, sch: Schema, ghost rank: map<TableName, nat>, ct: TableName, cs: seq<Uuid>) returns (r: Result<()>)
    requires WellFormed(sch, rank) && ct in sch.tables
    modifies idl
    ensures r.Ok? <==> DelEach(sch, rank, old(idl.Snap()), ct, cs).Ok?
    ensures r.Ok? ==> idl.Snap() == DelEach(sch, rank, old(idl.Snap()), ct, cs).value.0
    decreases rank[ct] + 1, 0
  {
    ghost var s0 := idl.Snap();
    ghost var tr: Trace := [];
    var pending := cs;
    AfterTraceNil(DelEach(sch, rank, s0, ct, cs));
    while pending != []
      invariant DelEach(sch, rank, s0, ct, cs) == AfterTrace(tr, DelEach(sch, rank, idl.Snap(), ct, pending))
      decreases |pending|
    {
      ghost var before := idl.Snap();
      ghost var rest := DelEach(sch, rank, before, ct, pending);
      DelEachStep(sch, rank, before, ct, pending);
      var done := Delete(idl, sch, rank, ct, pending[0]);
      if done.Fail? {
        return Fail(done.error);
      }
      ghost var row := DelRow(sch, rank, before, ct, pending[0]);
      ghost var rest' := DelEach(sch, rank, idl.Snap(), ct, pending[1..]);
      assert rest == AfterTrace(row.value.1, rest');
      AfterTraceAssoc(tr, row.value.1, rest');
      tr := tr + row.value.1;
      pending := pending[1..];
    }
    r := Ok(());
  }

  /** `_delete(row, table)`: deletes the rows of every forward child column
      of the row, then the row itself.  Proved to compute exactly `DelRow`. */
  method Delete(idl: Idl, sch: Schema, ghost rank: map<TableName, nat>, t: TableName, u: Uuid) returns (r: Result<()>)
    requires WellFormed(sch, rank) && t in sch.tables
    modifies idl
    ensures r.Ok? <==> DelRow(sch, rank, old(idl.Snap()), t, u).Ok?
    ensures r.Ok? ==> idl.Snap() == DelRow(sch, rank, old(idl.Snap()), t, u).value.0
    decreases rank[t], 2
  {
    if !(t in idl.tables && u in idl.tables[t]) {
      return Fail(KeyError);
    }
    ghost var s0 := idl.Snap();
    DelRowStep(sch, rank, s0, t, u);
    var done := DeleteKeys(idl, sch, rank, t, u, sch.tables[t].children);
    if done.Fail? {
      return Fail(done.error);
    }
    r := idl.Remove(t, u);
  }

  /** The `for key in children` loop of `_delete`: for each forward child
      column of row `u`, delete the rows it holds.  Computes `DelKeys`. */
  method DeleteKeys(idl: Idl, sch: Schema, ghost rank: map<TableName, nat>, t: TableName, u: Uuid, keys: seq<Column>) returns (r: Result<()>)
    requires WellFormed(sch, rank) && t in sch.tables
    requires forall k :: k in keys ==> k in sch.tables[t].children
    modifies idl
    ensures r.Ok? <==> DelKeys(sch, rank, old(idl.Snap()), t, u, keys).Ok?
    ensures r.Ok? ==> idl.Snap() == DelKeys(sch, rank, old(idl.Snap()), t, u, keys).value.0
    decreases rank[t], 1
  {
    ghost var s0 := idl.Snap();
    ghost var tr: Trace := [];
    var n := 0;
    assert keys[0..] == keys;
    AfterTraceNil(DelKeys(sch, rank, s0, t, u, keys));
    while n < |keys|
      invariant 0 <= n <= |keys|
      invariant DelKeys(sch, rank, s0, t, u, keys) == AfterTrace(tr, DelKeys(sch, rank, idl.Snap(), t, u, keys[n..]))
    {
      var key := keys[n];
      assert keys[n..][1..] == keys[n + 1..];
      if IsForward(sch.tables[t], key) {
        var ct := ChildTable(sch.tables[t], key);
        var got := ChildRefs(Attr(idl.Snap(), u, key));
        if got.Fail? {
          DelKeysBad(sch, rank, idl.Snap(), t, u, keys[n..]);
          return Fail(got.error);
        }
        ghost var sk := idl.Snap();
        DelKeysStep(sch, rank, sk, t, u, keys[n..]);
        var done := DeleteEach(idl, sch, rank, ct, got.value);
        if done.Fail? {
          return Fail(done.error);
        }
        ghost var step := DelEach(sch, rank, sk, ct, got.value).value.1;
        AfterTraceAssoc(tr, step, DelKeys(sch, rank, idl.Snap(), t, u, keys[n + 1..]));
        tr := tr + step;
      } else {
        DelKeysSkip(sch, rank, idl.Snap(), t, u, keys[n..]);
      }
      n := n + 1;
    }
    assert keys[n..] == [];
    r := Ok(());
  }

  /** The rows held by the forward child columns `keys` of a row with
      attributes `row`. */
  function OwnedKeys(ts: TableSchema, row: map<Column, Value>, keys: seq<Column>): set<Uuid> {
    if keys == [] then {}
    else
      var here := if IsForward(ts, keys[0]) && ChildRefs(Cell(row, keys[0])).Ok?
                  then set c | c in ChildRefs(Cell(row, keys[0])).value else {};
      here + OwnedKeys(ts, row, keys[1..])
  }

  /** The rows that row `u` of table `t` owns through its forward child columns. */
  function Owned(sch: Schema, s: Snapshot, t: TableName, u: Uuid): set<Uuid> {
    if t in sch.tables then OwnedKeys(sch.tables[t], RowOf(s, u), sch.tables[t].children) else {}
  }

  /** Every row owned by a deleted row was deleted before it. */
  ghost predicate ChildrenFirst(sch: Schema, s: Snapshot, tr: Trace) {
    forall i, c :: 0 <= i < |tr| && c in Owned(sch, s, tr[i].0, tr[i].1) ==>
      exists j :: 0 <= j < i && tr[j].1 == c
  }

  /** Every deleted row is one of `roots` or is owned by a row deleted after it. */
  ghost predicate Rooted(sch: Schema, s: Snapshot, roots: set<Uuid>, tr: Trace) {
    forall i :: 0 <= i < |tr| ==>
      tr[i].1 in roots || exists j :: i < j < |tr| && tr[i].1 in Owned(sch, s, tr[j].0, tr[j].1)
  }

  lemma OrderConcat(sch: Schema, s: Snapshot, r1: set<Uuid>, tr1: Trace, r2: set<Uuid>, tr2: Trace)
    requires ChildrenFirst(sch, s, tr1) && ChildrenFirst(sch, s, tr2)
    requires Rooted(sch, s, r1, tr1) && Rooted(sch, s, r2, tr2)
    ensures ChildrenFirst(sch, s, tr1 + tr2) && Rooted(sch, s, r1 + r2, tr1 + tr2)
  {
    var tr := tr1 + tr2;
    forall i, c | 0 <= i < |tr| && c in Owned(sch, s, tr[i].0, tr[i].1)
      ensures exists j :: 0 <= j < i && tr[j].1 == c
    {
      if i < |tr1| {
        assert tr[i] == tr1[i];
        var j :| 0 <= j < i && tr1[j].1 == c;
        assert tr[j] == tr1[j];
      } else {
        assert tr[i] == tr2[i - |tr1|];
        var j :| 0 <= j < i - |tr1| && tr2[j].1 == c;
        assert tr[j + |tr1|] == tr2[j];
      }
    }
    forall i | 0 <= i < |tr|
      ensures tr[i].1 in r1 + r2 || exists j :: i < j < |tr| && tr[i].1 in Owned(sch, s, tr[j].0, tr[j].1)
    {
      if i < |tr1| {
        assert tr[i] == tr1[i];
        if tr1[i].1 !in r1 {
          var j :| i < j < |tr1| && tr1[i].1 in Owned(sch, s, tr1[j].0, tr1[j].1);
          assert tr[j] == tr1[j];
        }
      } else {
        assert tr[i] == tr2[i - |tr1|];
        if tr2[i - |tr1|].1 !in r2 {
          var j :| i - |tr1| < j < |tr2| && tr2[i - |tr1|].1 in Owned(sch, s, tr2[j].0, tr2[j].1);
          assert tr[j + |tr1|] == tr2[j];
        }
      }
    }
  }

  /** Deleting rows does not change what the remaining rows own. */
  lemma OrderTransfer(sch: Schema, s: Snapshot, gone: set<Uuid>, roots: set<Uuid>, tr: Trace)
    requires forall e :: e in tr ==> e.1 !in gone
    requires ChildrenFirst(sch, Prune(s, gone), tr) && Rooted(sch, Prune(s, gone), roots, tr)
    ensures ChildrenFirst(sch, s, tr) && Rooted(sch, s, roots, tr)
  {
    forall i | 0 <= i < |tr| ensures Owned(sch, Prune(s, gone), tr[i].0, tr[i].1) == Owned(sch, s, tr[i].0, tr[i].1) {
      assert tr[i] in tr;
      assert RowOf(Prune(s, gone), tr[i].1) == RowOf(s, tr[i].1);
    }
  }

  /** The rows of a deletion are rows that were present, so not rows deleted before it. */
  lemma NotGoneBefore(sch: Schema, rank: map<TableName, nat>, s: Snapshot, gone: set<Uuid>, res: (Snapshot, Trace), bound: nat)
    requires Deletion(sch, rank, Prune(s, gone), res, bound)
    ensures forall e :: e in res.1 ==> e.1 !in gone
  {
    forall e | e in res.1 ensures e.1 !in gone {
      assert Present(Prune(s, gone), e.0, e.1);
    }
  }

  /** `_delete(row u, t)` deletes every row the deleted rows own, each before
      its owner, and nothing that is not reachable from `u`: the trace
      ends with `u` and every other deleted row is owned by a row deleted
      after it. */
  lemma {:induction false} CascadeOrder(sch: Schema, rank: map<TableName, nat>, s: Snapshot, t: TableName, u: Uuid)
    requires WellFormed(sch, rank) && t in sch.tables
    requires DelRow(sch, rank, s, t, u).Ok?
    ensures ChildrenFirst(sch, s, DelRow(sch, rank, s, t, u).value.1)
    ensures Rooted(sch, s, {u}, DelRow(sch, rank, s, t, u).value.1)
    decreases rank[t], 2, 0
  {
    DelRowStep(sch, rank, s, t, u);
    var keys := DelKeys(sch, rank, s, t, u, sch.tables[t].children);
    var s1, trK := keys.value.0, keys.value.1;
    assert Present(s1, t, u);
    assert u !in Ids(trK);
    CascadeKeys(sch, rank, s, t, u, sch.tables[t].children);
    OrderAppend(sch, s, trK, t, u);
  }

  /** Appending a row after all the rows it owns keeps the order. */
  lemma OrderAppend(sch: Schema, s: Snapshot, trK: Trace, t: TableName, u: Uuid)
    requires ChildrenFirst(sch, s, trK) && Rooted(sch, s, Owned(sch, s, t, u), trK)
    requires Owned(sch, s, t, u) <= Ids(trK)
    ensures ChildrenFirst(sch, s, trK + [(t, u)]) && Rooted(sch, s, {u}, trK + [(t, u)])
  {
    var tr := trK + [(t, u)];
    var owned := Owned(sch, s, t, u);
    forall i, c | 0 <= i < |tr| && c in Owned(sch, s, tr[i].0, tr[i].1)
      ensures exists j :: 0 <= j < i && tr[j].1 == c
    {
      if i < |trK| {
        assert tr[i] == trK[i];
        var j :| 0 <= j < i && trK[j].1 == c;
        assert tr[j] == trK[j];
      } else {
        assert c in Ids(trK);
        var e :| e in trK && e.1 == c;
        var j :| 0 <= j < |trK| && trK[j] == e;
        assert tr[j] == trK[j];
      }
    }
    forall i | 0 <= i < |tr|
      ensures tr[i].1 in {u} || exists j :: i < j < |tr| && tr[i].1 in Owned(sch, s, tr[j].0, tr[j].1)
    {
      if i < |trK| {
        assert tr[i] == trK[i];
        if trK[i].1 !in owned {
          var j :| i < j < |trK| && trK[i].1 in Owned(sch, s, trK[j].0, trK[j].1);
          assert tr[j] == trK[j];
        } else {
          assert tr[|trK|] == (t, u);
        }
      }
    }
  }

  lemma {:induction false} CascadeKeys(sch: Schema, rank: map<TableName, nat>, s: Snapshot, t: TableName, u: Uuid, keys: seq<Column>)
    requires WellFormed(sch, rank) && t in sch.tables
    requires forall k :: k in keys ==> k in sch.tables[t].children
    requires DelKeys(sch, rank, s, t, u, keys).Ok?
    requires u !in Ids(DelKeys(sch, rank, s, t, u, keys).value.1)
    ensures var tr := DelKeys(sch, rank, s, t, u, keys).value.1;
            var owned := OwnedKeys(sch.tables[t], RowOf(s, u), keys);
            ChildrenFirst(sch, s, tr) && Rooted(sch, s, owned, tr) && owned <= Ids(tr)
    decreases rank[t], 1, |keys|
  {
    var ts := sch.tables[t];
    if keys == [] {
    } else if !IsForward(ts, keys[0]) {
      DelKeysSkip(sch, rank, s, t, u, keys);
      CascadeKeys(sch, rank, s, t, u, keys[1..]);
    } else {
      DelKeysStep(sch, rank, s, t, u, keys);
      var ct := ChildTable(ts, keys[0]);
      var cs := ChildRefs(Attr(s, u, keys[0])).value;
      var each := DelEach(sch, rank, s, ct, cs);
      var s1, tr1 := each.value.0, each.value.1;
      var rest := DelKeys(sch, rank, s1, t, u, keys[1..]);
      var tr2 := rest.value.1;
      assert DelKeys(sch, rank, s, t, u, keys).value.1 == tr1 + tr2;
      assert Ids(tr1 + tr2) == Ids(tr1) + Ids(tr2);
      CascadeEach(sch, rank, s, ct, cs);
      CascadeKeys(sch, rank, s1, t, u, keys[1..]);
      assert RowOf(s1, u) == RowOf(s, u);
      NotGoneBefore(sch, rank, s, Ids(tr1), rest.value, rank[t]);
      OrderTransfer(sch, s, Ids(tr1), OwnedKeys(ts, RowOf(s, u), keys[1..]), tr2);
      OrderConcat(sch, s, (set c | c in cs), tr1, OwnedKeys(ts, RowOf(s, u), keys[1..]), tr2);
    }
  }

  lemma {:induction false} CascadeEach(sch: Schema, rank: map<TableName, nat>, s: Snapshot, ct: TableName, cs: seq<Uuid>)
    requires WellFormed(sch, rank) && ct in sch.tables
    requires DelEach(sch, rank, s, ct, cs).Ok?
    ensures var tr := DelEach(sch, rank, s, ct, cs).value.1;
            ChildrenFirst(sch, s, tr) && Rooted(sch, s, (set c | c in cs), tr) && (set c | c in cs) <= Ids(tr)
    decreases rank[ct] + 1, 0, |cs|
  {
    if cs != [] {
      DelEachStep(sch, rank, s, ct, cs);
      var row := DelRow(sch, rank, s, ct, cs[0]);
      var s1, tr1 := row.value.0, row.value.1;
      var rest := DelEach(sch, rank, s1, ct, cs[1..]);
      var tr2 := rest.value.1;
      assert DelEach(sch, rank, s, ct, cs).value.1 == tr1 + tr2;
      CascadeOrder(sch, rank, s, ct, cs[0]);
      CascadeEach(sch, rank, s1, ct, cs[1..]);
      assert tr1[|tr1| - 1] in tr1;
      EachJoin(sch, rank, s, cs, tr1, rest.value, rank[ct] + 1);
    }
  }

  /** The deletion of `cs[0]`, then that of the rest of `cs` on the store
      it left, taken together on the store `s`. */
  lemma EachJoin(sch: Schema, rank: map<TableName, nat>, s: Snapshot, cs: seq<Uuid>, tr1: Trace,
                 res: (Snapshot, Trace), bound: nat)
    requires cs != [] && cs[0] in Ids(tr1)
    requires ChildrenFirst(sch, s, tr1) && Rooted(sch, s, {cs[0]}, tr1)
    requires Deletion(sch, rank, Prune(s, Ids(tr1)), res, bound)
    requires ChildrenFirst(sch, Prune(s, Ids(tr1)), res.1) && Rooted(sch, Prune(s, Ids(tr1)), (set c | c in cs[1..]), res.1)
    requires (set c | c in cs[1..]) <= Ids(res.1)
    ensures ChildrenFirst(sch, s, tr1 + res.1) && Rooted(sch, s, (set c | c in cs), tr1 + res.1)
    ensures (set c | c in cs) <= Ids(tr1 + res.1)
  {
    NotGoneBefore(sch, rank, s, Ids(tr1), res, bound);
    OrderTransfer(sch, s, Ids(tr1), (set c | c in cs[1..]), res.1);
    EachAppend(sch, s, cs, tr1, res.1);
  }

  /** The rows of `cs[0]`'s deletion, then those of the rest of `cs`. */
  lemma EachAppend(sch: Schema, s: Snapshot, cs: seq<Uuid>, tr1: Trace, tr2: Trace)
    requires cs != []
    requires ChildrenFirst(sch, s, tr1) && Rooted(sch, s, {cs[0]}, tr1) && cs[0] in Ids(tr1)
    requires ChildrenFirst(sch, s, tr2) && Rooted(sch, s, (set c | c in cs[1..]), tr2)
    requires (set c | c in cs[1..]) <= Ids(tr2)
    ensures ChildrenFirst(sch, s, tr1 + tr2) && Rooted(sch, s, (set c | c in cs), tr1 + tr2)
    ensures (set c | c in cs) <= Ids(tr1 + tr2)
  {
    OrderConcat(sch, s, {cs[0]}, tr1, (set c | c in cs[1..]), tr2);
    assert (set c | c in cs) == {cs[0]} + (set c | c in cs[1..]);
    assert Ids(tr1 + tr2) == Ids(tr1) + Ids(tr2);
  }

  // ---------------------------------------------------------------------
  // Clearing a table

  /** Removing a listed row shortens the list. */
  lemma {:induction false} WithoutShrinks(xs: seq<Uuid>, gone: set<Uuid>, w: Uuid)
    requires w in xs && w in gone
    ensures |Without(xs, gone)| < |xs|
  {
    if xs[0] != w {
      WithoutShrinks(xs[1..], gone, w);
    }
  }

  /** Deleting the first row of `t` keeps the store consistent and shortens `t`. */
  lemma ClearShrinks(sch: Schema, rank: map<TableName, nat>, s: Snapshot, t: TableName)
    requires WellFormed(sch, rank) && t in sch.tables && Consistent(s) && Covers(s, sch) && s.tables[t] != []
    requires DelRow(sch, rank, s, t, s.tables[t][0]).Ok?
    ensures var s' := DelRow(sch, rank, s, t, s.tables[t][0]).value.0;
            Consistent(s') && Covers(s', sch) && |s'.tables[t]| < |s.tables[t]|
  {
    var del := DelRow(sch, rank, s, t, s.tables[t][0]).value;
    PruneConsistent(s, Ids(del.1));
    assert del.1[|del.1| - 1] in del.1;
    WithoutShrinks(s.tables[t], Ids(del.1), s.tables[t][0]);
  }

  /** `setup_table` on a table the document does not list: while `t` has
      rows, `_delete` its first row.  Gives the store afterwards and every
      deleted row, in deletion order. */
  function Cleared(sch: Schema, rank: map<TableName, nat>, s: Snapshot, t: TableName): Result<(Snapshot, Trace)>
    requires WellFormed(sch, rank) && t in sch.tables && Consistent(s) && Covers(s, sch)
    decreases |s.tables[t]|
  {
    if s.tables[t] == [] then Ok((s, []))
    else
      match DelRow(sch, rank, s, t, s.tables[t][0])
      case Fail(e) => Fail(e)
      case Ok((s1, tr1)) =>
        ClearShrinks(sch, rank, s, t);
        AfterTrace(tr1, Cleared(sch, rank, s1, t))
  }

  /** Clearing a non-empty table is deleting its first row, then clearing
      what is left. */
  lemma ClearedStep(sch: Schema, rank: map<TableName, nat>, s: Snapshot, t: TableName)
    requires WellFormed(sch, rank) && t in sch.tables && Consistent(s) && Covers(s, sch) && s.tables[t] != []
    requires DelRow(sch, rank, s, t, s.tables[t][0]).Ok?
    ensures var del := DelRow(sch, rank, s, t, s.tables[t][0]).value;
            && Consistent(del.0) && Covers(del.0, sch)
            && Cleared(sch, rank, s, t) == AfterTrace(del.1, Cleared(sch, rank, del.0, t))
  {
    ClearShrinks(sch, rank, s, t);
  }

  /** A successful clearing is a deletion of the rows it traces, from
      `t` and the tables below it, and leaves `t` with no rows. */
  lemma {:induction false} ClearedDeletion(sch: Schema, rank: map<TableName, nat>, s: Snapshot, t: TableName)
    requires WellFormed(sch, rank) && t in sch.tables && Consistent(s) && Covers(s, sch)
    requires Cleared(sch, rank, s, t).Ok?
    ensures Deletion(sch, rank, s, Cleared(sch, rank, s, t).value, rank[t] + 1)
    ensures Cleared(sch, rank, s, t).value.0.tables[t] == []
    decreases |s.tables[t]|
  {
    if s.tables[t] == [] {
      DeletionNone(sch, rank, s, rank[t] + 1);
    } else {
      var del := DelRow(sch, rank, s, t, s.tables[t][0]).value;
      ClearShrinks(sch, rank, s, t);
      var rest := Cleared(sch, rank, del.0, t).value;
      ClearedDeletion(sch, rank, del.0, t);
      DeletionConcat(sch, rank, s, del.0, del.1, rest.0, rest.1, rank[t] + 1);
      assert Cleared(sch, rank, s, t).value == (rest.0, del.1 + rest.1);
    }
  }

  /** Clearing a table deletes every row of it and the whole forward-child
      closure beneath them, and nothing else: every row a deleted row owns
      is deleted before it, and every deleted row is a row of `t` or is
      owned by a row deleted after it. */
  lemma {:induction false} ClearCascade(sch: Schema, rank: map<TableName, nat>, s: Snapshot, t: TableName)
    requires WellFormed(sch, rank) && t in sch.tables && Consistent(s) && Covers(s, sch)
    requires Cleared(sch, rank, s, t).Ok?
    ensures var tr := Cleared(sch, rank, s, t).value.1;
            && (forall v :: v in s.tables[t] ==> v in Ids(tr))
            && ChildrenFirst(sch, s, tr)
            && Rooted(sch, s, (set v | v in s.tables[t]), tr)
    decreases |s.tables[t]|
  {
    if s.tables[t] != [] {
      var u := s.tables[t][0];
      var del := DelRow(sch, rank, s, t, u).value;
      ClearShrinks(sch, rank, s, t);
      var s1 := del.0;
      var rest := Cleared(sch, rank, s1, t).value;
      assert Cleared(sch, rank, s, t).value.1 == del.1 + rest.1;
      assert del.1[|del.1| - 1] in del.1;
      assert s1 == Prune(s, Ids(del.1));
      CascadeOrder(sch, rank, s, t, u);
      ClearCascade(sch, rank, s1, t);
      ClearedDeletion(sch, rank, s1, t);
      ClearJoin(sch, rank, s, s.tables[t], del.1, rest, rank[t] + 1);
    }
  }

  /** The rows of the first row's deletion, then those of clearing what
      is left of the table. */
  lemma ClearJoin(sch: Schema, rank: map<TableName, nat>, s: Snapshot, xs: seq<Uuid>, tr1: Trace,
                  res: (Snapshot, Trace), bound: nat)
    requires xs != [] && xs[0] in Ids(tr1)
    requires ChildrenFirst(sch, s, tr1) && Rooted(sch, s, {xs[0]}, tr1)
    requires Deletion(sch, rank, Prune(s, Ids(tr1)), res, bound)
    requires ChildrenFirst(sch, Prune(s, Ids(tr1)), res.1)
    requires Rooted(sch, Prune(s, Ids(tr1)), (set v | v in Without(xs, Ids(tr1))), res.1)
    requires forall v :: v in Without(xs, Ids(tr1)) ==> v in Ids(res.1)
    ensures ChildrenFirst(sch, s, tr1 + res.1) && Rooted(sch, s, (set v | v in xs), tr1 + res.1)
    ensures forall v :: v in xs ==> v in Ids(tr1 + res.1)
  {
    var later := set v | v in Without(xs, Ids(tr1));
    NotGoneBefore(sch, rank, s, Ids(tr1), res, bound);
    OrderTransfer(sch, s, Ids(tr1), later, res.1);
    OrderConcat(sch, s, {xs[0]}, tr1, later, res.1);
    RootedMore(sch, s, {xs[0]} + later, (set v | v in xs), tr1 + res.1);
    assert Ids(tr1 + res.1) == Ids(tr1) + Ids(res.1);
  }

  /** More roots still root a trace. */
  lemma RootedMore(sch: Schema, s: Snapshot, roots: set<Uuid>, more: set<Uuid>, tr: Trace)
    requires Rooted(sch, s, roots, tr) && roots <= more
    ensures Rooted(sch, s, more, tr)
  {
  }
}
