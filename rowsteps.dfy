/** The steps `setup_row` takes on one row before it turns to the row's
    children: resolve or insert the row, write its config columns, copy
    the index columns of a new row; and the frames that the recursive
    synchronisation composes. */
module Steps {
  import opened Outcomes
  import opened Dicts
  import opened Schema
  import opened Values
  import opened Store
  import opened Resolver
  import opened Cascade

  // ---------------------------------------------------------------------
  // Frames

  /** From `a` to `b`, only row `u` of table `t` and rows of tables ranked
      below `t` changed: the other tables of rank at least that of `t`
      kept their rows and attributes, table `t` kept its rows, and every
      row of `t` other than `u` kept its attributes. */
  ghost predicate Upkeep(sch: Schema, rank: map<TableName, nat>, a: Snapshot, b: Snapshot, t: TableName, u: Uuid)
    requires t in rank
  {
    && Kept(a, b, Upper(sch, rank, t))
    && Follows(a, b)
    && t in a.tables && t in b.tables && b.tables[t] == a.tables[t]
    && (forall v :: v in a.tables[t] && v != u ==> RowOf(b, v) == RowOf(a, v))
  }

  lemma KeptTrans(a: Snapshot, b: Snapshot, c: Snapshot, F: set<TableName>)
    requires Kept(a, b, F) && Kept(b, c, F)
    ensures Kept(a, c, F)
  {
  }

  lemma UpkeepTrans(sch: Schema, rank: map<TableName, nat>, a: Snapshot, b: Snapshot, c: Snapshot, t: TableName, u: Uuid)
    requires t in rank
    requires Upkeep(sch, rank, a, b, t, u) && Upkeep(sch, rank, b, c, t, u)
    ensures Upkeep(sch, rank, a, c, t, u)
  {
    KeptTrans(a, b, c, Upper(sch, rank, t));
  }

  lemma UpkeepRefl(sch: Schema, rank: map<TableName, nat>, a: Snapshot, t: TableName, u: Uuid)
    requires t in rank && t in a.tables
    ensures Upkeep(sch, rank, a, a, t, u)
  {
  }

  /** The tables a child table `ct` of `t` leaves alone include `t` and
      everything `t` leaves alone. */
  lemma UpperBelow(sch: Schema, rank: map<TableName, nat>, t: TableName, ct: TableName)
    requires t in sch.tables && t in rank && ct in rank && rank[ct] < rank[t]
    ensures Upper(sch, rank, t) + {t} <= Upper(sch, rank, ct)
  {
  }

  /** A change confined to tables below `t` is an upkeep of any row of `t`. */
  lemma BelowUpkeep(sch: Schema, rank: map<TableName, nat>, a: Snapshot, b: Snapshot, t: TableName, u: Uuid, F: set<TableName>)
    requires t in rank && Upper(sch, rank, t) + {t} <= F && t in a.tables
    requires Kept(a, b, F) && Follows(a, b)
    ensures Upkeep(sch, rank, a, b, t, u)
  {
  }

  lemma WithoutUntouched(xs: seq<Uuid>, gone: set<Uuid>)
    requires forall v :: v in xs ==> v !in gone
    ensures Without(xs, gone) == xs
  {
    if xs != [] {
      WithoutUntouched(xs[1..], gone);
    }
  }

  /** No row deleted by a cascade from tables ranked below `rank[x]` is a row of `x`. */
  lemma DeletionAvoids(sch: Schema, rank: map<TableName, nat>, s: Snapshot, res: (Snapshot, Trace), bound: nat, x: TableName)
    requires Consistent(s) && Deletion(sch, rank, s, res, bound)
    requires x in s.tables && x in rank && rank[x] >= bound
    ensures forall v :: v in s.tables[x] ==> v !in Ids(res.1)
  {
    forall e | e in res.1 ensures e.1 !in s.tables[x] {
      assert Present(s, e.0, e.1) && e.0 != x;
    }
  }

  /** A cascade delete from tables ranked below `bound` keeps every table
      of rank `bound` or more. */
  lemma DeletionKeeps(sch: Schema, rank: map<TableName, nat>, s: Snapshot, res: (Snapshot, Trace), bound: nat, F: set<TableName>)
    requires Consistent(s) && Deletion(sch, rank, s, res, bound)
    requires forall x :: x in F ==> x in s.tables && x in rank && rank[x] >= bound
    ensures Kept(s, res.0, F) && Follows(s, res.0) && Consistent(res.0)
  {
    forall x | x in F ensures Without(s.tables[x], Ids(res.1)) == s.tables[x] {
      DeletionAvoids(sch, rank, s, res, bound, x);
      WithoutUntouched(s.tables[x], Ids(res.1));
    }
    PruneConsistent(s, Ids(res.1));
  }

  /** A write to row `u` of table `t` is an upkeep of `u`. */
  lemma AssignUpkeep(sch: Schema, rank: map<TableName, nat>, s: Snapshot, t: TableName, u: Uuid, c: Column, v: Value)
    requires Consistent(s) && t in rank && Present(s, t, u) && u in s.cells
    ensures Upkeep(sch, rank, s, Assigned(s, u, c, v), t, u) && Consistent(Assigned(s, u, c, v))
  {
  }

  /** A write to a row of table `x` keeps every other table. */
  lemma AssignElsewhere(s: Snapshot, x: TableName, w: Uuid, c: Column, v: Value, F: set<TableName>)
    requires Consistent(s) && Present(s, x, w) && w in s.cells && x !in F
    ensures Kept(s, Assigned(s, w, c, v), F) && Follows(s, Assigned(s, w, c, v))
  {
    forall y | y in F && y in s.tables ensures forall v' :: v' in s.tables[y] ==> v' != w {
    }
  }

  /** The rows a deletion started from `cs` are gone afterwards, and their
      UUIDs are below the next one handed out. */
  lemma DeletedGone(sch: Schema, rank: map<TableName, nat>, s: Snapshot, res: (Snapshot, Trace), bound: nat, cs: seq<Uuid>)
    requires Consistent(s) && Deletion(sch, rank, s, res, bound) && (set c | c in cs) <= Ids(res.1)
    ensures forall w :: w in cs ==> w !in res.0.cells && w < res.0.next
  {
    forall w | w in cs ensures w !in res.0.cells && w < res.0.next {
      assert w in (set c | c in cs);
      assert w in Ids(res.1);
      var e :| e in res.1 && e.1 == w;
      assert Present(s, e.0, w);
      assert w in s.cells && w < s.next;
      assert res.0 == Prune(s, Ids(res.1));
    }
  }

  /** A change to the attributes of row `u` alone is an upkeep of `u`. */
  lemma OnlyRowUpkeep(sch: Schema, rank: map<TableName, nat>, a: Snapshot, b: Snapshot, t: TableName, u: Uuid)
    requires Consistent(a) && t in rank && Present(a, t, u)
    requires b.tables == a.tables && b.next == a.next && b.cells.Keys == a.cells.Keys
    requires forall v :: v != u ==> RowOf(b, v) == RowOf(a, v)
    ensures Upkeep(sch, rank, a, b, t, u) && Consistent(b)
  {
    forall x | x in Upper(sch, rank, t) && x in a.tables ensures forall v :: v in a.tables[x] ==> v != u {
    }
  }

  /** Inserting into `t` keeps every other table and every existing row. */
  lemma InsertedKeeps(sch: Schema, rank: map<TableName, nat>, s: Snapshot, t: TableName)
    requires Consistent(s) && t in s.tables && t in rank
    ensures Kept(s, Inserted(s, t), Upper(sch, rank, t)) && Follows(s, Inserted(s, t))
    ensures forall v :: v in s.cells ==> RowOf(Inserted(s, t), v) == RowOf(s, v)
    ensures RowOf(Inserted(s, t), s.next) == map[]
  {
  }

  // ---------------------------------------------------------------------
  // Resolving or inserting the row

  /** `row = index_to_row(...)`, then `txn.insert` when there is none:
      the row is new exactly when the token resolves to no row. */
  method ResolveOrInsert(h: Helpers, ts: TableSchema, idl: Idl, t: TableName, tok: Token)
      returns (r: Result<(Uuid, bool)>)
    requires t in idl.tables && Consistent(idl.Snap())
    modifies idl
    ensures r.Fail? <==> Resolve(h, ts, old(idl.Snap()), t, tok).Fail?
    ensures r.Fail? ==> r.error == Resolve(h, ts, old(idl.Snap()), t, tok).error && idl.Snap() == old(idl.Snap())
    ensures r.Ok? ==> (r.value.1 <==> Resolve(h, ts, old(idl.Snap()), t, tok) == Ok(None))
    ensures r.Ok? && !r.value.1 ==>
              Resolve(h, ts, old(idl.Snap()), t, tok) == Ok(Some(r.value.0)) && idl.Snap() == old(idl.Snap())
    ensures r.Ok? && r.value.1 ==>
              r.value.0 == old(idl.next) && idl.Snap() == Inserted(old(idl.Snap()), t)
    ensures r.Ok? ==> Present(idl.Snap(), t, r.value.0) && r.value.0 in idl.cells && Consistent(idl.Snap())
  {
    var found := IndexToRow(h, ts, idl, t, tok);
    if found.Fail? {
      return Fail(found.error);
    }
    if found.value.Some? {
      return Ok((found.value.value, false));
    }
    var u := idl.Insert(t);
    r := Ok((u, true));
  }

  // ---------------------------------------------------------------------
  // Config columns

  /** What the config loop of `setup_row` does to config column `k` of row
      `u` (from store `a` to store `b`), for a row that is new or not. */
  ghost predicate ConfigDone(h: Helpers, ts: TableSchema, isNew: bool, fields: Dict<Column, Doc>,
                             a: Snapshot, b: Snapshot, u: Uuid, k: Column)
    requires Has(ts.config, k)
  {
    var writable := isNew || Get(ts.config, k).value.mutable;
    var was := Attr(a, u, k);
    var now := Attr(b, u, k);
    // an immutable column of an existing row is left as it was
    && (!writable ==> now == was)
    // a provided value is assigned as given
    && (writable && Has(fields, k) ==> now == Data(Get(fields, k).value))
    // an omitted column keeps the default of a new row, is left alone
    // when it holds None, and is otherwise reset to the empty value of its type
    && (writable && !Has(fields, k) && (isNew || was == Null) ==> now == was)
    && (writable && !Has(fields, k) && !isNew && was != Null ==> now == h.emptyOf(was))
  }

  /** `ConfigDone` only looks at the column's old value. */
  lemma ConfigFrom(h: Helpers, ts: TableSchema, isNew: bool, fields: Dict<Column, Doc>,
                   a: Snapshot, a': Snapshot, b: Snapshot, u: Uuid, k: Column)
    requires Has(ts.config, k) && ConfigDone(h, ts, isNew, fields, a, b, u, k)
    requires Attr(a', u, k) == Attr(a, u, k)
    ensures ConfigDone(h, ts, isNew, fields, a', b, u, k)
  {
  }

  lemma ConfigFrame(h: Helpers, ts: TableSchema, isNew: bool, fields: Dict<Column, Doc>,
                    a: Snapshot, b: Snapshot, c: Snapshot, u: Uuid, k: Column)
    requires Has(ts.config, k) && ConfigDone(h, ts, isNew, fields, a, b, u, k)
    requires Attr(c, u, k) == Attr(b, u, k)
    ensures ConfigDone(h, ts, isNew, fields, a, c, u, k)
  {
  }

  /** One turn of the config loop: column `key` is done and the columns done
      before it are untouched. */
  lemma ConfigStep(h: Helpers, ts: TableSchema, isNew: bool, fields: Dict<Column, Doc>,
                   s0: Snapshot, prev: Snapshot, s: Snapshot, u: Uuid, done: seq<Column>, key: Column)
    requires Has(ts.config, key) && key !in done
    requires forall k :: k in done ==> Has(ts.config, k) && ConfigDone(h, ts, isNew, fields, s0, prev, u, k)
    requires forall c :: c != key ==> Attr(s, u, c) == Attr(prev, u, c)
    requires ConfigDone(h, ts, isNew, fields, s0, s, u, key)
    ensures forall k :: k in done + [key] ==> ConfigDone(h, ts, isNew, fields, s0, s, u, k)
  {
    forall k | k in done + [key] ensures ConfigDone(h, ts, isNew, fields, s0, s, u, k) {
      if k != key {
        ConfigFrame(h, ts, isNew, fields, s0, prev, s, u, k);
      }
    }
  }

  /** The config loop of `setup_row`: every config column of row `u` as
      `ConfigDone` says, and nothing else. */
  method SetupConfig(h: Helpers, ts: TableSchema, idl: Idl, u: Uuid, isNew: bool, fields: Dict<Column, Doc>)
    requires u in idl.cells && Distinct(Keys(ts.config))
    modifies idl
    ensures idl.tables == old(idl.tables) && idl.next == old(idl.next) && idl.cells.Keys == old(idl.cells.Keys)
    ensures forall v :: v != u ==> RowOf(idl.Snap(), v) == RowOf(old(idl.Snap()), v)
    ensures forall c :: !Has(ts.config, c) ==> Attr(idl.Snap(), u, c) == Attr(old(idl.Snap()), u, c)
    ensures forall k :: Has(ts.config, k) ==> ConfigDone(h, ts, isNew, fields, old(idl.Snap()), idl.Snap(), u, k)
  {
    ghost var s0 := idl.Snap();
    var keys := Keys(ts.config);
    var n := 0;
    while n < |keys|
      invariant 0 <= n <= |keys|
      invariant idl.tables == s0.tables && idl.next == s0.next && idl.cells.Keys == s0.cells.Keys
      invariant forall v :: v != u ==> RowOf(idl.Snap(), v) == RowOf(s0, v)
      invariant forall c :: c !in keys[..n] ==> Attr(idl.Snap(), u, c) == Attr(s0, u, c)
      invariant forall k :: k in keys[..n] ==> ConfigDone(h, ts, isNew, fields, s0, idl.Snap(), u, k)
    {
      var key := keys[n];
      assert key !in keys[..n];
      PrefixStep(keys, n);
      ghost var prev := idl.Snap();
      ConfigColumn(h, ts, idl, u, isNew, fields, key);
      ConfigFrom(h, ts, isNew, fields, prev, s0, idl.Snap(), u, key);
      ConfigStep(h, ts, isNew, fields, s0, prev, idl.Snap(), u, keys[..n], key);
      n := n + 1;
    }
  }

  /** The body of the config loop of `setup_row`, on column `key`. */
  method ConfigColumn(h: Helpers, ts: TableSchema, idl: Idl, u: Uuid, isNew: bool, fields: Dict<Column, Doc>, key: Column)
    requires u in idl.cells && Has(ts.config, key)
    modifies idl
    ensures idl.tables == old(idl.tables) && idl.next == old(idl.next) && idl.cells.Keys == old(idl.cells.Keys)
    ensures forall v :: v != u ==> RowOf(idl.Snap(), v) == RowOf(old(idl.Snap()), v)
    ensures forall c :: c != key ==> Attr(idl.Snap(), u, c) == Attr(old(idl.Snap()), u, c)
    ensures ConfigDone(h, ts, isNew, fields, old(idl.Snap()), idl.Snap(), u, key)
  {
    var spec := Get(ts.config, key).value;
    if !isNew && !spec.mutable {
      // an immutable column of an existing row is skipped
    } else if !Has(fields, key) {
      var was := Attr(idl.Snap(), u, key);
      if !(isNew || was == Null) {
        idl.SetAttr(u, key, h.emptyOf(was));
      }
    } else {
      idl.SetAttr(u, key, Data(Get(fields, key).value));
    }
  }

  // ---------------------------------------------------------------------
  // Index columns of a new row

  /** An index column that a new row takes from its data: not the row's
      UUID and not a config column. */
  predicate Copied(ts: TableSchema, k: Column) {
    k in ts.indexes && k != UuidColumn && !Has(ts.config, k)
  }

  /** The index loop of `setup_row` on a new row: succeeds exactly when the
      row data holds every copied index column (KeyError otherwise) and
      then assigns each of them as given. */
  method SetupIndexes(ts: TableSchema, idl: Idl, u: Uuid, fields: Dict<Column, Doc>) returns (r: Result<()>)
    requires u in idl.cells
    modifies idl
    ensures r.Ok? <==> forall k :: Copied(ts, k) ==> Has(fields, k)
    ensures r.Fail? ==> r.error == KeyError
    ensures r.Ok? ==> idl.tables == old(idl.tables) && idl.next == old(idl.next) && idl.cells.Keys == old(idl.cells.Keys)
    ensures r.Ok? ==> forall v :: v != u ==> RowOf(idl.Snap(), v) == RowOf(old(idl.Snap()), v)
    ensures r.Ok? ==> forall c :: !Copied(ts, c) ==> Attr(idl.Snap(), u, c) == Attr(old(idl.Snap()), u, c)
    ensures r.Ok? ==> forall k :: Copied(ts, k) ==> Attr(idl.Snap(), u, k) == Data(Get(fields, k).value)
  {
    ghost var s0 := idl.Snap();
    var keys := ts.indexes;
    var n := 0;
    while n < |keys|
      invariant 0 <= n <= |keys|
      invariant idl.tables == s0.tables && idl.next == s0.next && idl.cells.Keys == s0.cells.Keys
      invariant forall v :: v != u ==> RowOf(idl.Snap(), v) == RowOf(s0, v)
      invariant forall c :: !(Copied(ts, c) && c in keys[..n]) ==> Attr(idl.Snap(), u, c) == Attr(s0, u, c)
      invariant forall k :: Copied(ts, k) && k in keys[..n] ==>
                  Has(fields, k) && Attr(idl.Snap(), u, k) == Data(Get(fields, k).value)
    {
      var key := keys[n];
      PrefixStep(keys, n);
      if key != UuidColumn && !Has(ts.config, key) {
        if !Has(fields, key) {
          assert Copied(ts, key);
          return Fail(KeyError);
        }
        idl.SetAttr(u, key, Data(Get(fields, key).value));
      }
      n := n + 1;
    }
    assert keys[..n] == keys;
    r := Ok(());
  }

  // ---------------------------------------------------------------------
  // Forward child columns

  /** A forward child column is written on a new row or when it is mutable. */
  predicate ForwardWritable(ts: TableSchema, isNew: bool, key: Column)
    requires Has(ts.references, key)
  {
    isNew || Get(ts.references, key).value.mutable
  }

  /** What `setup_row` does to forward child column `key` of row `u`, from
      store `a` to store `b`: an immutable column of an existing row is
      left alone; an omitted column keeps the default of a new row, is
      left alone when it holds None and is otherwise cleared to the empty
      value of its type; a provided column becomes the synced children, a
      map for a key-value column and a list otherwise. */
  ghost predicate ForwardDone(h: Helpers, ts: TableSchema, isNew: bool, fields: Dict<Column, Doc>,
                              a: Snapshot, b: Snapshot, u: Uuid, key: Column)
    requires Has(ts.references, key)
  {
    var writable := ForwardWritable(ts, isNew, key);
    var was := Attr(a, u, key);
    var now := Attr(b, u, key);
    && (!writable ==> now == was)
    && (writable && !Has(fields, key) && (isNew || was == Null) ==> now == was)
    && (writable && !Has(fields, key) && !isNew && was != Null ==> now == h.emptyOf(was))
    && (writable && Has(fields, key) ==>
          if Get(ts.references, key).value.kvType then now.RefMap? else now.RefList?)
  }

  lemma ForwardFrame(h: Helpers, ts: TableSchema, isNew: bool, fields: Dict<Column, Doc>,
                     a: Snapshot, b: Snapshot, c: Snapshot, u: Uuid, key: Column)
    requires Has(ts.references, key) && ForwardDone(h, ts, isNew, fields, a, b, u, key)
    requires Attr(c, u, key) == Attr(b, u, key)
    ensures ForwardDone(h, ts, isNew, fields, a, c, u, key)
  {
  }

  /** One turn of the child-column loop of `setup_row`: column `key` is done
      if it is a forward one, and the forward columns done before it are
      untouched. */
  lemma ForwardStep(h: Helpers, ts: TableSchema, isNew: bool, fields: Dict<Column, Doc>,
                    s0: Snapshot, prev: Snapshot, s: Snapshot, u: Uuid, done: seq<Column>, key: Column)
    requires key !in done
    requires forall k :: k in done && IsForward(ts, k) ==> ForwardDone(h, ts, isNew, fields, s0, prev, u, k)
    requires forall c :: c != key ==> Attr(s, u, c) == Attr(prev, u, c)
    requires IsForward(ts, key) ==> ForwardDone(h, ts, isNew, fields, s0, s, u, key)
    ensures forall k :: k in done + [key] && IsForward(ts, k) ==> ForwardDone(h, ts, isNew, fields, s0, s, u, k)
  {
    forall k | k in done + [key] && IsForward(ts, k) ensures ForwardDone(h, ts, isNew, fields, s0, s, u, k) {
      if k != key {
        ForwardFrame(h, ts, isNew, fields, s0, prev, s, u, k);
      }
    }
  }

  lemma ForwardFrom(h: Helpers, ts: TableSchema, isNew: bool, fields: Dict<Column, Doc>, fields': Dict<Column, Doc>,
                    a: Snapshot, a': Snapshot, b: Snapshot, u: Uuid, key: Column)
    requires Has(ts.references, key) && ForwardDone(h, ts, isNew, fields, a, b, u, key)
    requires Attr(a', u, key) == Attr(a, u, key) && Get(fields', key) == Get(fields, key)
    ensures ForwardDone(h, ts, isNew, fields', a', b, u, key)
  {
  }
}
