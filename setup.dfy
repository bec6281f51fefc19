/** `setup_row` and `setup_table`: the first phase of a write.  Each row of
    the document is resolved or inserted, its config and index columns are
    written, and its child rows are synchronised recursively, forward
    children through the row's own reference column and backward children
    through the parent column of the child table. */
module Setup {
  import opened Outcomes
  import opened Dicts
  import opened Schema
  import opened Values
  import opened Store
  import opened Resolver
  import opened Cascade
  import opened Steps
  import opened Children

  /** A well-formed schema over a consistent store that holds every table of it. */
  ghost predicate Ready(sch: Schema, rank: map<TableName, nat>, s: Snapshot) {
    WellFormed(sch, rank) && Consistent(s) && Covers(s, sch)
  }

  /** The reference column of a forward child relationship. */
  function ForwardSpec(ts: TableSchema, key: Column): RefSpec
    requires Has(ts.references, key)
  {
    Get(ts.references, key).value
  }

  /** Where `setup_row` put its row: the token resolved without error; a
      new row `u` was appended to `t` exactly when it resolved to no row,
      and otherwise `u` is the row it resolved to; rows of `t` other than
      `u`, and every other table not ranked below `t`, are untouched. */
  ghost predicate Placed(h: Helpers, sch: Schema, rank: map<TableName, nat>, a: Snapshot, b: Snapshot,
                         t: TableName, tok: Token, u: Uuid)
    requires t in sch.tables && t in a.tables && t in rank
  {
    var res := Resolve(h, sch.tables[t], a, t, tok);
    && res.Ok?
    && t in b.tables
    && (res.value.None? ==> u == a.next && b.tables[t] == a.tables[t] + [u])
    && (res.value.Some? ==> res.value.value == u && b.tables[t] == a.tables[t])
    && Kept(a, b, Upper(sch, rank, t))
    && (forall v :: v in a.tables[t] && v != u ==> RowOf(b, v) == RowOf(a, v))
  }

  /** What `setup_row` wrote into row `u` itself, from `a` to `b`: every
      config column as `ConfigDone` says; on a new row every index column
      that is neither the UUID nor a config column was provided and, when it
      is not a child column, holds the provided value; every forward child
      column as `ForwardDone` says. */
  ghost predicate RowWritten(h: Helpers, ts: TableSchema, isNew: bool, fields: Dict<Column, Doc>,
                             a: Snapshot, b: Snapshot, u: Uuid)
  {
    && (forall k :: Has(ts.config, k) ==> ConfigDone(h, ts, isNew, fields, a, b, u, k))
    && (isNew ==> forall k :: Copied(ts, k) ==> Has(fields, k))
    && (isNew ==> forall k :: Copied(ts, k) && k !in ts.children ==> Attr(b, u, k) == Data(Get(fields, k).value))
    && (forall key :: key in ts.children && IsForward(ts, key) && !(isNew && Copied(ts, key)) ==>
          ForwardDone(h, ts, isNew, fields, a, b, u, key))
  }

  /** A row deleted before stays deleted. */
  lemma GoneStays(a: Snapshot, b: Snapshot, w: Uuid)
    requires w !in a.cells && w < a.next && Follows(a, b)
    ensures w !in b.cells
  {
  }

  // ---------------------------------------------------------------------
  // setup_row

  /** `setup_row({tok: doc}, t, ...)`: returns the row written and the row
      data as rewritten in place (child indexes replaced by row UUIDs). */
  method SetupRow(h: Helpers, sch: Schema, ghost rank: map<TableName, nat>, idl: Idl, t: TableName, tok: Token, doc: Doc)
      returns (r: Result<(Uuid, Doc)>)
    requires Ready(sch, rank, idl.Snap()) && t in sch.tables
    modifies idl
    ensures !doc.Record? ==> r == Fail(TypeError)
    ensures doc.Record? && Resolve(h, sch.tables[t], old(idl.Snap()), t, tok).Fail? ==>
              r == Fail(Resolve(h, sch.tables[t], old(idl.Snap()), t, tok).error)
    ensures r.Ok? ==> Ready(sch, rank, idl.Snap()) && Follows(old(idl.Snap()), idl.Snap())
    ensures r.Ok? ==> Present(idl.Snap(), t, r.value.0) && doc.Record?
    ensures r.Ok? ==> Placed(h, sch, rank, old(idl.Snap()), idl.Snap(), t, tok, r.value.0)
    ensures r.Ok? ==> RowWritten(h, sch.tables[t], Resolve(h, sch.tables[t], old(idl.Snap()), t, tok) == Ok(None),
                                 doc.fields, old(idl.Snap()), idl.Snap(), r.value.0)
    ensures r.Ok? ==> r.value.1.Record? && Keys(r.value.1.fields) == Keys(doc.fields)
    decreases rank[t], 4
  {
    if !doc.Record? {
      return Fail(TypeError);
    }
    var ts := sch.tables[t];
    var fields := doc.fields;
    ghost var s0 := idl.Snap();
    var own := WriteOwn(h, sch, rank, idl, t, tok, fields);
    if own.Fail? {
      return Fail(own.error);
    }
    var u, isNew := own.value.0, own.value.1;
    ghost var s1 := idl.Snap();
    var rest := SetupChildren(h, sch, rank, idl, t, u, isNew, fields);
    if rest.Fail? {
      return Fail(rest.error);
    }
    RowDone(h, sch, rank, t, tok, isNew, fields, s0, s1, idl.Snap(), u);
    r := Ok((u, Record(rest.value)));
  }

  /** `setup_row` as the loops over the entries of a table rely on it: the
      store stays ready, every row listed before is still listed and, other
      than the row set up, keeps its attributes, and the entry was set up as
      `EntrySetUp` says. */
  method SetupEntry(h: Helpers, sch: Schema, ghost rank: map<TableName, nat>, idl: Idl, t: TableName, tok: Token, doc: Doc)
      returns (r: Result<(Uuid, Doc)>)
    requires Ready(sch, rank, idl.Snap()) && t in sch.tables
    modifies idl
    ensures r.Ok? ==> Ready(sch, rank, idl.Snap()) && Follows(old(idl.Snap()), idl.Snap())
    ensures r.Ok? ==> Kept(old(idl.Snap()), idl.Snap(), Upper(sch, rank, t)) && Present(idl.Snap(), t, r.value.0)
    ensures r.Ok? ==> forall v :: v in old(idl.tables[t]) ==>
              v in idl.tables[t] && (v != r.value.0 ==> RowOf(idl.Snap(), v) == RowOf(old(idl.Snap()), v))
    ensures r.Ok? ==> EntrySetUp(h, sch, rank, t, tok, doc, old(idl.Snap()), idl.Snap(), r.value.0)
    decreases rank[t], 5
  {
    r := SetupRow(h, sch, rank, idl, t, tok, doc);
  }

  /** Entry `tok: doc` of table `t` was set up from `a` to `b` as row `u`:
      the row data is an object, the row was placed as `Placed` says and
      written as `RowWritten` says, and the store stays consistent. */
  ghost predicate EntrySetUp(h: Helpers, sch: Schema, rank: map<TableName, nat>, t: TableName, tok: Token, doc: Doc,
                             a: Snapshot, b: Snapshot, u: Uuid)
  {
    && t in sch.tables && t in a.tables && t in rank && doc.Record?
    && Placed(h, sch, rank, a, b, t, tok, u)
    && RowWritten(h, sch.tables[t], Resolve(h, sch.tables[t], a, t, tok) == Ok(None), doc.fields, a, b, u)
    && Consistent(b) && Follows(a, b) && Present(b, t, u)
  }

  /** The first `n` entries of table `t` were set up in order: entry `i` took
      the store from `snaps[i]` to `snaps[i + 1]` and gave row `rows[i]`. */
  ghost predicate Ran(h: Helpers, sch: Schema, rank: map<TableName, nat>, t: TableName, entries: Dict<Token, Doc>,
                      n: nat, snaps: seq<Snapshot>, rows: seq<Uuid>)
  {
    && n <= |entries| && |rows| == n && |snaps| == n + 1
    && forall i :: 0 <= i < n ==>
         EntrySetUp(h, sch, rank, t, entries[i].0, entries[i].1, snaps[i], snaps[i + 1], rows[i])
  }

  /** One more entry set up extends the run. */
  lemma RanStep(h: Helpers, sch: Schema, rank: map<TableName, nat>, t: TableName, entries: Dict<Token, Doc>,
                n: nat, snaps: seq<Snapshot>, rows: seq<Uuid>, b: Snapshot, v: Uuid)
    requires Ran(h, sch, rank, t, entries, n, snaps, rows) && n < |entries|
    requires EntrySetUp(h, sch, rank, t, entries[n].0, entries[n].1, snaps[n], b, v)
    ensures Ran(h, sch, rank, t, entries, n + 1, snaps + [b], rows + [v])
  {
    var snaps', rows' := snaps + [b], rows + [v];
    forall i | 0 <= i < n + 1
      ensures EntrySetUp(h, sch, rank, t, entries[i].0, entries[i].1, snaps'[i], snaps'[i + 1], rows'[i])
    {
      if i < n {
        assert snaps'[i] == snaps[i] && snaps'[i + 1] == snaps[i + 1] && rows'[i] == rows[i];
      }
    }
  }

  /** The rows a run appended to table `t`: those of the entries whose token
      resolved to no row, in order. */
  ghost function NewRows(h: Helpers, sch: Schema, t: TableName, entries: Dict<Token, Doc>, n: nat,
                         snaps: seq<Snapshot>, rows: seq<Uuid>): seq<Uuid>
    requires t in sch.tables && n <= |entries| && |rows| == n && |snaps| == n + 1
  {
    if n == 0 then []
    else
      NewRows(h, sch, t, entries, n - 1, snaps[..n], rows[..n - 1]) +
      (if t in snaps[n - 1].tables && Resolve(h, sch.tables[t], snaps[n - 1], t, entries[n - 1].0) == Ok(None)
       then [rows[n - 1]] else [])
  }

  /** What a run does to table `t` and to the next free UUID, entry by
      entry: a token that resolved to no row appended the fresh row `u`,
      any other token left `t` as it was. */
  ghost predicate Grows(h: Helpers, sch: Schema, t: TableName, entries: Dict<Token, Doc>,
                        n: nat, snaps: seq<Snapshot>, rows: seq<Uuid>)
  {
    && n <= |entries| && |rows| == n && |snaps| == n + 1 && t in sch.tables && t in snaps[0].tables
    && forall i :: 0 <= i < n ==> Appended(h, sch, t, entries[i].0, snaps[i], snaps[i + 1], rows[i])
  }

  ghost predicate Appended(h: Helpers, sch: Schema, t: TableName, tok: Token, a: Snapshot, b: Snapshot, u: Uuid)
    requires t in sch.tables
  {
    && t in a.tables && t in b.tables && a.next <= b.next && u < b.next
    && (Resolve(h, sch.tables[t], a, t, tok) == Ok(None) ==> u == a.next && b.tables[t] == a.tables[t] + [u])
    && (Resolve(h, sch.tables[t], a, t, tok) != Ok(None) ==> b.tables[t] == a.tables[t])
  }

  lemma RanGrows(h: Helpers, sch: Schema, rank: map<TableName, nat>, t: TableName, entries: Dict<Token, Doc>,
                 n: nat, snaps: seq<Snapshot>, rows: seq<Uuid>)
    requires Ran(h, sch, rank, t, entries, n, snaps, rows) && t in sch.tables && t in snaps[0].tables
    ensures Grows(h, sch, t, entries, n, snaps, rows)
  {
    forall i | 0 <= i < n ensures Appended(h, sch, t, entries[i].0, snaps[i], snaps[i + 1], rows[i]) {
      assert EntrySetUp(h, sch, rank, t, entries[i].0, entries[i].1, snaps[i], snaps[i + 1], rows[i]);
      assert rows[i] in snaps[i + 1].cells;
    }
  }

  lemma GrowsPrefix(h: Helpers, sch: Schema, t: TableName, entries: Dict<Token, Doc>,
                    n: nat, snaps: seq<Snapshot>, rows: seq<Uuid>)
    requires Grows(h, sch, t, entries, n, snaps, rows) && n > 0
    ensures Grows(h, sch, t, entries, n - 1, snaps[..n], rows[..n - 1])
  {
    var ss, rs := snaps[..n], rows[..n - 1];
    forall i | 0 <= i < n - 1 ensures Appended(h, sch, t, entries[i].0, ss[i], ss[i + 1], rs[i]) {
      assert Appended(h, sch, t, entries[i].0, snaps[i], snaps[i + 1], rows[i]);
    }
  }

  /** A run only appends to table `t`: at the end, `t` lists the rows it
      listed at the start followed by the new rows of the run. */
  lemma {:induction false} RanAppends(h: Helpers, sch: Schema, rank: map<TableName, nat>, t: TableName,
                                      entries: Dict<Token, Doc>, n: nat, snaps: seq<Snapshot>, rows: seq<Uuid>)
    requires Ran(h, sch, rank, t, entries, n, snaps, rows) && t in sch.tables && t in snaps[0].tables
    ensures t in snaps[n].tables
    ensures snaps[n].tables[t] == snaps[0].tables[t] + NewRows(h, sch, t, entries, n, snaps, rows)
  {
    RanGrows(h, sch, rank, t, entries, n, snaps, rows);
    GrowsAppends(h, sch, t, entries, n, snaps, rows);
  }

  lemma {:induction false} GrowsAppends(h: Helpers, sch: Schema, t: TableName,
                                        entries: Dict<Token, Doc>, n: nat, snaps: seq<Snapshot>, rows: seq<Uuid>)
    requires Grows(h, sch, t, entries, n, snaps, rows)
    ensures t in snaps[n].tables
    ensures snaps[n].tables[t] == snaps[0].tables[t] + NewRows(h, sch, t, entries, n, snaps, rows)
  {
    if n > 0 {
      var m := n - 1;
      var ss, rs := snaps[..n], rows[..m];
      GrowsPrefix(h, sch, t, entries, n, snaps, rows);
      GrowsAppends(h, sch, t, entries, m, ss, rs);
      assert ss[0] == snaps[0] && ss[m] == snaps[m];
      assert Appended(h, sch, t, entries[m].0, snaps[m], snaps[n], rows[m]);
    }
  }

  /** Every new row of a run is a fresh row, different from every row set
      up before it. */
  lemma RanFresh(h: Helpers, sch: Schema, rank: map<TableName, nat>, t: TableName,
                 entries: Dict<Token, Doc>, n: nat, snaps: seq<Snapshot>, rows: seq<Uuid>, i: nat, j: nat)
    requires Ran(h, sch, rank, t, entries, n, snaps, rows) && i < j < n
    requires t in sch.tables && t in snaps[j].tables && Resolve(h, sch.tables[t], snaps[j], t, entries[j].0) == Ok(None)
    ensures rows[i] != rows[j]
  {
    assert EntrySetUp(h, sch, rank, t, entries[0].0, entries[0].1, snaps[0], snaps[1], rows[0]);
    RanGrows(h, sch, rank, t, entries, n, snaps, rows);
    GrowsNext(h, sch, t, entries, n, snaps, rows);
    assert Appended(h, sch, t, entries[j].0, snaps[j], snaps[j + 1], rows[j]);
    assert rows[i] < snaps[i + 1].next <= snaps[j].next == rows[j];
  }

  /** Along a run the next free UUID never decreases. */
  lemma {:induction false} GrowsNext(h: Helpers, sch: Schema, t: TableName,
                                     entries: Dict<Token, Doc>, n: nat, snaps: seq<Snapshot>, rows: seq<Uuid>)
    requires Grows(h, sch, t, entries, n, snaps, rows)
    ensures forall i, j :: 0 <= i < j <= n ==> snaps[i].next <= snaps[j].next
  {
    if n > 0 {
      var m := n - 1;
      var ss, rs := snaps[..n], rows[..m];
      GrowsPrefix(h, sch, t, entries, n, snaps, rows);
      GrowsNext(h, sch, t, entries, m, ss, rs);
      assert Appended(h, sch, t, entries[m].0, snaps[m], snaps[n], rows[m]);
      forall i, j | 0 <= i < j <= n ensures snaps[i].next <= snaps[j].next {
        assert ss[i] == snaps[i] && ss[m] == snaps[m];
        if j < n {
          assert ss[j] == snaps[j];
        }
      }
    }
  }

  /** A placement followed by an upkeep of the placed row is a placement. */
  lemma PlacedUpkeep(h: Helpers, sch: Schema, rank: map<TableName, nat>, a: Snapshot, b: Snapshot, c: Snapshot,
                     t: TableName, tok: Token, u: Uuid)
    requires t in sch.tables && t in a.tables && t in rank
    requires Placed(h, sch, rank, a, b, t, tok, u) && Upkeep(sch, rank, b, c, t, u)
    ensures Placed(h, sch, rank, a, c, t, tok, u)
  {
    KeptTrans(a, b, c, Upper(sch, rank, t));
  }

  /** `setup_row` on its own row, then on its children, leaves the row as
      `RowWritten` says: the facts of the first steps survive the children. */
  lemma RowDone(h: Helpers, sch: Schema, rank: map<TableName, nat>, t: TableName, tok: Token, isNew: bool,
                fields: Dict<Column, Doc>, s0: Snapshot, s1: Snapshot, s2: Snapshot, u: Uuid)
    requires WellFormed(sch, rank) && t in sch.tables && t in s0.tables
    requires Placed(h, sch, rank, s0, s1, t, tok, u) && Upkeep(sch, rank, s1, s2, t, u)
    requires forall k :: Has(sch.tables[t].config, k) ==> ConfigDone(h, sch.tables[t], isNew, fields, s0, s1, u, k)
    requires isNew ==> forall k :: Copied(sch.tables[t], k) ==>
               Has(fields, k) && Attr(s1, u, k) == Data(Get(fields, k).value)
    requires forall c :: !Has(sch.tables[t].config, c) && !(isNew && Copied(sch.tables[t], c)) ==>
               Attr(s1, u, c) == Attr(s0, u, c)
    requires forall c :: c !in sch.tables[t].children ==> Attr(s2, u, c) == Attr(s1, u, c)
    requires forall key :: key in sch.tables[t].children && IsForward(sch.tables[t], key) ==>
               ForwardDone(h, sch.tables[t], isNew, fields, s1, s2, u, key)
    ensures Placed(h, sch, rank, s0, s2, t, tok, u)
    ensures RowWritten(h, sch.tables[t], isNew, fields, s0, s2, u)
  {
    var ts := sch.tables[t];
    PlacedUpkeep(h, sch, rank, s0, s1, s2, t, tok, u);
    forall k | Has(ts.config, k) ensures ConfigDone(h, ts, isNew, fields, s0, s2, u, k) {
      ConfigFrame(h, ts, isNew, fields, s0, s1, s2, u, k);
    }
    forall key | key in ts.children && IsForward(ts, key) && !(isNew && Copied(ts, key))
      ensures ForwardDone(h, ts, isNew, fields, s0, s2, u, key)
    {
      ForwardFrom(h, ts, isNew, fields, fields, s1, s0, s2, u, key);
    }
  }

  /** The first steps of `setup_row` on its own row: resolve the token or
      insert a new row, write the config columns and, on a new row, copy
      the index columns from the row data. */
  method WriteOwn(h: Helpers, sch: Schema, ghost rank: map<TableName, nat>, idl: Idl, t: TableName, tok: Token,
                  fields: Dict<Column, Doc>) returns (r: Result<(Uuid, bool)>)
    requires Ready(sch, rank, idl.Snap()) && t in sch.tables
    modifies idl
    ensures Resolve(h, sch.tables[t], old(idl.Snap()), t, tok).Fail? ==>
              r == Fail(Resolve(h, sch.tables[t], old(idl.Snap()), t, tok).error)
    ensures r.Ok? ==> (r.value.1 <==> Resolve(h, sch.tables[t], old(idl.Snap()), t, tok) == Ok(None))
    ensures r.Ok? ==> Ready(sch, rank, idl.Snap()) && Follows(old(idl.Snap()), idl.Snap())
    ensures r.Ok? ==> Present(idl.Snap(), t, r.value.0) && Placed(h, sch, rank, old(idl.Snap()), idl.Snap(), t, tok, r.value.0)
    ensures r.Ok? ==> forall k :: Has(sch.tables[t].config, k) ==>
              ConfigDone(h, sch.tables[t], r.value.1, fields, old(idl.Snap()), idl.Snap(), r.value.0, k)
    ensures r.Ok? && r.value.1 ==> forall k :: Copied(sch.tables[t], k) ==>
              Has(fields, k) && Attr(idl.Snap(), r.value.0, k) == Data(Get(fields, k).value)
    ensures r.Ok? ==> forall c :: !Has(sch.tables[t].config, c) && !(r.value.1 && Copied(sch.tables[t], c)) ==>
              Attr(idl.Snap(), r.value.0, c) == Attr(old(idl.Snap()), r.value.0, c)
    ensures Resolve(h, sch.tables[t], old(idl.Snap()), t, tok) == Ok(None) &&
              !(forall k :: Copied(sch.tables[t], k) ==> Has(fields, k)) ==>
              r == Fail(KeyError)
  {
    var ts := sch.tables[t];
    ghost var s0 := idl.Snap();
    var found := ResolveOrInsert(h, ts, idl, t, tok);
    if found.Fail? {
      return Fail(found.error);
    }
    var u, isNew := found.value.0, found.value.1;
    ghost var s1 := idl.Snap();
    if isNew {
      InsertedKeeps(sch, rank, s0, t);
    }
    assert RowOf(s1, u) == RowOf(s0, u);
    SetupConfig(h, ts, idl, u, isNew, fields);
    ghost var s2 := idl.Snap();
    if isNew {
      var copied := SetupIndexes(ts, idl, u, fields);
      if copied.Fail? {
        return Fail(copied.error);
      }
    }
    ghost var s3 := idl.Snap();
    OnlyRowUpkeep(sch, rank, s1, s3, t, u);
    KeptTrans(s0, s1, s3, Upper(sch, rank, t));
    forall k | Has(ts.config, k) ensures ConfigDone(h, ts, isNew, fields, s0, s3, u, k) {
      ConfigFrame(h, ts, isNew, fields, s1, s2, s3, u, k);
      ConfigFrom(h, ts, isNew, fields, s1, s0, s3, u, k);
    }
    r := Ok((u, isNew));
  }

  /** The loop of `setup_row` over the child relationships of table `t`,
      threading the row data as each relationship rewrites its part. */
  method SetupChildren(h: Helpers, sch: Schema, ghost rank: map<TableName, nat>, idl: Idl, t: TableName, u: Uuid,
                       isNew: bool, fields: Dict<Column, Doc>) returns (r: Result<Dict<Column, Doc>>)
    requires Ready(sch, rank, idl.Snap()) && t in sch.tables && Present(idl.Snap(), t, u)
    modifies idl
    ensures r.Ok? ==> Ready(sch, rank, idl.Snap()) && Upkeep(sch, rank, old(idl.Snap()), idl.Snap(), t, u)
    ensures r.Ok? ==> forall c :: c !in sch.tables[t].children ==> Attr(idl.Snap(), u, c) == Attr(old(idl.Snap()), u, c)
    ensures r.Ok? ==> forall key :: key in sch.tables[t].children && IsForward(sch.tables[t], key) ==>
              ForwardDone(h, sch.tables[t], isNew, fields, old(idl.Snap()), idl.Snap(), u, key)
    ensures r.Ok? ==> Keys(r.value) == Keys(fields)
    decreases rank[t], 3
  {
    ghost var s0 := idl.Snap();
    var ts := sch.tables[t];
    var keys := ts.children;
    var fs := fields;
    UpkeepRefl(sch, rank, s0, t, u);
    var n := 0;
    while n < |keys|
      invariant 0 <= n <= |keys|
      invariant Ready(sch, rank, idl.Snap()) && Upkeep(sch, rank, s0, idl.Snap(), t, u)
      invariant Keys(fs) == Keys(fields)
      invariant forall c :: c !in keys[..n] ==> Get(fs, c) == Get(fields, c)
      invariant forall c :: c !in keys[..n] ==> Attr(idl.Snap(), u, c) == Attr(s0, u, c)
      invariant forall key :: key in keys[..n] && IsForward(ts, key) ==>
                  ForwardDone(h, ts, isNew, fields, s0, idl.Snap(), u, key)
    {
      var key := keys[n];
      assert key !in keys[..n];
      PrefixStep(keys, n);
      ghost var prev := idl.Snap();
      ghost var fsPrev := fs;
      if IsForward(ts, key) {
        var res := SyncForward(h, sch, rank, idl, t, u, isNew, key, fs);
        if res.Fail? {
          return Fail(res.error);
        }
        fs := res.value;
        ForwardFrom(h, ts, isNew, fsPrev, fields, prev, s0, idl.Snap(), u, key);
      } else {
        ghost var kids: seq<Uuid>, snaps: seq<Snapshot>, mids: seq<Snapshot>;
        var res;
        res, kids, snaps, mids := SyncBackward(h, sch, rank, idl, t, u, isNew, key, fs);
        if res.Fail? {
          return Fail(res.error);
        }
        fs := res.value;
      }
      ForwardStep(h, ts, isNew, fields, s0, prev, idl.Snap(), u, keys[..n], key);
      UpkeepTrans(sch, rank, s0, prev, idl.Snap(), t, u);
      n := n + 1;
    }
    r := Ok(fs);
  }

  // ---------------------------------------------------------------------
  // Forward children

  /** One forward child relationship `key` of row `u`: skipped when the row
      exists and the column is immutable; cleared when omitted; otherwise
      synchronised from the provided rows. */
  method SyncForward(h: Helpers, sch: Schema, ghost rank: map<TableName, nat>, idl: Idl, t: TableName, u: Uuid,
                     isNew: bool, key: Column, fields: Dict<Column, Doc>) returns (r: Result<Dict<Column, Doc>>)
    requires Ready(sch, rank, idl.Snap()) && t in sch.tables && Present(idl.Snap(), t, u)
    requires key in sch.tables[t].children && IsForward(sch.tables[t], key)
    modifies idl
    ensures r.Ok? ==> Ready(sch, rank, idl.Snap()) && Upkeep(sch, rank, old(idl.Snap()), idl.Snap(), t, u)
    ensures r.Ok? ==> forall c :: c != key ==> Attr(idl.Snap(), u, c) == Attr(old(idl.Snap()), u, c)
    ensures r.Ok? ==> ForwardDone(h, sch.tables[t], isNew, fields, old(idl.Snap()), idl.Snap(), u, key)
    ensures r.Ok? ==> Keys(r.value) == Keys(fields) && forall c :: c != key ==> Get(r.value, c) == Get(fields, c)
    ensures !ForwardWritable(sch.tables[t], isNew, key) ==> r == Ok(fields) && idl.Snap() == old(idl.Snap())
    ensures ForwardWritable(sch.tables[t], isNew, key) && !Has(fields, key) ==> r == Ok(fields)
    ensures ForwardWritable(sch.tables[t], isNew, key) && Has(fields, key) && !Get(fields, key).value.Rows? ==>
              r == Fail(AttributeError)
    decreases rank[t], 2
  {
    ghost var s0 := idl.Snap();
    var ts := sch.tables[t];
    UpkeepRefl(sch, rank, s0, t, u);
    if !isNew && !ForwardSpec(ts, key).mutable {
      return Ok(fields);
    }
    if !Has(fields, key) {
      var was := Attr(idl.Snap(), u, key);
      if !isNew && was != Null {
        idl.SetAttr(u, key, h.emptyOf(was));
        AssignUpkeep(sch, rank, s0, t, u, key, h.emptyOf(was));
      }
      return Ok(fields);
    }
    r := ForwardRows(h, sch, rank, idl, t, u, isNew, key, fields);
  }

  /** A writable forward child relationship `key` whose rows the document
      provides: the provided value must be table data. */
  method ForwardRows(h: Helpers, sch: Schema, ghost rank: map<TableName, nat>, idl: Idl, t: TableName, u: Uuid,
                     isNew: bool, key: Column, fields: Dict<Column, Doc>) returns (r: Result<Dict<Column, Doc>>)
    requires Ready(sch, rank, idl.Snap()) && t in sch.tables && Present(idl.Snap(), t, u)
    requires key in sch.tables[t].children && IsForward(sch.tables[t], key)
    requires ForwardWritable(sch.tables[t], isNew, key) && Has(fields, key)
    modifies idl
    ensures r.Ok? ==> Ready(sch, rank, idl.Snap()) && Upkeep(sch, rank, old(idl.Snap()), idl.Snap(), t, u)
    ensures r.Ok? ==> forall c :: c != key ==> Attr(idl.Snap(), u, c) == Attr(old(idl.Snap()), u, c)
    ensures r.Ok? ==> ForwardDone(h, sch.tables[t], isNew, fields, old(idl.Snap()), idl.Snap(), u, key)
    ensures r.Ok? ==> Keys(r.value) == Keys(fields) && forall c :: c != key ==> Get(r.value, c) == Get(fields, c)
    ensures !Get(fields, key).value.Rows? ==> r == Fail(AttributeError)
    decreases rank[t], 1, 1
  {
    var data := Get(fields, key).value;
    if !data.Rows? {
      return Fail(AttributeError);
    }
    ghost var s0 := idl.Snap();
    ghost var kids: Dict<Token, Uuid>;
    var res;
    res, kids := ProvidedEntry(h, sch, rank, idl, t, u, isNew, key, data.entries);
    if res.Fail? {
      return Fail(res.error);
    }
    ProvidedDone(h, sch.tables[t], isNew, fields, s0, idl.Snap(), u, key, kids);
    PutKeys(fields, key, Rows(res.value));
    PutElsewhere(fields, key, Rows(res.value));
    r := Ok(Put(fields, key, Rows(res.value)));
  }

  /** `SyncProvided` as a forward child column relies on it: the store
      stays ready, only row `u`'s column `key` changes among the rows of `t`
      and above, and that column holds the linked children. */
  method ProvidedEntry(h: Helpers, sch: Schema, ghost rank: map<TableName, nat>, idl: Idl, t: TableName, u: Uuid,
                       isNew: bool, key: Column, entries: Dict<Token, Doc>)
      returns (r: Result<Dict<Token, Doc>>, ghost kids: Dict<Token, Uuid>)
    requires Ready(sch, rank, idl.Snap()) && t in sch.tables && Present(idl.Snap(), t, u)
    requires key in sch.tables[t].children && IsForward(sch.tables[t], key)
    modifies idl
    ensures r.Ok? ==> Ready(sch, rank, idl.Snap()) && Upkeep(sch, rank, old(idl.Snap()), idl.Snap(), t, u)
    ensures r.Ok? ==> forall c :: c != key ==> Attr(idl.Snap(), u, c) == Attr(old(idl.Snap()), u, c)
    ensures r.Ok? ==> Linked(h, ForwardSpec(sch.tables[t], key), kids).Ok? &&
                      Attr(idl.Snap(), u, key) == Linked(h, ForwardSpec(sch.tables[t], key), kids).value
    decreases rank[t], 1, 0, 1
  {
    ghost var synced: Dict<Token, Doc>;
    ghost var snaps: seq<Snapshot>;
    ghost var rows: seq<Uuid>;
    r, kids, synced, snaps, rows := SyncProvided(h, sch, rank, idl, t, u, isNew, key, entries);
  }

  /** A provided, writable forward child column that holds the linked
      children is done as `ForwardDone` says. */
  lemma ProvidedDone(h: Helpers, ts: TableSchema, isNew: bool, fields: Dict<Column, Doc>,
                     a: Snapshot, b: Snapshot, u: Uuid, key: Column, kids: Dict<Token, Uuid>)
    requires Has(ts.references, key) && ForwardWritable(ts, isNew, key) && Has(fields, key)
    requires Linked(h, ForwardSpec(ts, key), kids).Ok?
    requires Attr(b, u, key) == Linked(h, ForwardSpec(ts, key), kids).value
    ensures ForwardDone(h, ts, isNew, fields, a, b, u, key)
  {
  }

  /** A provided forward child relationship: on an existing row, delete the
      current children whose index the document no longer lists; set up
      every listed child row; re-key the document by row UUID when the
      child table has no index columns; and store the children in the
      column, as a map or as a list. */
  method SyncProvided(h: Helpers, sch: Schema, ghost rank: map<TableName, nat>, idl: Idl, t: TableName, u: Uuid,
                      isNew: bool, key: Column, entries: Dict<Token, Doc>)
      returns (r: Result<Dict<Token, Doc>>, ghost kids: Dict<Token, Uuid>, ghost synced: Dict<Token, Doc>,
               ghost snaps: seq<Snapshot>, ghost rows: seq<Uuid>)
    requires Ready(sch, rank, idl.Snap()) && t in sch.tables && Present(idl.Snap(), t, u)
    requires key in sch.tables[t].children && IsForward(sch.tables[t], key)
    modifies idl
    ensures r.Ok? ==> ProvidedRun(h, sch, rank, t, u, isNew, key, entries, old(idl.Snap()), idl.Snap(), kids, snaps, rows)
    ensures r.Ok? ==> Ready(sch, rank, idl.Snap()) && Upkeep(sch, rank, old(idl.Snap()), idl.Snap(), t, u)
    ensures r.Ok? ==> forall c :: c != key ==> Attr(idl.Snap(), u, c) == Attr(old(idl.Snap()), u, c)
    ensures r.Ok? ==> var spec := ForwardSpec(sch.tables[t], key);
              Linked(h, spec, kids).Ok? && Attr(idl.Snap(), u, key) == Linked(h, spec, kids).value &&
              (forall k :: Has(kids, k) <==> Has(entries, k)) &&
              (forall e :: e in kids ==> Present(idl.Snap(), spec.refTable, e.1))
    ensures r.Ok? && !isNew ==> var cur := Current(Attr(old(idl.Snap()), u, key), ForwardSpec(sch.tables[t], key).kvType);
              cur.Ok? &&
              forall w :: w in Stale(h, old(idl.Snap()), ForwardSpec(sch.tables[t], key).refTable, cur.value, Keys(entries)) ==>
                w !in idl.cells
    ensures r.Ok? ==> Keys(synced) == Keys(entries)
    ensures r.Ok? && sch.tables[ForwardSpec(sch.tables[t], key).refTable].indexColumns == [] ==>
              Rekeyed(synced, kids) == Ok(r.value)
    ensures r.Ok? && sch.tables[ForwardSpec(sch.tables[t], key).refTable].indexColumns != [] ==> r.value == synced
    decreases rank[t], 1, 0, 0
  {
    kids, synced, snaps, rows := [], [], [], [];
    var ts := sch.tables[t];
    var spec := ForwardSpec(ts, key);
    var ct := spec.refTable;
    assert ct == ChildTable(ts, key);
    UpperBelow(sch, rank, t, ct);
    ghost var s0 := idl.Snap();
    UpkeepRefl(sch, rank, s0, t, u);
    if !isNew {
      var dropped := DropStale(h, sch, rank, idl, t, u, key, Keys(entries));
      if dropped.Fail? {
        return Fail(dropped.error), kids, synced, snaps, rows;
      }
    }
    ghost var s1 := idl.Snap();
    var synced';
    synced', snaps, rows := SyncEntries(h, sch, rank, idl, ct, entries);
    if synced'.Fail? {
      return Fail(synced'.error), kids, synced, snaps, rows;
    }
    kids, synced := synced'.value.0, synced'.value.1;
    ghost var s2 := idl.Snap();
    BelowUpkeep(sch, rank, s1, s2, t, u, Upper(sch, rank, ct));
    UpkeepTrans(sch, rank, s0, s1, s2, t, u);
    assert RowOf(s2, u) == RowOf(s0, u);
    var out := synced'.value.1;
    if sch.tables[ct].indexColumns == [] {
      var moved := Rekey(synced'.value.1, synced'.value.0);
      if moved.Fail? {
        return Fail(moved.error), kids, synced, snaps, rows;
      }
      out := moved.value;
    }
    var value := LinkValue(h, spec, synced'.value.0);
    if value.Fail? {
      return Fail(value.error), kids, synced, snaps, rows;
    }
    idl.SetAttr(u, key, value.value);
    AssignUpkeep(sch, rank, s2, t, u, key, value.value);
    UpkeepTrans(sch, rank, s0, s2, idl.Snap(), t, u);
    r := Ok(out);
  }

  /** How a provided forward child relationship went, from `a` to `b`: on
      an existing row the stale children were deleted first, as `DelEach`
      says; then every entry was set up in order, as `Ran` says, giving the
      children `kids` (each index mapped to the row of its last entry); and
      finally the column was set to the value `Linked` gives them. */
  ghost predicate ProvidedRun(h: Helpers, sch: Schema, rank: map<TableName, nat>, t: TableName, u: Uuid, isNew: bool,
                              key: Column, entries: Dict<Token, Doc>, a: Snapshot, b: Snapshot,
                              kids: Dict<Token, Uuid>, snaps: seq<Snapshot>, rows: seq<Uuid>)
    requires WellFormed(sch, rank) && t in sch.tables && key in sch.tables[t].children && IsForward(sch.tables[t], key)
  {
    var ct := ChildTable(sch.tables[t], key);
    var spec := ForwardSpec(sch.tables[t], key);
    && Ran(h, sch, rank, ct, entries, |entries|, snaps, rows) && Tracks(kids, entries, rows, |entries|)
    && (isNew ==> snaps[0] == a)
    && (!isNew ==> var cur := Current(Attr(a, u, key), spec.kvType);
          cur.Ok? && DelEach(sch, rank, a, ct, Stale(h, a, ct, cur.value, Keys(entries))).Ok? &&
          snaps[0] == DelEach(sch, rank, a, ct, Stale(h, a, ct, cur.value, Keys(entries))).value.0)
    && u in snaps[|entries|].cells && Linked(h, spec, kids).Ok?
    && b == Assigned(snaps[|entries|], u, key, Linked(h, spec, kids).value)
  }

  /** On an existing row, the current children of forward column `key`
      whose index is not among `keys` are deleted, each with the rows it owns. */
  method DropStale(h: Helpers, sch: Schema, ghost rank: map<TableName, nat>, idl: Idl, t: TableName, u: Uuid,
                   key: Column, keys: seq<Token>) returns (r: Result<()>)
    requires Ready(sch, rank, idl.Snap()) && t in sch.tables && Present(idl.Snap(), t, u)
    requires key in sch.tables[t].children && IsForward(sch.tables[t], key)
    modifies idl
    ensures var cur := Current(Attr(old(idl.Snap()), u, key), ForwardSpec(sch.tables[t], key).kvType);
            cur.Fail? ==> r == Fail(cur.error)
    ensures r.Ok? ==> Ready(sch, rank, idl.Snap()) && Upkeep(sch, rank, old(idl.Snap()), idl.Snap(), t, u)
    ensures r.Ok? ==> RowOf(idl.Snap(), u) == RowOf(old(idl.Snap()), u)
    ensures r.Ok? ==> var cur := Current(Attr(old(idl.Snap()), u, key), ForwardSpec(sch.tables[t], key).kvType);
              cur.Ok? &&
              forall w :: w in Stale(h, old(idl.Snap()), ForwardSpec(sch.tables[t], key).refTable, cur.value, keys) ==>
                w !in idl.cells && w < idl.next
    ensures r.Ok? ==> var cur := Current(Attr(old(idl.Snap()), u, key), ForwardSpec(sch.tables[t], key).kvType);
              var ct := ChildTable(sch.tables[t], key);
              cur.Ok? && DelEach(sch, rank, old(idl.Snap()), ct, Stale(h, old(idl.Snap()), ct, cur.value, keys)).Ok? &&
              idl.Snap() == DelEach(sch, rank, old(idl.Snap()), ct, Stale(h, old(idl.Snap()), ct, cur.value, keys)).value.0
  {
    var ts := sch.tables[t];
    var spec := ForwardSpec(ts, key);
    var ct := spec.refTable;
    assert ct == ChildTable(ts, key);
    ghost var s0 := idl.Snap();
    var current := Current(Attr(idl.Snap(), u, key), spec.kvType);
    if current.Fail? {
      return Fail(current.error);
    }
    var stale := StaleOf(h, idl, ct, current.value, keys);
    var gone := DeleteEach(idl, sch, rank, ct, stale);
    if gone.Fail? {
      return Fail(gone.error);
    }
    DropFacts(sch, rank, s0, t, u, ct, stale);
    r := Ok(());
  }

  /** Deleting child rows of table `ct` below `t` is an upkeep of row `u` of
      `t` that removes those rows for good. */
  lemma DropFacts(sch: Schema, rank: map<TableName, nat>, s: Snapshot, t: TableName, u: Uuid, ct: TableName, cs: seq<Uuid>)
    requires Ready(sch, rank, s) && t in sch.tables && Present(s, t, u)
    requires ct in sch.tables && rank[ct] < rank[t] && DelEach(sch, rank, s, ct, cs).Ok?
    ensures var s' := DelEach(sch, rank, s, ct, cs).value.0;
            && Ready(sch, rank, s') && Upkeep(sch, rank, s, s', t, u) && RowOf(s', u) == RowOf(s, u)
            && forall w :: w in cs ==> w !in s'.cells && w < s'.next
  {
    var del := DelEach(sch, rank, s, ct, cs).value;
    UpperBelow(sch, rank, t, ct);
    CascadeEach(sch, rank, s, ct, cs);
    DeletionKeeps(sch, rank, s, del, rank[ct] + 1, Upper(sch, rank, t) + {t});
    BelowUpkeep(sch, rank, s, del.0, t, u, Upper(sch, rank, t) + {t});
    DeletedGone(sch, rank, s, del, rank[ct] + 1, cs);
  }

  /** The value the synced children give a forward column: a map with
      integer keys (each key cast with `int`), a map keyed by index, or
      the list of rows. */
  method LinkValue(h: Helpers, spec: RefSpec, kids: Dict<Token, Uuid>) returns (r: Result<Value>)
    ensures r == Linked(h, spec, kids)
  {
    if spec.kvType {
      if spec.kvKeyType == IntegerKey {
        var cast := CastKeys(h, kids);
        if cast.Fail? {
          return Fail(cast.error);
        }
        r := Ok(RefMap(cast.value));
      } else {
        r := Ok(RefMap(TokenMap(kids)));
      }
    } else {
      r := Ok(RefList(RefValues(kids)));
    }
  }

  /** The loop of `setup_row` over the provided child rows of one forward
      relationship: set up each child row, in order, as `Ran` says, and
      collect `{index: row}`, each index mapped to the row of its last entry. */
  method SyncEntries(h: Helpers, sch: Schema, ghost rank: map<TableName, nat>, idl: Idl, ct: TableName,
                     entries: Dict<Token, Doc>)
      returns (r: Result<(Dict<Token, Uuid>, Dict<Token, Doc>)>, ghost snaps: seq<Snapshot>, ghost rows: seq<Uuid>)
    requires Ready(sch, rank, idl.Snap()) && ct in sch.tables
    modifies idl
    ensures r.Ok? ==> Ready(sch, rank, idl.Snap()) && Kept(old(idl.Snap()), idl.Snap(), Upper(sch, rank, ct))
    ensures r.Ok? ==> Follows(old(idl.Snap()), idl.Snap())
    ensures r.Ok? ==> (forall k :: Has(r.value.0, k) <==> Has(entries, k)) &&
                      (forall e :: e in r.value.0 ==> Present(idl.Snap(), ct, e.1))
    ensures r.Ok? ==> Keys(r.value.1) == Keys(entries)
    ensures r.Ok? ==> Ran(h, sch, rank, ct, entries, |entries|, snaps, rows) &&
                      snaps[0] == old(idl.Snap()) && snaps[|entries|] == idl.Snap()
    ensures r.Ok? ==> Tracks(r.value.0, entries, rows, |entries|)
    decreases rank[ct], 6
  {
    ghost var s0 := idl.Snap();
    snaps, rows := [s0], [];
    var kids: Dict<Token, Uuid> := [];
    var docs: Dict<Token, Doc> := [];
    var i := 0;
    while i < |entries|
      invariant 0 <= i <= |entries|
      invariant Consistent(idl.Snap()) && Covers(idl.Snap(), sch)
      invariant Kept(s0, idl.Snap(), Upper(sch, rank, ct)) && Follows(s0, idl.Snap())
      invariant forall k :: Has(kids, k) <==> Has(entries[..i], k)
      invariant forall e :: e in kids ==> Present(idl.Snap(), ct, e.1)
      invariant Keys(docs) == Keys(entries[..i])
      invariant Ran(h, sch, rank, ct, entries, i, snaps, rows) && snaps[0] == s0 && snaps[i] == idl.Snap()
      invariant Tracks(kids, entries, rows, i)
    {
      ghost var prev := idl.Snap();
      var got := SetupEntry(h, sch, rank, idl, ct, entries[i].0, entries[i].1);
      if got.Fail? {
        return Fail(got.error), snaps, rows;
      }
      KeptTrans(s0, prev, idl.Snap(), Upper(sch, rank, ct));
      PutTracks(kids, entries, i, got.value.0);
      forall e | e in Put(kids, entries[i].0, got.value.0) ensures Present(idl.Snap(), ct, e.1) {
        PutIn(kids, entries[i].0, got.value.0, e);
      }
      KeysStep(docs, entries, i, got.value.1);
      RanStep(h, sch, rank, ct, entries, i, snaps, rows, idl.Snap(), got.value.0);
      PutLatest(kids, entries, rows, i, got.value.0);
      kids := Put(kids, entries[i].0, got.value.0);
      docs := docs + [(entries[i].0, got.value.1)];
      snaps, rows := snaps + [idl.Snap()], rows + [got.value.0];
      i := i + 1;
    }
    assert entries[..i] == entries;
    r := Ok((kids, docs));
  }

  // ---------------------------------------------------------------------
  // Backward children

  /** The rows of a child table whose parent column points at row `u`. */
  ghost predicate PointsAt(sch: Schema, s: Snapshot, ct: TableName, w: Uuid, u: Uuid)
    requires ct in sch.tables
  {
    var pc := FirstParent(sch.tables[ct].references);
    pc.Some? && Attr(s, w, pc.value) == Ref(u)
  }

  /** One backward child relationship `key` of an existing row `u`: find the
      child rows whose parent column points at `u`; any current child the
      document no longer lists is an error (the list of them is handed to
      `_delete` as if it were one row); then set up every listed child row
      and point its parent column at `u`.  A new row has no backward
      children to synchronise. */
  method SyncBackward(h: Helpers, sch: Schema, ghost rank: map<TableName, nat>, idl: Idl, t: TableName, u: Uuid,
                      isNew: bool, key: Column, fields: Dict<Column, Doc>)
      returns (r: Result<Dict<Column, Doc>>, ghost kids: seq<Uuid>, ghost snaps: seq<Snapshot>, ghost mids: seq<Snapshot>)
    requires Ready(sch, rank, idl.Snap()) && t in sch.tables && Present(idl.Snap(), t, u)
    requires key in sch.tables[t].children && !IsForward(sch.tables[t], key)
    modifies idl
    ensures isNew ==> r == Ok(fields) && idl.Snap() == old(idl.Snap())
    ensures r.Ok? ==> Ready(sch, rank, idl.Snap()) && Upkeep(sch, rank, old(idl.Snap()), idl.Snap(), t, u)
    ensures r.Ok? ==> RowOf(idl.Snap(), u) == RowOf(old(idl.Snap()), u)
    ensures r.Ok? ==> Keys(r.value) == Keys(fields) && forall c :: c != key ==> Get(r.value, c) == Get(fields, c)
    ensures r.Ok? && !isNew ==> key in sch.tables && forall w :: w in old(idl.Snap()).tables[key] && PointsAt(sch, old(idl.Snap()), key, w, u) ==>
              Has(fields, key) && Get(fields, key).value.Rows? &&
              h.rowToIndex(key, w, old(idl.Snap())) in Keys(Get(fields, key).value.entries)
    ensures r.Ok? && !isNew && Has(fields, key) ==>
              && key in sch.tables && Get(fields, key).value.Rows? && |kids| == |Get(fields, key).value.entries|
              && forall v :: v in kids ==> Present(idl.Snap(), key, v) && PointsAt(sch, idl.Snap(), key, v, u)
    ensures r.Ok? && !isNew && Has(fields, key) ==>
              key in sch.tables && Get(fields, key).value.Rows? &&
              BackwardRun(h, sch, rank, key, u, Get(fields, key).value.entries, old(idl.Snap()), idl.Snap(), kids, snaps, mids)
    decreases rank[t], 2
  {
    kids, snaps, mids := [], [], [];
    ghost var s0 := idl.Snap();
    UpkeepRefl(sch, rank, s0, t, u);
    if isNew {
      return Ok(fields), kids, snaps, mids;
    }
    var ts := sch.tables[t];
    assert key == ChildTable(ts, key);
    UpperBelow(sch, rank, t, key);
    var pc := FindParent(sch.tables[key].references);
    var rows := idl.tables[key];
    var current: seq<Uuid> := [];
    if rows != [] {
      if pc.None? {
        return Fail(TypeError), kids, snaps, mids;
      }
      var found := ParentedRows(idl, rows, pc.value, u);
      if found.Fail? {
        return Fail(found.error), kids, snaps, mids;
      }
      current := found.value;
    }
    assert forall w :: w in rows && PointsAt(sch, s0, key, w, u) ==> w in current;
    var data := Get(fields, key);
    if data.Some? && !data.value.Rows? {
      return Fail(AttributeError), kids, snaps, mids;
    }
    if current != [] {
      var drop: seq<Uuid>;
      if data.None? {
        drop := current;
      } else {
        drop := StaleOf(h, idl, key, current, Keys(data.value.entries));
      }
      if drop != [] {
        return Fail(AttributeError), kids, snaps, mids;
      }
      assert data.Some?;
    }
    if data.None? {
      return Ok(fields), kids, snaps, mids;
    }
    var entries := data.value.entries;
    if pc.None? {
      if entries != [] {
        return Fail(TypeError), kids, snaps, mids;
      }
      return Ok(fields), kids, snaps, mids;
    }
    var res;
    res, kids, snaps, mids := SyncParented(h, sch, rank, idl, key, entries, pc.value, u);
    if res.Fail? {
      return Fail(res.error), kids, snaps, mids;
    }
    BelowUpkeep(sch, rank, s0, idl.Snap(), t, u, Upper(sch, rank, key));
    PutKeys(fields, key, Rows(res.value));
    forall c | c != key ensures Get(Put(fields, key, Rows(res.value)), c) == Get(fields, c) {
      PutGet(fields, key, Rows(res.value), c);
    }
    r := Ok(Put(fields, key, Rows(res.value)));
  }

  /** How a backward child relationship of row `u` with provided entries
      went, from `a` to `b`: without a parent column there were no entries
      and nothing changed; otherwise every entry was handled in order, as
      `RanParented` says, with that parent column. */
  ghost predicate BackwardRun(h: Helpers, sch: Schema, rank: map<TableName, nat>, ct: TableName, u: Uuid,
                              entries: Dict<Token, Doc>, a: Snapshot, b: Snapshot,
                              kids: seq<Uuid>, snaps: seq<Snapshot>, mids: seq<Snapshot>)
    requires ct in sch.tables
  {
    match FirstParent(sch.tables[ct].references)
    case None => entries == [] && b == a
    case Some(pc) =>
      RanParented(h, sch, rank, ct, entries, |entries|, snaps, mids, kids, pc, u) &&
      snaps[0] == a && snaps[|entries|] == b
  }

  /** The loop of `setup_row` over the provided rows of a backward child
      relationship: set up each child row, then point its parent column
      `pc` at the parent row `u`, in order, as `RanParented` says. */
  method SyncParented(h: Helpers, sch: Schema, ghost rank: map<TableName, nat>, idl: Idl, ct: TableName,
                      entries: Dict<Token, Doc>, pc: Column, u: Uuid)
      returns (r: Result<Dict<Token, Doc>>, ghost kids: seq<Uuid>, ghost snaps: seq<Snapshot>, ghost mids: seq<Snapshot>)
    requires Ready(sch, rank, idl.Snap()) && ct in sch.tables
    modifies idl
    ensures r.Ok? ==> Ready(sch, rank, idl.Snap()) && Kept(old(idl.Snap()), idl.Snap(), Upper(sch, rank, ct))
    ensures r.Ok? ==> Follows(old(idl.Snap()), idl.Snap())
    ensures r.Ok? ==> |kids| == |entries| && Keys(r.value) == Keys(entries)
    ensures r.Ok? ==> forall v :: v in kids ==> Present(idl.Snap(), ct, v) && Attr(idl.Snap(), v, pc) == Ref(u)
    ensures r.Ok? ==> RanParented(h, sch, rank, ct, entries, |entries|, snaps, mids, kids, pc, u) &&
                      snaps[0] == old(idl.Snap()) && snaps[|entries|] == idl.Snap()
    decreases rank[ct], 6
  {
    ghost var s0 := idl.Snap();
    kids, snaps, mids := [], [s0], [];
    var docs: Dict<Token, Doc> := [];
    var i := 0;
    while i < |entries|
      invariant 0 <= i <= |entries| && |kids| == i
      invariant Parented(sch, rank, s0, idl.Snap(), ct, kids, pc, u)
      invariant Keys(docs) == Keys(entries[..i])
      invariant RanParented(h, sch, rank, ct, entries, i, snaps, mids, kids, pc, u) &&
                snaps[0] == s0 && snaps[i] == idl.Snap()
    {
      ghost var prev := idl.Snap();
      var got := SetupEntry(h, sch, rank, idl, ct, entries[i].0, entries[i].1);
      if got.Fail? {
        return Fail(got.error), kids, snaps, mids;
      }
      var v := got.value.0;
      ghost var mid := idl.Snap();
      idl.SetAttr(v, pc, Ref(u));
      ParentedStep(sch, rank, s0, prev, mid, ct, kids, v, pc, u);
      ParentedRanStep(h, sch, rank, ct, entries, i, snaps, mids, kids, pc, u, mid, v);
      KeysStep(docs, entries, i, got.value.1);
      kids, snaps, mids := kids + [v], snaps + [idl.Snap()], mids + [mid];
      docs := docs + [(entries[i].0, got.value.1)];
      i := i + 1;
    }
    assert entries[..i] == entries;
    r := Ok(docs);
  }

  /** Backward child entry `tok: doc` of table `ct`: set up as row `v` from
      `a` to `m`, as `EntrySetUp` says, then its parent column `pc` pointed
      at `u`, giving `b`. */
  ghost predicate ParentedEntry(h: Helpers, sch: Schema, rank: map<TableName, nat>, ct: TableName, tok: Token, doc: Doc,
                                a: Snapshot, m: Snapshot, b: Snapshot, v: Uuid, pc: Column, u: Uuid)
  {
    EntrySetUp(h, sch, rank, ct, tok, doc, a, m, v) && v in m.cells && b == Assigned(m, v, pc, Ref(u))
  }

  /** The first `n` backward child entries were handled in order: entry `i`
      took the store from `snaps[i]` through `mids[i]` to `snaps[i + 1]`
      and gave row `kids[i]`. */
  ghost predicate RanParented(h: Helpers, sch: Schema, rank: map<TableName, nat>, ct: TableName, entries: Dict<Token, Doc>,
                              n: nat, snaps: seq<Snapshot>, mids: seq<Snapshot>, kids: seq<Uuid>, pc: Column, u: Uuid)
  {
    && n <= |entries| && |kids| == n && |mids| == n && |snaps| == n + 1
    && forall i :: 0 <= i < n ==>
         ParentedEntry(h, sch, rank, ct, entries[i].0, entries[i].1, snaps[i], mids[i], snaps[i + 1], kids[i], pc, u)
  }

  lemma ParentedRanStep(h: Helpers, sch: Schema, rank: map<TableName, nat>, ct: TableName, entries: Dict<Token, Doc>,
                        n: nat, snaps: seq<Snapshot>, mids: seq<Snapshot>, kids: seq<Uuid>, pc: Column, u: Uuid,
                        m: Snapshot, v: Uuid)
    requires RanParented(h, sch, rank, ct, entries, n, snaps, mids, kids, pc, u) && n < |entries|
    requires EntrySetUp(h, sch, rank, ct, entries[n].0, entries[n].1, snaps[n], m, v) && v in m.cells
    ensures RanParented(h, sch, rank, ct, entries, n + 1, snaps + [Assigned(m, v, pc, Ref(u))], mids + [m], kids + [v], pc, u)
  {
    var snaps', mids', kids' := snaps + [Assigned(m, v, pc, Ref(u))], mids + [m], kids + [v];
    forall i | 0 <= i < n + 1
      ensures ParentedEntry(h, sch, rank, ct, entries[i].0, entries[i].1, snaps'[i], mids'[i], snaps'[i + 1], kids'[i], pc, u)
    {
      if i < n {
        assert snaps'[i] == snaps[i] && snaps'[i + 1] == snaps[i + 1] && mids'[i] == mids[i] && kids'[i] == kids[i];
      }
    }
  }

  /** What the loop of `SyncParented` keeps: the store is still well formed,
      only tables below `ct` changed, and every child row set up so far
      points at its parent `u`. */
  ghost predicate Parented(sch: Schema, rank: map<TableName, nat>, s0: Snapshot, s: Snapshot,
                           ct: TableName, kids: seq<Uuid>, pc: Column, u: Uuid)
  {
    && ct in rank && Consistent(s) && Covers(s, sch)
    && Kept(s0, s, Upper(sch, rank, ct)) && Follows(s0, s)
    && forall w :: w in kids ==> Present(s, ct, w) && Attr(s, w, pc) == Ref(u)
  }

  /** One child of `SyncParented`: after the child row `v` is set up and its
      parent column pointed at `u`, the loop's facts hold again with `v`
      added to the children. */
  lemma ParentedStep(sch: Schema, rank: map<TableName, nat>, s0: Snapshot, prev: Snapshot, mid: Snapshot,
                     ct: TableName, kids: seq<Uuid>, v: Uuid, pc: Column, u: Uuid)
    requires ct in sch.tables && ct in rank && ct in prev.tables
    requires Parented(sch, rank, s0, prev, ct, kids, pc, u)
    requires Consistent(mid) && Covers(mid, sch) && Follows(prev, mid)
    requires Kept(prev, mid, Upper(sch, rank, ct)) && Present(mid, ct, v)
    requires forall w :: w in prev.tables[ct] ==> w in mid.tables[ct] && (w != v ==> RowOf(mid, w) == RowOf(prev, w))
    ensures v in mid.cells
    ensures Parented(sch, rank, s0, Assigned(mid, v, pc, Ref(u)), ct, kids + [v], pc, u)
  {
    var b := Assigned(mid, v, pc, Ref(u));
    AssignElsewhere(mid, ct, v, pc, Ref(u), Upper(sch, rank, ct));
    KeptTrans(s0, prev, mid, Upper(sch, rank, ct));
    KeptTrans(s0, mid, b, Upper(sch, rank, ct));
    forall w | w in kids + [v] ensures Present(b, ct, w) && Attr(b, w, pc) == Ref(u) {
      if w != v {
        assert Present(prev, ct, w);
      }
    }
  }

  // ---------------------------------------------------------------------
  // setup_table

  /** `setup_table(t, data, ...)`: a table the document omits is emptied by
      cascading deletes of its rows; a listed table has each of its rows
      set up in document order. */
  method SetupTable(h: Helpers, sch: Schema, ghost rank: map<TableName, nat>, idl: Idl, t: TableName,
                    data: Dict<TableName, Doc>)
      returns (r: Result<Dict<TableName, Doc>>, ghost rows: seq<Uuid>, ghost snaps: seq<Snapshot>)
    requires Ready(sch, rank, idl.Snap()) && t in sch.tables
    modifies idl
    ensures r.Ok? ==> Ready(sch, rank, idl.Snap()) && Follows(old(idl.Snap()), idl.Snap())
    ensures r.Ok? ==> Kept(old(idl.Snap()), idl.Snap(), Upper(sch, rank, t))
    ensures r.Ok? && !Has(data, t) ==> idl.tables[t] == [] && r.value == data
    ensures !Has(data, t) ==> (r.Ok? <==> Cleared(sch, rank, old(idl.Snap()), t).Ok?)
    ensures r.Ok? && !Has(data, t) ==> idl.Snap() == Cleared(sch, rank, old(idl.Snap()), t).value.0
    ensures Has(data, t) && !Get(data, t).value.Rows? ==> r == Fail(AttributeError)
    ensures r.Ok? && Has(data, t) ==>
              && |rows| == |Get(data, t).value.entries|
              && (forall v :: v in rows ==> Present(idl.Snap(), t, v))
              && Get(r.value, t).Some? && Get(r.value, t).value.Rows?
              && Keys(Get(r.value, t).value.entries) == Keys(Get(data, t).value.entries)
              && Ran(h, sch, rank, t, Get(data, t).value.entries, |rows|, snaps, rows)
              && snaps[0] == old(idl.Snap()) && snaps[|rows|] == idl.Snap()
    ensures r.Ok? ==> Keys(r.value) == Keys(data) && forall x :: x != t ==> Get(r.value, x) == Get(data, x)
  {
    rows, snaps := [], [];
    if !Has(data, t) {
      var cleared := ClearTable(sch, rank, idl, t);
      if cleared.Fail? {
        return Fail(cleared.error), rows, snaps;
      }
      return Ok(data), rows, snaps;
    }
    var table := Get(data, t).value;
    if !table.Rows? {
      return Fail(AttributeError), rows, snaps;
    }
    var docs;
    docs, rows, snaps := SetupRows(h, sch, rank, idl, t, table.entries);
    if docs.Fail? {
      return Fail(docs.error), rows, snaps;
    }
    PutKeys(data, t, Rows(docs.value));
    PutGet(data, t, Rows(docs.value), t);
    forall x | x != t ensures Get(Put(data, t, Rows(docs.value)), x) == Get(data, x) {
      PutGet(data, t, Rows(docs.value), x);
    }
    r := Ok(Put(data, t, Rows(docs.value)));
  }

  /** The rows of table `t` deleted one at a time from the front, each with
      the rows it owns, as `Cleared` describes. */
  method ClearTable(sch: Schema, ghost rank: map<TableName, nat>, idl: Idl, t: TableName) returns (r: Result<()>)
    requires Ready(sch, rank, idl.Snap()) && t in sch.tables
    modifies idl
    ensures r.Ok? <==> Cleared(sch, rank, old(idl.Snap()), t).Ok?
    ensures r.Ok? ==> idl.Snap() == Cleared(sch, rank, old(idl.Snap()), t).value.0
    ensures r.Ok? ==> Ready(sch, rank, idl.Snap()) && Follows(old(idl.Snap()), idl.Snap())
    ensures r.Ok? ==> Kept(old(idl.Snap()), idl.Snap(), Upper(sch, rank, t)) && idl.tables[t] == []
  {
    ghost var s0 := idl.Snap();
    ghost var done: Trace := [];
    AfterTraceNil(Cleared(sch, rank, s0, t));
    while idl.tables[t] != []
      invariant Clearing(sch, rank, s0, idl.Snap(), t, done)
      decreases |idl.tables[t]|
    {
      ghost var prev := idl.Snap();
      var gone := Delete(idl, sch, rank, t, idl.tables[t][0]);
      if gone.Fail? {
        ClearFails(sch, rank, s0, prev, t, done);
        return Fail(gone.error);
      }
      ClearStep(sch, rank, s0, prev, t, done);
      done := done + DelRow(sch, rank, prev, t, prev.tables[t][0]).value.1;
    }
    ClearDone(sch, rank, s0, idl.Snap(), t, done);
    r := Ok(());
  }

  /** What `ClearTable`'s loop keeps: the store is ready, it follows from
      the starting one with every table ranked at or above `t` kept, and
      clearing from the start is the rows `done` already deleted followed
      by clearing from here. */
  ghost predicate Clearing(sch: Schema, rank: map<TableName, nat>, s0: Snapshot, s: Snapshot, t: TableName, done: Trace) {
    && Ready(sch, rank, s0) && Ready(sch, rank, s) && t in sch.tables
    && Follows(s0, s) && Kept(s0, s, Upper(sch, rank, t))
    && Cleared(sch, rank, s0, t) == AfterTrace(done, Cleared(sch, rank, s, t))
  }

  /** Deleting the first row of `t` keeps `Clearing` and shortens `t`. */
  lemma ClearStep(sch: Schema, rank: map<TableName, nat>, s0: Snapshot, s: Snapshot, t: TableName, done: Trace)
    requires Clearing(sch, rank, s0, s, t, done) && s.tables[t] != []
    requires DelRow(sch, rank, s, t, s.tables[t][0]).Ok?
    ensures var del := DelRow(sch, rank, s, t, s.tables[t][0]).value;
            && Clearing(sch, rank, s0, del.0, t, done + del.1)
            && |del.0.tables[t]| < |s.tables[t]|
  {
    var del := DelRow(sch, rank, s, t, s.tables[t][0]).value;
    ClearKeeps(sch, rank, s0, s, t);
    ClearedStep(sch, rank, s, t);
    AfterTraceAssoc(done, del.1, Cleared(sch, rank, del.0, t));
  }

  /** Deleting the first row of `t` keeps the store ready, following from
      `s0`, and every table ranked at or above `t` as it was. */
  lemma ClearKeeps(sch: Schema, rank: map<TableName, nat>, s0: Snapshot, s: Snapshot, t: TableName)
    requires Ready(sch, rank, s) && t in sch.tables && s.tables[t] != []
    requires Follows(s0, s) && Kept(s0, s, Upper(sch, rank, t))
    requires DelRow(sch, rank, s, t, s.tables[t][0]).Ok?
    ensures var s' := DelRow(sch, rank, s, t, s.tables[t][0]).value.0;
            && Ready(sch, rank, s') && Follows(s0, s') && Kept(s0, s', Upper(sch, rank, t))
            && |s'.tables[t]| < |s.tables[t]|
  {
    var del := DelRow(sch, rank, s, t, s.tables[t][0]).value;
    ClearShrinks(sch, rank, s, t);
    DeletionKeeps(sch, rank, s, del, rank[t] + 1, {});
    DelRowUpper(sch, rank, s, t, s.tables[t][0]);
    KeptTrans(s0, s, del.0, Upper(sch, rank, t));
  }

  /** A failed delete of the first row of `t` makes clearing fail. */
  lemma ClearFails(sch: Schema, rank: map<TableName, nat>, s0: Snapshot, s: Snapshot, t: TableName, done: Trace)
    requires Clearing(sch, rank, s0, s, t, done) && s.tables[t] != []
    requires DelRow(sch, rank, s, t, s.tables[t][0]).Fail?
    ensures Cleared(sch, rank, s0, t).Fail?
  {
  }

  /** Once `t` is empty, clearing from the start has reached this store. */
  lemma ClearDone(sch: Schema, rank: map<TableName, nat>, s0: Snapshot, s: Snapshot, t: TableName, done: Trace)
    requires Clearing(sch, rank, s0, s, t, done) && s.tables[t] == []
    ensures Cleared(sch, rank, s0, t) == Ok((s, done))
  {
    assert done + [] == done;
  }

  /** A cascade delete of row `u` of `t` deletes only `u` itself from `t`'s
      rank and above: every row it owns lies in a table ranked below `t`. */
  lemma DelRowUpper(sch: Schema, rank: map<TableName, nat>, s: Snapshot, t: TableName, u: Uuid)
    requires WellFormed(sch, rank) && t in sch.tables && Consistent(s) && Covers(s, sch)
    requires DelRow(sch, rank, s, t, u).Ok?
    ensures Kept(s, DelRow(sch, rank, s, t, u).value.0, Upper(sch, rank, t))
  {
    DelRowStep(sch, rank, s, t, u);
    var keys := DelKeys(sch, rank, s, t, u, sch.tables[t].children).value;
    DeletionKeeps(sch, rank, s, keys, rank[t], Upper(sch, rank, t));
    var s1 := keys.0;
    forall x | x in Upper(sch, rank, t) && x in s.tables
      ensures Without(s1.tables[x], {u}) == s1.tables[x]
    {
      WithoutUntouched(s1.tables[x], {u});
    }
  }

  /** The loop of `setup_table` over the rows of a listed table: every entry
      is set up in order, as `Ran` says. */
  method SetupRows(h: Helpers, sch: Schema, ghost rank: map<TableName, nat>, idl: Idl, t: TableName,
                   entries: Dict<Token, Doc>) returns (r: Result<Dict<Token, Doc>>, ghost rows: seq<Uuid>,
                   ghost snaps: seq<Snapshot>)
    requires Ready(sch, rank, idl.Snap()) && t in sch.tables
    modifies idl
    ensures r.Ok? ==> Ready(sch, rank, idl.Snap()) && Follows(old(idl.Snap()), idl.Snap())
    ensures r.Ok? ==> Kept(old(idl.Snap()), idl.Snap(), Upper(sch, rank, t))
    ensures r.Ok? ==> |rows| == |entries| && Keys(r.value) == Keys(entries)
    ensures r.Ok? ==> forall v :: v in rows ==> Present(idl.Snap(), t, v)
    ensures r.Ok? ==> Ran(h, sch, rank, t, entries, |entries|, snaps, rows) &&
                      snaps[0] == old(idl.Snap()) && snaps[|entries|] == idl.Snap()
  {
    rows := [];
    ghost var s0 := idl.Snap();
    snaps := [s0];
    var docs: Dict<Token, Doc> := [];
    var i := 0;
    while i < |entries|
      invariant 0 <= i <= |entries| && |rows| == i
      invariant Consistent(idl.Snap()) && Covers(idl.Snap(), sch) && Follows(s0, idl.Snap())
      invariant Kept(s0, idl.Snap(), Upper(sch, rank, t))
      invariant forall v :: v in rows ==> Present(idl.Snap(), t, v)
      invariant Keys(docs) == Keys(entries[..i])
      invariant Ran(h, sch, rank, t, entries, i, snaps, rows) && snaps[0] == s0 && snaps[i] == idl.Snap()
    {
      ghost var prev := idl.Snap();
      var got := SetupEntry(h, sch, rank, idl, t, entries[i].0, entries[i].1);
      if got.Fail? {
        return Fail(got.error), rows, snaps;
      }
      KeptTrans(s0, prev, idl.Snap(), Upper(sch, rank, t));
      forall w | w in rows ensures Present(idl.Snap(), t, w) {
        assert Present(prev, t, w);
      }
      RanStep(h, sch, rank, t, entries, i, snaps, rows, idl.Snap(), got.value.0);
      KeysStep(docs, entries, i, got.value.1);
      rows := rows + [got.value.0];
      snaps := snaps + [idl.Snap()];
      docs := docs + [(entries[i].0, got.value.1)];
      i := i + 1;
    }
    assert entries[..i] == entries;
    r := Ok(docs);
  }
}
