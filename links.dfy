/** `setup_references` and `setup_row_references`: the second phase of a
    write.  Once every row exists, each plain reference column of each row
    of the document is set to the rows its index tokens name, recursively
    through the row's child relationships.  Only those columns change. */
module Links {
  import opened Outcomes
  import opened Dicts
  import opened Schema
  import opened Values
  import opened Store
  import opened Resolver
  import opened Steps

  /** From `a` to `b` only plain reference columns of existing rows changed:
      no row was inserted or deleted, and every attribute that differs is
      a plain reference column of the table its row belongs to. */
  ghost predicate LinksOnly(sch: Schema, a: Snapshot, b: Snapshot) {
    && b.tables == a.tables && b.next == a.next && b.cells.Keys == a.cells.Keys
    && forall w, c :: Attr(b, w, c) != Attr(a, w, c) ==>
         exists x :: x in sch.tables && Present(a, x, w) && IsLink(sch.tables[x], c)
  }

  /** The reference pass never writes a config column: a config column of
      a present row keeps its value across any `LinksOnly` change, since a
      well-formed schema keeps config and reference columns apart and every
      row belongs to one table. */
  lemma ConfigKept(sch: Schema, rank: map<TableName, nat>, a: Snapshot, b: Snapshot, x: TableName, w: Uuid, c: Column)
    requires WellFormed(sch, rank) && Consistent(a) && LinksOnly(sch, a, b)
    requires x in sch.tables && Present(a, x, w) && Has(sch.tables[x].config, c)
    ensures Attr(b, w, c) == Attr(a, w, c)
  {
  }

  lemma LinksRefl(sch: Schema, a: Snapshot)
    ensures LinksOnly(sch, a, a)
  {
  }

  lemma LinksTrans(sch: Schema, a: Snapshot, b: Snapshot, c: Snapshot)
    requires LinksOnly(sch, a, b) && LinksOnly(sch, b, c)
    ensures LinksOnly(sch, a, c)
  {
    forall w, k | Attr(c, w, k) != Attr(a, w, k)
      ensures exists x :: x in sch.tables && Present(a, x, w) && IsLink(sch.tables[x], k)
    {
      if Attr(b, w, k) == Attr(a, w, k) {
        var x :| x in sch.tables && Present(b, x, w) && IsLink(sch.tables[x], k);
        assert Present(a, x, w);
      }
    }
  }

  /** The row UUIDs that `index_to_row` gives for each token of a plain
      reference column, in order, with None for a token that names no row. */
  function Resolutions(h: Helpers, sch: Schema, s: Snapshot, rt: TableName, toks: seq<Token>): (r: Result<seq<Value>>)
    requires rt in sch.tables && rt in s.tables
    ensures r.Ok? <==> forall i :: 0 <= i < |toks| ==> Resolve(h, sch.tables[rt], s, rt, toks[i]).Ok?
    ensures r.Ok? ==> |r.value| == |toks|
    ensures r.Ok? ==> forall i :: 0 <= i < |toks| ==> r.value[i] == Item(Resolve(h, sch.tables[rt], s, rt, toks[i]).value)
    ensures r.Fail? ==> exists i :: 0 <= i < |toks| && Resolve(h, sch.tables[rt], s, rt, toks[i]) == Fail(r.error)
    decreases |toks|
  {
    if toks == [] then Ok([])
    else
      var last := toks[|toks| - 1];
      assert forall i :: 0 <= i < |toks| - 1 ==> toks[..|toks| - 1][i] == toks[i];
      match Resolutions(h, sch, s, rt, toks[..|toks| - 1])
      case Fail(e) => Fail(e)
      case Ok(front) =>
        match Resolve(h, sch.tables[rt], s, rt, last)
        case Fail(e) => Fail(e)
        case Ok(found) => Ok(front + [Item(found)])
  }

  /** Resolving one more token extends the resolutions of the tokens before it. */
  lemma ResolutionsSnoc(h: Helpers, sch: Schema, s: Snapshot, rt: TableName, toks: seq<Token>, i: nat)
    requires rt in sch.tables && rt in s.tables && i < |toks|
    ensures Resolutions(h, sch, s, rt, toks[..i + 1]) ==
            match Resolutions(h, sch, s, rt, toks[..i])
            case Fail(e) => Fail(e)
            case Ok(front) =>
              match Resolve(h, sch.tables[rt], s, rt, toks[i])
              case Fail(e) => Fail(e)
              case Ok(found) => Ok(front + [Item(found)])
  {
    assert toks[..i + 1][..i] == toks[..i];
  }

  /** Once the tokens before `i` fail, every longer prefix fails the same way. */
  lemma {:induction false} ResolutionsFail(h: Helpers, sch: Schema, s: Snapshot, rt: TableName, toks: seq<Token>, i: nat, e: Error)
    requires rt in sch.tables && rt in s.tables && i <= |toks|
    requires Resolutions(h, sch, s, rt, toks[..i]) == Fail(e)
    ensures Resolutions(h, sch, s, rt, toks) == Fail(e)
    decreases |toks| - i
  {
    if i == |toks| {
      assert toks[..i] == toks;
    } else {
      ResolutionsSnoc(h, sch, s, rt, toks, i);
      ResolutionsFail(h, sch, s, rt, toks, i + 1, e);
    }
  }

  /** A found row as a reference, a missing one as None. */
  function Item(found: Option<Uuid>): Value {
    match found
    case None => Null
    case Some(w) => Ref(w)
  }

  /** A resolved item is None or a row of the referenced table. */
  lemma ResolvedRows(h: Helpers, sch: Schema, s: Snapshot, rt: TableName, toks: seq<Token>)
    requires rt in sch.tables && rt in s.tables && Resolutions(h, sch, s, rt, toks).Ok?
    ensures forall v :: v in Resolutions(h, sch, s, rt, toks).value ==> v == Null || (v.Ref? && Present(s, rt, v.row))
  {
    var items := Resolutions(h, sch, s, rt, toks).value;
    forall v | v in items ensures v == Null || (v.Ref? && Present(s, rt, v.row)) {
      var i :| 0 <= i < |items| && items[i] == v;
      var res := Resolve(h, sch.tables[rt], s, rt, toks[i]);
      if res.value.Some? {
        if toks[i].UuidToken? {
          assert res.value.value in s.tables[rt];
        }
      }
    }
  }

  /** The loop of `setup_row_references` that resolves a list of tokens. */
  method ResolveAll(h: Helpers, sch: Schema, idl: Idl, rt: TableName, toks: seq<Token>) returns (r: Result<seq<Value>>)
    requires rt in sch.tables && rt in idl.tables
    ensures r == Resolutions(h, sch, idl.Snap(), rt, toks)
  {
    var items: seq<Value> := [];
    var i := 0;
    while i < |toks|
      invariant 0 <= i <= |toks|
      invariant Resolutions(h, sch, idl.Snap(), rt, toks[..i]) == Ok(items)
    {
      var found := IndexToRow(h, sch.tables[rt], idl, rt, toks[i]);
      ResolutionsSnoc(h, sch, idl.Snap(), rt, toks, i);
      if found.Fail? {
        ResolutionsFail(h, sch, idl.Snap(), rt, toks, i + 1, found.error);
        return Fail(found.error);
      }
      items := items + [Item(found.value)];
      i := i + 1;
    }
    assert toks[..i] == toks;
    r := Ok(items);
  }

  /** What a plain reference column ends up holding: the empty list when
      the row data omits it, otherwise one item per token, each None or a
      row of the referenced table. */
  ghost predicate LinkShape(s: Snapshot, spec: RefSpec, data: Option<Doc>, v: Value) {
    match data
    case None => v == RefList([])
    case Some(d) =>
      d.Tokens? && v.RefList? && |v.items| == |d.list| &&
      forall it :: it in v.items ==> it == Null || (it.Ref? && Present(s, spec.refTable, it.row))
  }

  /** One plain reference column `name` of row `u`: the empty list when the
      row data omits it, otherwise the resolved tokens. */
  method LinkColumn(h: Helpers, sch: Schema, ghost rank: map<TableName, nat>, idl: Idl, t: TableName, u: Uuid,
                    name: Column, fields: Dict<Column, Doc>) returns (r: Result<()>)
    requires WellFormed(sch, rank) && Consistent(idl.Snap()) && Covers(idl.Snap(), sch)
    requires t in sch.tables && Present(idl.Snap(), t, u) && IsLink(sch.tables[t], name)
    modifies idl
    ensures var rt := Get(sch.tables[t].references, name).value.refTable;
            r.Ok? <==> !Has(fields, name) || (Get(fields, name).value.Tokens? &&
                                                Resolutions(h, sch, old(idl.Snap()), rt, Get(fields, name).value.list).Ok?)
    ensures !Has(fields, name) ==> idl.Snap() == Assigned(old(idl.Snap()), u, name, RefList([]))
    ensures r.Ok? && Has(fields, name) ==>
              var rt := Get(sch.tables[t].references, name).value.refTable;
              idl.Snap() == Assigned(old(idl.Snap()), u, name,
                                     RefList(Resolutions(h, sch, old(idl.Snap()), rt, Get(fields, name).value.list).value))
    ensures r.Ok? ==> LinkShape(idl.Snap(), Get(sch.tables[t].references, name).value, Get(fields, name), Attr(idl.Snap(), u, name))
  {
    var spec := Get(sch.tables[t].references, name).value;
    if !Has(fields, name) {
      idl.SetAttr(u, name, RefList([]));
      return Ok(());
    }
    var data := Get(fields, name).value;
    if !data.Tokens? {
      return Fail(TypeError);
    }
    var items := ResolveAll(h, sch, idl, spec.refTable, data.list);
    if items.Fail? {
      return Fail(items.error);
    }
    ResolvedRows(h, sch, idl.Snap(), spec.refTable, data.list);
    idl.SetAttr(u, name, RefList(items.value));
    r := Ok(());
  }

  /** The loop of `setup_row_references` over the reference columns of table
      `t`, for row `u`: every plain reference column is written, and nothing
      else changes. */
  method LinkColumns(h: Helpers, sch: Schema, ghost rank: map<TableName, nat>, idl: Idl, t: TableName,
                     u: Uuid, fields: Dict<Column, Doc>) returns (r: Result<()>)
    requires WellFormed(sch, rank) && Consistent(idl.Snap()) && Covers(idl.Snap(), sch)
    requires t in sch.tables && Present(idl.Snap(), t, u)
    modifies idl
    ensures r.Ok? ==> LinksOnly(sch, old(idl.Snap()), idl.Snap()) && Consistent(idl.Snap())
    ensures r.Ok? ==> forall w :: w != u ==> RowOf(idl.Snap(), w) == RowOf(old(idl.Snap()), w)
    ensures r.Ok? ==> forall c :: !IsLink(sch.tables[t], c) ==> Attr(idl.Snap(), u, c) == Attr(old(idl.Snap()), u, c)
    ensures r.Ok? ==> forall name :: IsLink(sch.tables[t], name) ==>
              LinkShape(old(idl.Snap()), Get(sch.tables[t].references, name).value, Get(fields, name), Attr(idl.Snap(), u, name))
  {
    ghost var s0 := idl.Snap();
    var ts := sch.tables[t];
    var names := Keys(ts.references);
    LinksRefl(sch, s0);
    var i := 0;
    while i < |names|
      invariant 0 <= i <= |names|
      invariant ColumnsLinked(sch, s0, idl.Snap(), t, u, fields, names[..i])
    {
      var name := names[i];
      PrefixStep(names, i);
      if IsLink(ts, name) {
        ghost var prev := idl.Snap();
        var done := LinkColumn(h, sch, rank, idl, t, u, name, fields);
        if done.Fail? {
          return Fail(done.error);
        }
        ColumnKeeps(sch, s0, prev, idl.Snap(), t, u, name, fields, names[..i]);
      } else {
        ColumnSkips(sch, s0, idl.Snap(), t, u, name, fields, names[..i]);
      }
      i := i + 1;
    }
    assert names[..i] == names;
    r := Ok(());
  }

  /** What `LinkColumns`' loop keeps: from `s0` only plain reference
      columns of row `u` changed, and each such column among `done` has
      the shape `LinkShape` gives. */
  ghost predicate ColumnsLinked(sch: Schema, s0: Snapshot, s: Snapshot, t: TableName, u: Uuid,
                                fields: Dict<Column, Doc>, done: seq<Column>) {
    && t in sch.tables
    && LinksOnly(sch, s0, s) && Consistent(s)
    && (forall w :: w != u ==> RowOf(s, w) == RowOf(s0, w))
    && (forall c :: !IsLink(sch.tables[t], c) ==> Attr(s, u, c) == Attr(s0, u, c))
    && (forall k :: k in done && IsLink(sch.tables[t], k) ==>
          LinkShape(s0, Get(sch.tables[t].references, k).value, Get(fields, k), Attr(s, u, k)))
  }

  /** The invariant of `LinkColumns` survives writing column `name`. */
  lemma ColumnKeeps(sch: Schema, s0: Snapshot, a: Snapshot, b: Snapshot, t: TableName, u: Uuid,
                    name: Column, fields: Dict<Column, Doc>, done: seq<Column>)
    requires t in sch.tables && IsLink(sch.tables[t], name) && Present(a, t, u) && u in a.cells
    requires ColumnsLinked(sch, s0, a, t, u, fields, done)
    requires exists v :: b == Assigned(a, u, name, v)
    requires LinkShape(b, Get(sch.tables[t].references, name).value, Get(fields, name), Attr(b, u, name))
    ensures ColumnsLinked(sch, s0, b, t, u, fields, done + [name])
  {
    var refs := sch.tables[t].references;
    LinkStep(sch, s0, a, b, t, u, name);
    forall k | k in done + [name] && IsLink(sch.tables[t], k)
      ensures LinkShape(s0, Get(refs, k).value, Get(fields, k), Attr(b, u, k))
    {
      if k != name {
        assert Attr(b, u, k) == Attr(a, u, k);
      } else {
        ShapeTables(b, s0, Get(refs, name).value, Get(fields, name), Attr(b, u, name));
      }
    }
  }

  /** A column that is not a plain reference is skipped: the invariant of
      `LinkColumns` holds with it counted as done. */
  lemma ColumnSkips(sch: Schema, s0: Snapshot, s: Snapshot, t: TableName, u: Uuid,
                    name: Column, fields: Dict<Column, Doc>, done: seq<Column>)
    requires ColumnsLinked(sch, s0, s, t, u, fields, done) && !IsLink(sch.tables[t], name)
    ensures ColumnsLinked(sch, s0, s, t, u, fields, done + [name])
  {
  }

  /** `LinkShape` depends only on which rows each table holds. */
  lemma ShapeTables(s: Snapshot, s': Snapshot, spec: RefSpec, data: Option<Doc>, v: Value)
    requires s'.tables == s.tables && LinkShape(s, spec, data, v)
    ensures LinkShape(s', spec, data, v)
  {
  }

  /** `setup_row_references` for a token that resolves to no row: the first
      plain reference column resolves its tokens and then fails to write to
      `None`; a table without plain reference columns passes. */
  method NoRowLinks(h: Helpers, sch: Schema, ghost rank: map<TableName, nat>, idl: Idl, t: TableName,
                    fields: Dict<Column, Doc>) returns (r: Result<()>)
    requires WellFormed(sch, rank) && Covers(idl.Snap(), sch) && t in sch.tables
    ensures r.Ok? <==> forall name :: !IsLink(sch.tables[t], name)
  {
    var ts := sch.tables[t];
    var names := Keys(ts.references);
    var i := 0;
    while i < |names|
      invariant 0 <= i <= |names|
      invariant forall k :: k in names[..i] ==> !IsLink(ts, k)
    {
      var name := names[i];
      PrefixStep(names, i);
      if IsLink(ts, name) {
        var spec := Get(ts.references, name).value;
        if Has(fields, name) && Get(fields, name).value.Tokens? {
          var items := ResolveAll(h, sch, idl, spec.refTable, Get(fields, name).value.list);
          if items.Fail? {
            return Fail(items.error);
          }
        }
        // `None.__setattr__`
        return Fail(AttributeError);
      }
      i := i + 1;
    }
    assert names[..i] == names;
    r := Ok(());
  }

  /** Writing a plain reference column of row `u` is a change of plain
      reference columns only. */
  lemma LinkStep(sch: Schema, s0: Snapshot, a: Snapshot, b: Snapshot, t: TableName, u: Uuid, name: Column)
    requires t in sch.tables && Present(a, t, u) && IsLink(sch.tables[t], name) && u in a.cells
    requires LinksOnly(sch, s0, a) && exists v :: b == Assigned(a, u, name, v)
    ensures LinksOnly(sch, s0, b) && LinksOnly(sch, a, b)
  {
    forall w, c | Attr(b, w, c) != Attr(a, w, c)
      ensures exists x :: x in sch.tables && Present(a, x, w) && IsLink(sch.tables[x], c)
    {
      assert Present(a, t, w);
    }
    LinksTrans(sch, s0, a, b);
  }

  // ---------------------------------------------------------------------
  // The calls of setup_row_references a document asks for

  /** One call of `setup_row_references({tok: doc}, table, ...)`. */
  datatype RowRef = RowRef(table: TableName, tok: Token, doc: Doc)

  /** Every child relationship leads to a table of the schema. */
  ghost predicate Closed(sch: Schema) {
    forall t, c :: t in sch.tables && c in sch.tables[t].children ==> ChildTable(sch.tables[t], c) in sch.tables
  }

  /** The calls `setup_row_references({tok: doc}, t, ...)` makes, itself
      first: then, when the row data is an object, the calls for the child
      relationships of `t`, in schema order. */
  ghost function RowPlan(sch: Schema, t: TableName, tok: Token, doc: Doc): seq<RowRef>
    requires Closed(sch) && t in sch.tables
    decreases doc, 3
  {
    [RowRef(t, tok, doc)] + if doc.Record? then KeysPlan(sch, t, doc, sch.tables[t].children) else []
  }

  /** The calls for the child relationships `keys` of a row of `t`, in order. */
  ghost function KeysPlan(sch: Schema, t: TableName, doc: Doc, keys: seq<Column>): seq<RowRef>
    requires Closed(sch) && t in sch.tables && doc.Record? && forall k :: k in keys ==> k in sch.tables[t].children
    decreases doc, 2, |keys|
  {
    if keys == [] then [] else KeyPlan(sch, t, doc, keys[0]) + KeysPlan(sch, t, doc, keys[1..])
  }

  /** The calls for one child relationship `key`: none when the row data
      omits it, otherwise one call per child row it lists. */
  ghost function KeyPlan(sch: Schema, t: TableName, doc: Doc, key: Column): seq<RowRef>
    requires Closed(sch) && t in sch.tables && doc.Record? && key in sch.tables[t].children
    decreases doc, 1
  {
    if Has(doc.fields, key) && Get(doc.fields, key).value.Rows? then
      var j :| 0 <= j < |doc.fields| && doc.fields[j] == (key, Get(doc.fields, key).value);
      EntriesPlan(sch, ChildTable(sch.tables[t], key), doc.fields[j].1, 0)
    else []
  }

  /** The calls for the rows of table data `group` of table `t` from the
      `i`-th on, in order. */
  ghost function EntriesPlan(sch: Schema, t: TableName, group: Doc, i: nat): seq<RowRef>
    requires Closed(sch) && t in sch.tables && group.Rows? && i <= |group.entries|
    decreases group, 0, |group.entries| - i
  {
    if i == |group.entries| then []
    else RowPlan(sch, t, group.entries[i].0, group.entries[i].1) + EntriesPlan(sch, t, group, i + 1)
  }

  /** Every row of table data is called, as a row of its table. */
  lemma {:induction false} EntriesCalled(sch: Schema, t: TableName, group: Doc, i: nat, k: nat)
    requires Closed(sch) && t in sch.tables && group.Rows? && i <= k < |group.entries|
    ensures RowRef(t, group.entries[k].0, group.entries[k].1) in EntriesPlan(sch, t, group, i)
    decreases k - i
  {
    if i < k {
      EntriesCalled(sch, t, group, i + 1, k);
    }
  }

  /** The calls for a row of `t` are in `t` or in tables ranked below it. */
  lemma {:induction false} RowPlanBelow(sch: Schema, rank: map<TableName, nat>, t: TableName, tok: Token, doc: Doc)
    requires WellFormed(sch, rank) && t in sch.tables
    ensures Closed(sch)
    ensures forall c :: c in RowPlan(sch, t, tok, doc) ==> c.table in sch.tables && rank[c.table] <= rank[t]
    decreases doc, 3
  {
    if doc.Record? {
      KeysPlanBelow(sch, rank, t, doc, sch.tables[t].children);
    }
  }

  lemma {:induction false} KeysPlanBelow(sch: Schema, rank: map<TableName, nat>, t: TableName, doc: Doc, keys: seq<Column>)
    requires WellFormed(sch, rank) && t in sch.tables && doc.Record? && forall k :: k in keys ==> k in sch.tables[t].children
    ensures Closed(sch)
    ensures forall c :: c in KeysPlan(sch, t, doc, keys) ==> c.table in sch.tables && rank[c.table] < rank[t]
    decreases doc, 2, |keys|
  {
    if keys != [] {
      var key := keys[0];
      if Has(doc.fields, key) && Get(doc.fields, key).value.Rows? {
        var j :| 0 <= j < |doc.fields| && doc.fields[j] == (key, Get(doc.fields, key).value);
        EntriesPlanBelow(sch, rank, ChildTable(sch.tables[t], key), doc.fields[j].1, 0);
      }
      KeysPlanBelow(sch, rank, t, doc, keys[1..]);
    }
  }

  lemma {:induction false} EntriesPlanBelow(sch: Schema, rank: map<TableName, nat>, t: TableName, group: Doc, i: nat)
    requires WellFormed(sch, rank) && t in sch.tables && group.Rows? && i <= |group.entries|
    ensures Closed(sch)
    ensures forall c :: c in EntriesPlan(sch, t, group, i) ==> c.table in sch.tables && rank[c.table] <= rank[t]
    decreases group, 0, |group.entries| - i
  {
    if i < |group.entries| {
      RowPlanBelow(sch, rank, t, group.entries[i].0, group.entries[i].1);
      EntriesPlanBelow(sch, rank, t, group, i + 1);
    }
  }

  /** A call as it happened: the store before it and after it. */
  datatype Visit = Visit(call: RowRef, before: Snapshot, after: Snapshot)

  /** The calls of a log of visits, in order. */
  ghost function Calls(log: seq<Visit>): (r: seq<RowRef>)
    ensures |r| == |log|
  {
    if log == [] then [] else [log[0].call] + Calls(log[1..])
  }

  lemma {:induction false} CallsJoin(l1: seq<Visit>, l2: seq<Visit>)
    ensures Calls(l1 + l2) == Calls(l1) + Calls(l2)
  {
    if l1 == [] {
      assert l1 + l2 == l2;
    } else {
      assert (l1 + l2)[1..] == l1[1..] + l2;
      CallsJoin(l1[1..], l2);
    }
  }

  /** The visits follow one another from `a` to `b`. */
  ghost predicate Chain(log: seq<Visit>, a: Snapshot, b: Snapshot) {
    if log == [] then a == b
    else
      && log[0].before == a && log[|log| - 1].after == b
      && forall i :: 0 <= i < |log| - 1 ==> log[i].after == log[i + 1].before
  }

  lemma ChainJoin(l1: seq<Visit>, l2: seq<Visit>, a: Snapshot, m: Snapshot, b: Snapshot)
    requires Chain(l1, a, m) && Chain(l2, m, b)
    ensures Chain(l1 + l2, a, b)
  {
    if l1 != [] && l2 != [] {
      var l := l1 + l2;
      forall i | 0 <= i < |l| - 1 ensures l[i].after == l[i + 1].before {
        if i + 1 < |l1| {
          assert l[i] == l1[i] && l[i + 1] == l1[i + 1];
        } else if i + 1 == |l1| {
          assert l[i] == l1[|l1| - 1] && l[i + 1] == l2[0];
        } else {
          assert l[i] == l2[i - |l1|] && l[i + 1] == l2[i - |l1| + 1];
        }
      }
    } else if l1 == [] {
      assert l1 + l2 == l2;
    } else {
      assert l1 + l2 == l1;
    }
  }

  /** What one call of `setup_row_references` did to the store: the row data
      is an object and its token resolved; a token that names no row was
      allowed only on a table without plain reference columns and changed
      nothing; otherwise only plain reference columns of the named row `u`
      changed, each as `LinkShape` says. */
  ghost predicate RowLinked(h: Helpers, sch: Schema, v: Visit) {
    var c := v.call;
    && c.table in sch.tables && c.table in v.before.tables && c.doc.Record?
    && var ts := sch.tables[c.table];
       var found := Resolve(h, ts, v.before, c.table, c.tok);
       && found.Ok?
       && (found.value.None? ==> (forall name :: !IsLink(ts, name)) && v.after == v.before)
       && (found.value.Some? ==> RowWrittenLinks(sch, ts, c.table, c.doc.fields, v.before, v.after, found.value.value))
  }

  /** From `a` to `b` only the plain reference columns of row `u` of `t`
      changed, each as `LinkShape` says. */
  ghost predicate RowWrittenLinks(sch: Schema, ts: TableSchema, t: TableName, fields: Dict<Column, Doc>,
                                  a: Snapshot, b: Snapshot, u: Uuid)
  {
    && Present(a, t, u) && LinksOnly(sch, a, b)
    && (forall w :: w != u ==> RowOf(b, w) == RowOf(a, w))
    && (forall c :: !IsLink(ts, c) ==> Attr(b, u, c) == Attr(a, u, c))
    && (forall name :: IsLink(ts, name) ==>
          LinkShape(a, Get(ts.references, name).value, Get(fields, name), Attr(b, u, name)))
  }

  // ---------------------------------------------------------------------
  // setup_row_references and setup_references

  /** Every visit of the log did what `RowLinked` says. */
  ghost predicate AllLinked(h: Helpers, sch: Schema, log: seq<Visit>) {
    forall v :: v in log ==> RowLinked(h, sch, v)
  }

  lemma AllLinkedJoin(h: Helpers, sch: Schema, l1: seq<Visit>, l2: seq<Visit>)
    requires AllLinked(h, sch, l1) && AllLinked(h, sch, l2)
    ensures AllLinked(h, sch, l1 + l2)
  {
    forall v | v in l1 + l2 ensures RowLinked(h, sch, v) {
      if v in l1 {
        assert RowLinked(h, sch, v);
      }
    }
  }

  /** `setup_row_references({tok: doc}, t, ...)`: write the plain reference
      columns of the row `tok` names, then recurse into the rows of every
      child relationship the row data lists.  The ghost `log` records every
      call made, this one first, as the plan of the document asks. */
  method SetupRowReferences(h: Helpers, sch: Schema, ghost rank: map<TableName, nat>, idl: Idl, t: TableName,
                            tok: Token, doc: Doc) returns (r: Result<()>, ghost log: seq<Visit>)
    requires WellFormed(sch, rank) && Consistent(idl.Snap()) && Covers(idl.Snap(), sch) && t in sch.tables
    modifies idl
    ensures !doc.Record? ==> r == Fail(TypeError)
    ensures doc.Record? && Resolve(h, sch.tables[t], old(idl.Snap()), t, tok).Fail? ==>
              r == Fail(Resolve(h, sch.tables[t], old(idl.Snap()), t, tok).error)
    ensures Resolve(h, sch.tables[t], old(idl.Snap()), t, tok) == Ok(None) &&
              (exists name :: IsLink(sch.tables[t], name)) ==>
              r.Fail?
    ensures r.Ok? ==> LinksOnly(sch, old(idl.Snap()), idl.Snap()) && Consistent(idl.Snap())
    ensures r.Ok? ==> Kept(old(idl.Snap()), idl.Snap(), Upper(sch, rank, t))
    ensures r.Ok? ==> forall v :: v in old(idl.Snap()).tables[t] && Resolve(h, sch.tables[t], old(idl.Snap()), t, tok) != Ok(Some(v)) ==>
              RowOf(idl.Snap(), v) == RowOf(old(idl.Snap()), v)
    ensures r.Ok? && Resolve(h, sch.tables[t], old(idl.Snap()), t, tok).value.Some? ==>
              var u := Resolve(h, sch.tables[t], old(idl.Snap()), t, tok).value.value;
              forall name :: IsLink(sch.tables[t], name) ==>
                LinkShape(old(idl.Snap()), Get(sch.tables[t].references, name).value, Get(doc.fields, name), Attr(idl.Snap(), u, name))
    ensures r.Ok? ==> Closed(sch) && Calls(log) == RowPlan(sch, t, tok, doc) &&
                      Chain(log, old(idl.Snap()), idl.Snap()) && AllLinked(h, sch, log)
    decreases rank[t], 2
  {
    log := [];
    if !doc.Record? {
      return Fail(TypeError), log;
    }
    var ts := sch.tables[t];
    ghost var s0 := idl.Snap();
    var found := IndexToRow(h, ts, idl, t, tok);
    if found.Fail? {
      return Fail(found.error), log;
    }
    if found.value.None? {
      var none := NoRowLinks(h, sch, rank, idl, t, doc.fields);
      if none.Fail? {
        return Fail(none.error), log;
      }
      LinksRefl(sch, s0);
    } else {
      var u := found.value.value;
      assert Present(s0, t, u);
      var written := LinkColumns(h, sch, rank, idl, t, u, doc.fields);
      if written.Fail? {
        return Fail(written.error), log;
      }
    }
    ghost var s1 := idl.Snap();
    assert RowLinked(h, sch, Visit(RowRef(t, tok, doc), s0, s1));
    var rest;
    ghost var sub;
    rest, sub := LinkChildren(h, sch, rank, idl, t, doc.fields);
    if rest.Fail? {
      return Fail(rest.error), log;
    }
    LinksTrans(sch, s0, s1, idl.Snap());
    KeptTrans(s0, s1, idl.Snap(), Upper(sch, rank, t));
    RowLogDone(h, sch, t, tok, doc, s0, s1, idl.Snap(), sub);
    log := [Visit(RowRef(t, tok, doc), s0, s1)] + sub;
    r := Ok(());
  }

  /** The call on the row itself, followed by the calls of its children,
      is the plan of the row. */
  lemma RowLogDone(h: Helpers, sch: Schema, t: TableName, tok: Token, doc: Doc,
                   s0: Snapshot, s1: Snapshot, s2: Snapshot, sub: seq<Visit>)
    requires Closed(sch) && t in sch.tables && doc.Record?
    requires RowLinked(h, sch, Visit(RowRef(t, tok, doc), s0, s1))
    requires Calls(sub) == KeysPlan(sch, t, doc, sch.tables[t].children) && Chain(sub, s1, s2) && AllLinked(h, sch, sub)
    ensures var log := [Visit(RowRef(t, tok, doc), s0, s1)] + sub;
            Calls(log) == RowPlan(sch, t, tok, doc) && Chain(log, s0, s2) && AllLinked(h, sch, log)
  {
    var v := Visit(RowRef(t, tok, doc), s0, s1);
    var log := [v] + sub;
    assert log[1..] == sub;
    ChainJoin([v], sub, s0, s1, s2);
  }

  /** What the loop of `LinkChildren` keeps: only link columns changed, the
      store is well formed, and no table above the children of `t` moved. */
  ghost predicate Linking(sch: Schema, rank: map<TableName, nat>, s0: Snapshot, s: Snapshot, t: TableName) {
    && t in rank && LinksOnly(sch, s0, s) && Consistent(s) && Covers(s, sch)
    && Kept(s0, s, Upper(sch, rank, t) + {t})
  }

  /** The log of the loop of `LinkChildren` after the first `n` child
      relationships: those relationships' calls, from `s0` to `s`. */
  ghost predicate ChildrenLog(h: Helpers, sch: Schema, s0: Snapshot, s: Snapshot, t: TableName,
                              fields: Dict<Column, Doc>, n: nat, log: seq<Visit>)
  {
    && Closed(sch) && t in sch.tables && n <= |sch.tables[t].children|
    && Chain(log, s0, s) && AllLinked(h, sch, log)
    && Calls(log) + KeysPlan(sch, t, Record(fields), sch.tables[t].children[n..]) ==
         KeysPlan(sch, t, Record(fields), sch.tables[t].children)
  }

  /** One child relationship of `LinkChildren`: the loop's facts hold for
      one more relationship. */
  lemma LinkingStep(sch: Schema, rank: map<TableName, nat>, s0: Snapshot, prev: Snapshot, s: Snapshot, t: TableName)
    requires Linking(sch, rank, s0, prev, t)
    requires LinksOnly(sch, prev, s) && Consistent(s) && Kept(prev, s, Upper(sch, rank, t) + {t})
    ensures Linking(sch, rank, s0, s, t)
  {
    LinksTrans(sch, s0, prev, s);
    KeptTrans(s0, prev, s, Upper(sch, rank, t) + {t});
  }

  lemma ChildrenStep(h: Helpers, sch: Schema, s0: Snapshot, prev: Snapshot, s: Snapshot,
                     t: TableName, fields: Dict<Column, Doc>, n: nat, log: seq<Visit>, sub: seq<Visit>)
    requires ChildrenLog(h, sch, s0, prev, t, fields, n, log) && n < |sch.tables[t].children|
    requires Calls(sub) == KeyPlan(sch, t, Record(fields), sch.tables[t].children[n]) && Chain(sub, prev, s) && AllLinked(h, sch, sub)
    ensures ChildrenLog(h, sch, s0, s, t, fields, n + 1, log + sub)
  {
    KeysUnfold(sch, t, Record(fields), sch.tables[t].children, n);
    CallsJoin(log, sub);
    ChainJoin(log, sub, s0, prev, s);
    AllLinkedJoin(h, sch, log, sub);
  }

  /** The calls for the keys from the `n`-th on are those of the `n`-th key
      followed by those of the rest. */
  lemma KeysUnfold(sch: Schema, t: TableName, doc: Doc, keys: seq<Column>, n: nat)
    requires Closed(sch) && t in sch.tables && doc.Record? && n < |keys|
    requires forall k :: k in keys ==> k in sch.tables[t].children
    ensures KeysPlan(sch, t, doc, keys[n..]) == KeyPlan(sch, t, doc, keys[n]) + KeysPlan(sch, t, doc, keys[n + 1..])
  {
    assert keys[n..][0] == keys[n] && keys[n..][1..] == keys[n + 1..];
  }

  /** The loop of `setup_row_references` over the child relationships of `t`
      that the row data lists. */
  method LinkChildren(h: Helpers, sch: Schema, ghost rank: map<TableName, nat>, idl: Idl, t: TableName,
                      fields: Dict<Column, Doc>) returns (r: Result<()>, ghost log: seq<Visit>)
    requires WellFormed(sch, rank) && Consistent(idl.Snap()) && Covers(idl.Snap(), sch) && t in sch.tables
    modifies idl
    ensures r.Ok? ==> forall key :: key in sch.tables[t].children && Has(fields, key) ==> Get(fields, key).value.Rows?
    ensures r.Ok? ==> LinksOnly(sch, old(idl.Snap()), idl.Snap()) && Consistent(idl.Snap())
    ensures r.Ok? ==> Kept(old(idl.Snap()), idl.Snap(), Upper(sch, rank, t) + {t})
    ensures r.Ok? ==> Closed(sch) && Calls(log) == KeysPlan(sch, t, Record(fields), sch.tables[t].children) &&
                      Chain(log, old(idl.Snap()), idl.Snap()) && AllLinked(h, sch, log)
    decreases rank[t], 1, 1
  {
    ghost var s0 := idl.Snap();
    log := [];
    var ts := sch.tables[t];
    var keys := ts.children;
    LinksRefl(sch, s0);
    var n := 0;
    while n < |keys|
      invariant 0 <= n <= |keys|
      invariant Linking(sch, rank, s0, idl.Snap(), t) && ChildrenLog(h, sch, s0, idl.Snap(), t, fields, n, log)
      invariant forall key :: key in keys[..n] && Has(fields, key) ==> Get(fields, key).value.Rows?
    {
      PrefixStep(keys, n);
      ghost var prev := idl.Snap();
      var done;
      ghost var sub;
      done, sub := LinkChild(h, sch, rank, idl, t, fields, keys[n]);
      if done.Fail? {
        return Fail(done.error), log;
      }
      LinkingStep(sch, rank, s0, prev, idl.Snap(), t);
      ChildrenStep(h, sch, s0, prev, idl.Snap(), t, fields, n, log, sub);
      log := log + sub;
      n := n + 1;
    }
    assert keys[..n] == keys && keys[n..] == [];
    r := Ok(());
  }

  /** One child relationship `key` of `setup_row_references`: skipped when
      the row data omits it; otherwise every child row it lists, which must
      be table data. */
  method LinkChild(h: Helpers, sch: Schema, ghost rank: map<TableName, nat>, idl: Idl, t: TableName,
                   fields: Dict<Column, Doc>, key: Column) returns (r: Result<()>, ghost log: seq<Visit>)
    requires WellFormed(sch, rank) && Consistent(idl.Snap()) && Covers(idl.Snap(), sch)
    requires t in sch.tables && key in sch.tables[t].children
    modifies idl
    ensures Has(fields, key) && !Get(fields, key).value.Rows? ==> r == Fail(AttributeError)
    ensures r.Ok? ==> LinksOnly(sch, old(idl.Snap()), idl.Snap()) && Consistent(idl.Snap())
    ensures r.Ok? ==> Kept(old(idl.Snap()), idl.Snap(), Upper(sch, rank, t) + {t})
    ensures r.Ok? ==> Closed(sch) && Calls(log) == KeyPlan(sch, t, Record(fields), key) &&
                      Chain(log, old(idl.Snap()), idl.Snap()) && AllLinked(h, sch, log)
    decreases rank[t], 1, 0
  {
    log := [];
    ghost var s0 := idl.Snap();
    var data := Get(fields, key);
    if data.None? {
      LinksRefl(sch, s0);
      return Ok(()), log;
    }
    if !data.value.Rows? {
      // `iteritems` of a value that is not a dict
      return Fail(AttributeError), log;
    }
    var ct := ChildTable(sch.tables[t], key);
    UpperBelow(sch, rank, t, ct);
    r, log := LinkEntries(h, sch, rank, idl, ct, data.value.entries);
    if r.Ok? {
      KeptTrans(s0, s0, idl.Snap(), Upper(sch, rank, t) + {t});
    }
  }

  /** The log of the loop of `LinkEntries` after the first `i` rows: those
      rows' calls, from `s0` to `s`. */
  ghost predicate EntriesLog(h: Helpers, sch: Schema, s0: Snapshot, s: Snapshot, t: TableName,
                             entries: Dict<Token, Doc>, i: nat, log: seq<Visit>)
  {
    && Closed(sch) && t in sch.tables && i <= |entries|
    && Chain(log, s0, s) && AllLinked(h, sch, log)
    && Calls(log) + EntriesPlan(sch, t, Rows(entries), i) == EntriesPlan(sch, t, Rows(entries), 0)
  }

  lemma EntriesStep(h: Helpers, sch: Schema, s0: Snapshot, prev: Snapshot, s: Snapshot, t: TableName,
                    entries: Dict<Token, Doc>, i: nat, log: seq<Visit>, sub: seq<Visit>)
    requires EntriesLog(h, sch, s0, prev, t, entries, i, log) && i < |entries|
    requires Calls(sub) == RowPlan(sch, t, entries[i].0, entries[i].1) && Chain(sub, prev, s) && AllLinked(h, sch, sub)
    ensures EntriesLog(h, sch, s0, s, t, entries, i + 1, log + sub)
  {
    CallsJoin(log, sub);
    ChainJoin(log, sub, s0, prev, s);
    AllLinkedJoin(h, sch, log, sub);
  }

  /** `setup_row_references` on each row of a table's data, in order. */
  method LinkEntries(h: Helpers, sch: Schema, ghost rank: map<TableName, nat>, idl: Idl, t: TableName,
                     entries: Dict<Token, Doc>) returns (r: Result<()>, ghost log: seq<Visit>)
    requires WellFormed(sch, rank) && Consistent(idl.Snap()) && Covers(idl.Snap(), sch) && t in sch.tables
    modifies idl
    ensures r.Ok? ==> LinksOnly(sch, old(idl.Snap()), idl.Snap()) && Consistent(idl.Snap())
    ensures r.Ok? ==> Kept(old(idl.Snap()), idl.Snap(), Upper(sch, rank, t))
    ensures r.Ok? ==> Closed(sch) && Calls(log) == EntriesPlan(sch, t, Rows(entries), 0) &&
                      Chain(log, old(idl.Snap()), idl.Snap()) && AllLinked(h, sch, log)
    decreases rank[t], 3
  {
    ghost var s0 := idl.Snap();
    log := [];
    LinksRefl(sch, s0);
    var i := 0;
    while i < |entries|
      invariant 0 <= i <= |entries|
      invariant LinksOnly(sch, s0, idl.Snap()) && Consistent(idl.Snap()) && Covers(idl.Snap(), sch)
      invariant Kept(s0, idl.Snap(), Upper(sch, rank, t))
      invariant EntriesLog(h, sch, s0, idl.Snap(), t, entries, i, log)
    {
      ghost var prev := idl.Snap();
      var done;
      ghost var sub;
      done, sub := SetupRowReferences(h, sch, rank, idl, t, entries[i].0, entries[i].1);
      if done.Fail? {
        return Fail(done.error), log;
      }
      LinksTrans(sch, s0, prev, idl.Snap());
      KeptTrans(s0, prev, idl.Snap(), Upper(sch, rank, t));
      EntriesStep(h, sch, s0, prev, idl.Snap(), t, entries, i, log, sub);
      log := log + sub;
      i := i + 1;
    }
    r := Ok(());
  }

  /** `setup_references(t, data, ...)`: nothing for a table the document
      omits; otherwise every row of its data, in order. */
  method SetupReferences(h: Helpers, sch: Schema, ghost rank: map<TableName, nat>, idl: Idl, t: TableName,
                         data: Dict<TableName, Doc>) returns (r: Result<()>, ghost log: seq<Visit>)
    requires WellFormed(sch, rank) && Consistent(idl.Snap()) && Covers(idl.Snap(), sch) && t in sch.tables
    modifies idl
    ensures !Has(data, t) ==> r == Ok(()) && idl.Snap() == old(idl.Snap()) && log == []
    ensures Has(data, t) && !Get(data, t).value.Rows? ==> r == Fail(AttributeError)
    ensures r.Ok? ==> LinksOnly(sch, old(idl.Snap()), idl.Snap()) && Consistent(idl.Snap())
    ensures r.Ok? ==> Kept(old(idl.Snap()), idl.Snap(), Upper(sch, rank, t))
    ensures r.Ok? && Has(data, t) ==>
              Closed(sch) && Calls(log) == EntriesPlan(sch, t, Get(data, t).value, 0) &&
              Chain(log, old(idl.Snap()), idl.Snap()) && AllLinked(h, sch, log)
  {
    log := [];
    if !Has(data, t) {
      LinksRefl(sch, idl.Snap());
      return Ok(()), log;
    }
    var table := Get(data, t).value;
    if !table.Rows? {
      return Fail(AttributeError), log;
    }
    r, log := LinkEntries(h, sch, rank, idl, t, table.entries);
  }
}
