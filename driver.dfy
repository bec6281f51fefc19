/** The entry points of the configuration engine: `write` reconciles the
    store with a whole desired-state document (System normalisation, rows
    of every root table, then plain references of every root table, then
    one commit), and `read` gathers the data of every root table. */
module Driver {
  import opened Outcomes
  import opened Dicts
  import opened Schema
  import opened Values
  import opened Store
  import opened Setup
  import opened Links

  /** The transaction `write` commits.  Its pending operations are the
      changes made to the store; here it only counts its commits. */
  class Txn {
    var commits: nat

    constructor()
      ensures commits == 0
    {
      commits := 0;
    }

    /** `txn.commit_block()`; the status the database answers with is a parameter. */
    method CommitBlock(status: string) returns (s: string)
      modifies this
      ensures s == status && commits == old(commits) + 1
    {
      s := status;
      commits := commits + 1;
    }
  }

  /** A root (top-level) table: one without a parent. */
  predicate IsRoot(sch: Schema, t: TableName) {
    t in sch.tables && sch.tables[t].parent.None?
  }

  /** The index token `write` gives the System row: the text of the UUID of
      the first row of the store's System table. */
  function SystemToken(h: Helpers, s: Snapshot): Token
    requires SystemTable in s.tables && s.tables[SystemTable] != []
  {
    TextToken(h.uuidText(s.tables[SystemTable][0]))
  }

  /** The document with its System data wrapped as the one row of the
      System table, keyed by the System row's UUID text. */
  function Normalised(h: Helpers, s: Snapshot, data: Dict<TableName, Doc>): (r: Result<Dict<TableName, Doc>>)
    ensures SystemTable !in s.tables ==> r == Fail(KeyError)
    ensures SystemTable in s.tables && s.tables[SystemTable] == [] ==> r == Fail(IndexError)
    ensures SystemTable in s.tables && s.tables[SystemTable] != [] && !Has(data, SystemTable) ==> r == Fail(KeyError)
    ensures r.Ok? ==>
              && Keys(r.value) == Keys(data)
              && Get(r.value, SystemTable) == Some(Rows([(SystemToken(h, s), Get(data, SystemTable).value)]))
              && forall k :: k != SystemTable ==> Get(r.value, k) == Get(data, k)
  {
    if SystemTable !in s.tables then Fail(KeyError)
    else if s.tables[SystemTable] == [] then Fail(IndexError)
    else match Get(data, SystemTable)
      case None => Fail(KeyError)
      case Some(sys) =>
        var wrapped := Rows([(SystemToken(h, s), sys)]);
        PutKeys(data, SystemTable, wrapped);
        PutGet(data, SystemTable, wrapped, SystemTable);
        PutElsewhere(data, SystemTable, wrapped);
        Ok(Put(data, SystemTable, wrapped))
  }

  /** `config[System] = config[System].values()[0]`: the System data
      replaced by its first value.  A missing key raises KeyError, data
      that is not a dictionary AttributeError, an empty one IndexError. */
  function Collapsed(d: Dict<TableName, Doc>): (r: Result<Dict<TableName, Doc>>)
    ensures !Has(d, SystemTable) ==> r == Fail(KeyError)
    ensures Has(d, SystemTable) && !(Get(d, SystemTable).value.Rows? || Get(d, SystemTable).value.Record?) ==>
              r == Fail(AttributeError)
    ensures Get(d, SystemTable) in {Some(Rows([])), Some(Record([]))} ==> r == Fail(IndexError)
    ensures r.Ok? ==>
              && Keys(r.value) == Keys(d)
              && (forall k :: k != SystemTable ==> Get(r.value, k) == Get(d, k))
              && match Get(d, SystemTable).value
                 case Rows(entries) => entries != [] && Get(r.value, SystemTable) == Some(entries[0].1)
                 case Record(fields) => fields != [] && Get(r.value, SystemTable) == Some(fields[0].1)
                 case _ => false
  {
    match Get(d, SystemTable)
    case None => Fail(KeyError)
    case Some(sys) =>
      var first: Result<Doc> :=
        match sys
        case Rows(entries) => if entries == [] then Fail(IndexError) else Ok(entries[0].1)
        case Record(fields) => if fields == [] then Fail(IndexError) else Ok(fields[0].1)
        case _ => Fail(AttributeError);
      if first.Fail? then Fail(first.error)
      else
        PutKeys(d, SystemTable, first.value);
        PutGet(d, SystemTable, first.value, SystemTable);
        PutElsewhere(d, SystemTable, first.value);
        Ok(Put(d, SystemTable, first.value))
  }

  /** Collapsing a normalised document gives back the document: what
      `write` does to the System entry `read` undoes. */
  lemma CollapseNormalised(h: Helpers, s: Snapshot, data: Dict<TableName, Doc>)
    requires Normalised(h, s, data).Ok?
    ensures Collapsed(Normalised(h, s, data).value) == Ok(data)
  {
    var sys := Get(data, SystemTable).value;
    var wrapped := Rows([(SystemToken(h, s), sys)]);
    PutPut(data, SystemTable, wrapped, sys);
    PutSame(data, SystemTable, sys);
  }

  /** Conversely, a document whose System entry is the one row keyed by the
      store's System UUID text is what normalising its collapsed form gives. */
  lemma NormaliseCollapsed(h: Helpers, s: Snapshot, d: Dict<TableName, Doc>)
    requires SystemTable in s.tables && s.tables[SystemTable] != []
    requires Get(d, SystemTable).Some? && Get(d, SystemTable).value.Rows?
    requires Get(d, SystemTable).value.entries != [] && Get(d, SystemTable).value.entries[0].0 == SystemToken(h, s)
    requires |Get(d, SystemTable).value.entries| == 1
    ensures Collapsed(d).Ok? && Normalised(h, s, Collapsed(d).value) == Ok(d)
  {
    var entries := Get(d, SystemTable).value.entries;
    var sys := entries[0].1;
    assert entries == [(SystemToken(h, s), sys)];
    PutPut(d, SystemTable, sys, Rows(entries));
    PutSame(d, SystemTable, Rows(entries));
  }

  /** `config` after the loop of `read` over the tables of `order`: the
      data of each root table, merged in order with `dict.update`. */
  function Collected(sch: Schema, tableData: TableName -> Option<Dict<TableName, Doc>>,
                     order: seq<TableName>): Dict<TableName, Doc>
  {
    if order == [] then []
    else
      var prev := Collected(sch, tableData, order[..|order| - 1]);
      var t := order[|order| - 1];
      if IsRoot(sch, t) && tableData(t).Some? then Update(prev, tableData(t).value) else prev
  }

  /** A key of the gathered configuration comes from the data of some
      root table, and every key of every root table's data is gathered. */
  lemma {:induction false} CollectedHas(sch: Schema, tableData: TableName -> Option<Dict<TableName, Doc>>,
                                        order: seq<TableName>, k: TableName)
    ensures Has(Collected(sch, tableData, order), k) <==>
              exists t :: t in order && IsRoot(sch, t) && tableData(t).Some? && Has(tableData(t).value, k)
    decreases |order|
  {
    if order != [] {
      var init := order[..|order| - 1];
      var t := order[|order| - 1];
      CollectedHas(sch, tableData, init, k);
      assert forall x :: x in order <==> x in init || x == t;
      if IsRoot(sch, t) && tableData(t).Some? {
        UpdateGet(Collected(sch, tableData, init), tableData(t).value, k);
      }
    }
  }

  /** `dc.read`: the data of every root table gathered, then the System
      entry collapsed.  The per-table reader is a parameter. */
  method Read(sch: Schema, tableData: TableName -> Option<Dict<TableName, Doc>>) returns (r: Result<Dict<TableName, Doc>>)
    requires forall t :: t in sch.order ==> t in sch.tables
    ensures r == Collapsed(Collected(sch, tableData, sch.order))
    ensures r.Ok? ==> forall k :: Has(r.value, k) <==>
              exists t :: t in sch.order && IsRoot(sch, t) && tableData(t).Some? && Has(tableData(t).value, k)
    ensures (forall t :: t in sch.order && IsRoot(sch, t) && tableData(t).Some? ==> !Has(tableData(t).value, SystemTable)) ==>
              r == Fail(KeyError)
  {
    var config: Dict<TableName, Doc> := [];
    var i := 0;
    while i < |sch.order|
      invariant 0 <= i <= |sch.order|
      invariant config == Collected(sch, tableData, sch.order[..i])
    {
      var t := sch.order[i];
      assert sch.order[..i + 1][..i] == sch.order[..i];
      if sch.tables[t].parent.None? {
        var found := tableData(t);
        if found.Some? {
          config := Update(config, found.value);
        }
      }
      i := i + 1;
    }
    assert sch.order[..i] == sch.order;
    r := Collapsed(config);
    forall k ensures Has(config, k) <==>
                     exists t :: t in sch.order && IsRoot(sch, t) && tableData(t).Some? && Has(tableData(t).value, k) {
      CollectedHas(sch, tableData, sch.order, k);
    }
    if r.Ok? {
      assert Keys(r.value) == Keys(config);
      assert forall k :: Has(r.value, k) <==> Has(config, k);
    }
  }

  /** A call `write` makes into the engine, recorded for its contract. */
  datatype Call = SetupTableCall(table: TableName) | SetupReferencesCall(table: TableName)

  /** The calls of one pass of `write` over the tables of `order`: one per
      root table, `setup_references` in the second pass and `setup_table`
      in the first. */
  function Pass(sch: Schema, order: seq<TableName>, second: bool): seq<Call> {
    if order == [] then []
    else
      var t := order[|order| - 1];
      Pass(sch, order[..|order| - 1], second) +
      if !IsRoot(sch, t) then [] else if second then [SetupReferencesCall(t)] else [SetupTableCall(t)]
  }

  /** One more table of `order` adds its call, if it is a root table. */
  lemma PassStep(sch: Schema, order: seq<TableName>, i: nat, second: bool)
    requires i < |order|
    ensures Pass(sch, order[..i + 1], second) ==
              Pass(sch, order[..i], second) +
              if !IsRoot(sch, order[i]) then [] else if second then [SetupReferencesCall(order[i])] else [SetupTableCall(order[i])]
  {
    assert order[..i + 1][..i] == order[..i];
  }

  /** A pass calls into exactly the root tables, of the kind of its pass. */
  lemma {:induction false} PassMembers(sch: Schema, order: seq<TableName>, second: bool, c: Call)
    ensures c in Pass(sch, order, second) <==>
              c.table in order && IsRoot(sch, c.table) && (c.SetupReferencesCall? == second)
    decreases |order|
  {
    if order != [] {
      var init := order[..|order| - 1];
      PassMembers(sch, init, second, c);
      assert forall x :: x in order <==> x in init || x == order[|order| - 1];
    }
  }

  /** Every call of a pass names a table of `order`, in the order of
      `order`; so a table listed once is called at most once. */
  lemma {:induction false} PassOnce(sch: Schema, order: seq<TableName>, second: bool)
    requires Distinct(order)
    ensures Distinct(Pass(sch, order, second))
    decreases |order|
  {
    if order != [] {
      var init := order[..|order| - 1];
      var t := order[|order| - 1];
      assert Distinct(init);
      PassOnce(sch, init, second);
      var p := Pass(sch, init, second);
      forall c | c in p ensures c.table != t {
        PassMembers(sch, init, second, c);
        assert c.table in init;
      }
    }
  }

  /** In the calls of both passes, every `setup_table` call comes before
      every `setup_references` call. */
  lemma PassesOrdered(sch: Schema, order: seq<TableName>, i: nat, j: nat)
    requires i < j < |Pass(sch, order, false) + Pass(sch, order, true)|
    ensures var log := Pass(sch, order, false) + Pass(sch, order, true);
            !(log[i].SetupReferencesCall? && log[j].SetupTableCall?)
  {
    var log := Pass(sch, order, false) + Pass(sch, order, true);
    var n := |Pass(sch, order, false)|;
    if i < n {
      PassMembers(sch, order, false, log[i]);
    } else {
      PassMembers(sch, order, true, log[i]);
      PassMembers(sch, order, true, log[j]);
    }
  }

  /** After the first phase: every root table's data that was present is
      table data keyed like the document's, and everything else is as
      in the document. */
  ghost predicate RowsWritten(sch: Schema, n: Dict<TableName, Doc>, doc: Dict<TableName, Doc>, done: seq<TableName>) {
    && Keys(doc) == Keys(n)
    && (forall x :: !(x in done && IsRoot(sch, x)) ==> Get(doc, x) == Get(n, x))
    && (forall x :: x in done && IsRoot(sch, x) && Has(n, x) ==>
          && Get(n, x).value.Rows? && Get(doc, x).Some? && Get(doc, x).value.Rows?
          && Keys(Get(doc, x).value.entries) == Keys(Get(n, x).value.entries))
  }

  /** One root table of the first phase: what `setup_table` promises for
      `t` extends the first-phase description to `t`. */
  lemma RowsStep(sch: Schema, n: Dict<TableName, Doc>, doc: Dict<TableName, Doc>, doc': Dict<TableName, Doc>,
                 done: seq<TableName>, t: TableName)
    requires RowsWritten(sch, n, doc, done) && t !in done && IsRoot(sch, t)
    requires Keys(doc') == Keys(doc) && forall x :: x != t ==> Get(doc', x) == Get(doc, x)
    requires Has(doc, t) ==>
               && Get(doc, t).value.Rows? && Get(doc', t).Some? && Get(doc', t).value.Rows?
               && Keys(Get(doc', t).value.entries) == Keys(Get(doc, t).value.entries)
    ensures RowsWritten(sch, n, doc', done + [t])
  {
  }

  /** The first phase of `write`: `setup_table` on every root table in
      schema order, each on the document as the previous one left it. */
  method SetupRoots(h: Helpers, sch: Schema, ghost rank: map<TableName, nat>, idl: Idl, n: Dict<TableName, Doc>)
    returns (r: Result<Dict<TableName, Doc>>, ghost log: seq<Call>)
    requires Ready(sch, rank, idl.Snap())
    modifies idl
    ensures r.Ok? ==> Ready(sch, rank, idl.Snap()) && Follows(old(idl.Snap()), idl.Snap())
    ensures r.Ok? ==> RowsWritten(sch, n, r.value, sch.order)
    ensures r.Ok? ==> log == Pass(sch, sch.order, false)
  {
    log := [];
    var doc := n;
    ghost var s0 := idl.Snap();
    var i := 0;
    while i < |sch.order|
      invariant 0 <= i <= |sch.order|
      invariant Ready(sch, rank, idl.Snap()) && Follows(s0, idl.Snap())
      invariant RowsWritten(sch, n, doc, sch.order[..i])
      invariant log == Pass(sch, sch.order[..i], false)
    {
      var t := sch.order[i];
      PrefixStep(sch.order, i);
      assert t !in sch.order[..i];
      PassStep(sch, sch.order, i, false);
      if sch.tables[t].parent.None? {
        var got, rows, snaps := SetupTable(h, sch, rank, idl, t, doc);
        log := log + [SetupTableCall(t)];
        if got.Fail? {
          return Fail(got.error), log;
        }
        RowsStep(sch, n, doc, got.value, sch.order[..i], t);
        doc := got.value;
      }
      i := i + 1;
    }
    assert sch.order[..i] == sch.order;
    r := Ok(doc);
  }

  /** The calls of `setup_row_references` the second phase of `write`
      makes over the tables of `order`: for each root table the document
      lists, one call per row of its data, with the calls of its children. */
  ghost function LinkPlan(sch: Schema, order: seq<TableName>, doc: Dict<TableName, Doc>): seq<RowRef>
    requires Closed(sch) && forall x :: x in order ==> x in sch.tables
  {
    if order == [] then []
    else LinkPlan(sch, order[..|order| - 1], doc) + RootPlan(sch, order[|order| - 1], doc)
  }

  ghost function RootPlan(sch: Schema, t: TableName, doc: Dict<TableName, Doc>): seq<RowRef>
    requires Closed(sch) && t in sch.tables
  {
    if IsRoot(sch, t) && Has(doc, t) && Get(doc, t).value.Rows? then EntriesPlan(sch, t, Get(doc, t).value, 0) else []
  }

  /** The second phase of `write`: `setup_references` on every root table
      in schema order.  The ghost `visits` records every call of
      `setup_row_references` made, as `LinkPlan` lists them. */
  method LinkRoots(h: Helpers, sch: Schema, ghost rank: map<TableName, nat>, idl: Idl, doc: Dict<TableName, Doc>)
    returns (r: Result<()>, ghost log: seq<Call>, ghost visits: seq<Visit>)
    requires Ready(sch, rank, idl.Snap())
    modifies idl
    ensures r.Ok? ==> Ready(sch, rank, idl.Snap()) && LinksOnly(sch, old(idl.Snap()), idl.Snap())
    ensures r.Ok? ==> log == Pass(sch, sch.order, true)
    ensures r.Ok? ==> Closed(sch) && Calls(visits) == LinkPlan(sch, sch.order, doc) &&
                      Chain(visits, old(idl.Snap()), idl.Snap()) && AllLinked(h, sch, visits)
  {
    log, visits := [], [];
    ghost var s0 := idl.Snap();
    LinksRefl(sch, s0);
    var i := 0;
    while i < |sch.order|
      invariant RootsLinked(h, sch, rank, s0, idl.Snap(), doc, i, log, visits)
    {
      ghost var prev := idl.Snap();
      var got, sub := LinkTable(h, sch, rank, idl, sch.order[i], doc);
      if got.Fail? {
        return Fail(got.error), log + [SetupReferencesCall(sch.order[i])], visits;
      }
      RootsStep(h, sch, rank, s0, prev, idl.Snap(), doc, i, log, visits, sub);
      log := log + if IsRoot(sch, sch.order[i]) then [SetupReferencesCall(sch.order[i])] else [];
      visits := visits + sub;
      i := i + 1;
    }
    assert sch.order[..i] == sch.order;
    r := Ok(());
  }

  /** One table of the second phase: `setup_references` when it is a
      root table, nothing otherwise. */
  method LinkTable(h: Helpers, sch: Schema, ghost rank: map<TableName, nat>, idl: Idl, t: TableName,
                   doc: Dict<TableName, Doc>) returns (r: Result<()>, ghost sub: seq<Visit>)
    requires Ready(sch, rank, idl.Snap()) && t in sch.tables
    modifies idl
    ensures r.Fail? ==> IsRoot(sch, t)
    ensures r.Ok? ==> Ready(sch, rank, idl.Snap()) && LinksOnly(sch, old(idl.Snap()), idl.Snap())
    ensures r.Ok? ==> Closed(sch) && Calls(sub) == RootPlan(sch, t, doc) &&
                      Chain(sub, old(idl.Snap()), idl.Snap()) && AllLinked(h, sch, sub)
  {
    sub := [];
    if sch.tables[t].parent.None? {
      r, sub := SetupReferences(h, sch, rank, idl, t, doc);
    } else {
      LinksRefl(sch, idl.Snap());
      r := Ok(());
    }
  }

  /** The state of `LinkRoots` after the first `i` tables of the order:
      the calls made so far and the visits of `setup_row_references`. */
  ghost predicate RootsLinked(h: Helpers, sch: Schema, rank: map<TableName, nat>, s0: Snapshot, s: Snapshot,
                              doc: Dict<TableName, Doc>, i: nat, log: seq<Call>, visits: seq<Visit>)
  {
    && Ready(sch, rank, s) && LinksOnly(sch, s0, s)
    && Closed(sch) && i <= |sch.order| && (forall x :: x in sch.order ==> x in sch.tables)
    && log == Pass(sch, sch.order[..i], true)
    && Calls(visits) == LinkPlan(sch, sch.order[..i], doc)
    && Chain(visits, s0, s) && AllLinked(h, sch, visits)
  }

  /** One table of the second phase: its calls extend the visits. */
  lemma RootsStep(h: Helpers, sch: Schema, rank: map<TableName, nat>, s0: Snapshot, prev: Snapshot, s: Snapshot,
                  doc: Dict<TableName, Doc>, i: nat, log: seq<Call>, visits: seq<Visit>, sub: seq<Visit>)
    requires RootsLinked(h, sch, rank, s0, prev, doc, i, log, visits) && i < |sch.order|
    requires Ready(sch, rank, s) && LinksOnly(sch, prev, s)
    requires Calls(sub) == RootPlan(sch, sch.order[i], doc) && Chain(sub, prev, s) && AllLinked(h, sch, sub)
    ensures RootsLinked(h, sch, rank, s0, s, doc, i + 1,
                        log + if IsRoot(sch, sch.order[i]) then [SetupReferencesCall(sch.order[i])] else [],
                        visits + sub)
  {
    PassStep(sch, sch.order, i, true);
    LinksTrans(sch, s0, prev, s);
    var order := sch.order;
    assert order[..i + 1][..i] == order[..i] && order[..i + 1][i] == order[i];
    CallsJoin(visits, sub);
    ChainJoin(visits, sub, s0, prev, s);
    AllLinkedJoin(h, sch, visits, sub);
  }

  /** `dc.write`: normalise the System entry, set up every root table in
      schema order, then fill in the references of every root table, then
      commit once.  A transaction is created when none is given.  The
      rewritten document is returned beside the commit status. */
  method Write(h: Helpers, sch: Schema, ghost rank: map<TableName, nat>, idl: Idl,
               data: Dict<TableName, Doc>, txn: Txn?, status: string)
    returns (r: Result<string>, doc: Dict<TableName, Doc>, used: Txn, ghost mid: Snapshot, ghost log: seq<Call>,
             ghost visits: seq<Visit>)
    requires Ready(sch, rank, idl.Snap())
    modifies idl, txn
    ensures txn != null ==> used == txn
    ensures txn == null ==> fresh(used)
    ensures Normalised(h, old(idl.Snap()), data).Fail? ==>
              r == Fail(Normalised(h, old(idl.Snap()), data).error) && idl.Snap() == old(idl.Snap())
    ensures r.Fail? ==> used.commits == if txn == null then 0 else old(txn.commits)
    ensures r.Ok? ==> r.value == status && used.commits == 1 + if txn == null then 0 else old(txn.commits)
    ensures r.Ok? ==>
              && Ready(sch, rank, idl.Snap())
              && Follows(old(idl.Snap()), mid)
              && LinksOnly(sch, mid, idl.Snap())
    ensures r.Ok? ==> RowsWritten(sch, Normalised(h, old(idl.Snap()), data).value, doc, sch.order)
    ensures r.Ok? ==> log == Pass(sch, sch.order, false) + Pass(sch, sch.order, true)
    ensures r.Ok? ==> Closed(sch) && Calls(visits) == LinkPlan(sch, sch.order, doc) &&
                      Chain(visits, mid, idl.Snap()) && AllLinked(h, sch, visits)
  {
    log, visits := [], [];
    if txn == null {
      used := new Txn();
    } else {
      used := txn;
    }
    doc := data;
    mid := idl.Snap();
    var n := Normalised(h, idl.Snap(), data);
    if n.Fail? {
      return Fail(n.error), doc, used, mid, log, visits;
    }
    var written, first := SetupRoots(h, sch, rank, idl, n.value);
    log := first;
    if written.Fail? {
      return Fail(written.error), doc, used, mid, log, visits;
    }
    doc := written.value;
    mid := idl.Snap();
    var linked;
    ghost var second;
    linked, second, visits := LinkRoots(h, sch, rank, idl, doc);
    log := log + second;
    if linked.Fail? {
      return Fail(linked.error), doc, used, mid, log, visits;
    }
    var result := used.CommitBlock(status);
    r := Ok(result);
  }
}
