/** The transactional row store as the engine sees it: tables of rows
    identified by UUIDs, attribute get/set by column name, insert with a
    fresh UUID and row delete.  Commit is part of the driver. */
module Store {
  import opened Outcomes
  import opened Dicts
  import opened Schema
  import opened Values

  /** The value of the store: the rows of each table in iteration order,
      the attributes of each row, and the next UUID insert hands out. */
  datatype Snapshot = Snapshot(
    tables: map<TableName, seq<Uuid>>,
    cells: map<Uuid, map<Column, Value>>,
    next: Uuid)

  /** The helpers of the system's utility module and the Python built-ins
      the engine applies to store values.  Their implementations are not
      part of this model: every property below holds for every choice. */
  datatype Helpers = Helpers(
    escapedSplit: string -> seq<string>,               // utils.escaped_split
    rowToIndex: (TableName, Uuid, Snapshot) -> Token,  // utils.row_to_index
    emptyOf: Value -> Value,                           // utils.get_empty_by_basic_type
    show: Value -> string,                             // str() of an attribute
    uuidText: Uuid -> string,                          // str(row.uuid)
    toInt: Token -> Option<int>)                       // int(k); None is a ValueError

  predicate Present(s: Snapshot, t: TableName, u: Uuid) {
    t in s.tables && u in s.tables[t]
  }

  function RowOf(s: Snapshot, u: Uuid): map<Column, Value> {
    if u in s.cells then s.cells[u] else map[]
  }

  /** A column of a row's attributes; a column never set reads as None. */
  function Cell(row: map<Column, Value>, c: Column): Value {
    if c in row then row[c] else Null
  }

  /** `row.__getattr__(c)` */
  function Attr(s: Snapshot, u: Uuid, c: Column): Value {
    Cell(RowOf(s, u), c)
  }

  /** Every listed row has attributes and a UUID below `next`, and no row
      belongs to two tables. */
  ghost predicate Consistent(s: Snapshot) {
    && (forall u :: u in s.cells ==> u < s.next)
    && (forall x, u :: x in s.tables && u in s.tables[x] ==> u in s.cells)
    && (forall x, y, u :: x in s.tables && y in s.tables && u in s.tables[x] && u in s.tables[y] ==> x == y)
  }

  /** `idl.tables[name]` exists for every table of the schema. */
  ghost predicate Covers(s: Snapshot, sch: Schema) {
    forall t :: t in sch.tables ==> t in s.tables
  }

  function Without(xs: seq<Uuid>, gone: set<Uuid>): (ys: seq<Uuid>)
    ensures forall v :: v in ys <==> v in xs && v !in gone
    ensures |ys| <= |xs|
  {
    if xs == [] then []
    else if xs[0] in gone then Without(xs[1..], gone)
    else [xs[0]] + Without(xs[1..], gone)
  }

  /** The store after the rows `gone` are deleted. */
  function Prune(s: Snapshot, gone: set<Uuid>): (r: Snapshot)
    ensures r.tables.Keys == s.tables.Keys && r.next == s.next
    ensures forall x :: x in s.tables ==> r.tables[x] == Without(s.tables[x], gone)
    ensures forall v :: v in r.cells <==> v in s.cells && v !in gone
    ensures forall v :: v !in gone ==> RowOf(r, v) == RowOf(s, v)
  {
    Snapshot(map x | x in s.tables :: Without(s.tables[x], gone), s.cells - gone, s.next)
  }

  lemma PruneConsistent(s: Snapshot, gone: set<Uuid>)
    requires Consistent(s)
    ensures Consistent(Prune(s, gone))
  {
  }

  /** The store after `txn.insert(idl.tables[t])`. */
  function Inserted(s: Snapshot, t: TableName): (r: Snapshot)
    requires t in s.tables
    ensures r.tables.Keys == s.tables.Keys
    ensures Consistent(s) ==> Consistent(r) && s.next !in s.cells
  {
    Snapshot(s.tables[t := s.tables[t] + [s.next]], s.cells[s.next := map[]], s.next + 1)
  }

  /** The store after `row.__setattr__(c, v)`. */
  function Assigned(s: Snapshot, u: Uuid, c: Column, v: Value): (r: Snapshot)
    requires u in s.cells
    ensures r.tables == s.tables && r.next == s.next && r.cells.Keys == s.cells.Keys
    ensures Attr(r, u, c) == v
    ensures forall w, d :: (w != u || d != c) ==> Attr(r, w, d) == Attr(s, w, d)
    ensures Consistent(s) ==> Consistent(r)
  {
    Snapshot(s.tables, s.cells[u := s.cells[u][c := v]], s.next)
  }

  /** Tables of `F` keep their rows and every one of those rows keeps its attributes. */
  ghost predicate Kept(a: Snapshot, b: Snapshot, F: set<TableName>) {
    forall x :: x in F && x in a.tables ==>
      && x in b.tables
      && b.tables[x] == a.tables[x]
      && (forall v :: v in a.tables[x] ==> RowOf(b, v) == RowOf(a, v))
  }

  /** `b` follows `a` in one transaction: no table appears or disappears,
      and a row that was deleted never comes back (new rows get new UUIDs). */
  ghost predicate Follows(a: Snapshot, b: Snapshot) {
    && b.tables.Keys == a.tables.Keys
    && a.next <= b.next
    && (forall v :: v in b.cells ==> v in a.cells || a.next <= v)
  }

  /** The tables a synchronisation of table `t` must leave alone: every
      other table whose rank is not below that of `t`. */
  ghost function Upper(sch: Schema, rank: map<TableName, nat>, t: TableName): set<TableName>
    requires t in rank
  {
    set x | x in sch.tables && x in rank && rank[x] >= rank[t] && x != t
  }

  class Idl {
    var tables: map<TableName, seq<Uuid>>
    var cells: map<Uuid, map<Column, Value>>
    var next: Uuid

    function Snap(): Snapshot
      reads this
    {
      Snapshot(tables, cells, next)
    }

    /** `txn.insert(idl.tables[t])`: a new row with a fresh UUID and no attributes set. */
    method Insert(t: TableName) returns (u: Uuid)
      requires t in tables
      modifies this
      ensures u == old(next)
      ensures Snap() == Inserted(old(Snap()), t)
    {
      u := next;
      tables := tables[t := tables[t] + [u]];
      cells := cells[u := map[]];
      next := next + 1;
    }

    /** `row.__setattr__(c, v)` */
    method SetAttr(u: Uuid, c: Column, v: Value)
      requires u in cells
      modifies this
      ensures Snap() == Assigned(old(Snap()), u, c, v)
    {
      cells := cells[u := cells[u][c := v]];
    }

    /** `row.delete()`; deleting a row that is no longer in its table raises KeyError. */
    method Remove(t: TableName, u: Uuid) returns (r: Result<()>)
      modifies this
      ensures r.Ok? <==> Present(old(Snap()), t, u)
      ensures Snap() == if r.Ok? then Prune(old(Snap()), {u}) else old(Snap())
    {
      if !(t in tables && u in tables[t]) {
        return Fail(KeyError);
      }
      tables := map x | x in tables :: Without(tables[x], {u});
      cells := cells - {u};
      r := Ok(());
    }
  }
}
