/** Per-table schema metadata that drives the write engine: parent table,
    child relationships, reference columns with their relation kind,
    index columns and config columns.  Read-only for the engine. */
module Schema {
  import opened Outcomes
  import opened Dicts

  type TableName = string
  type Column = string

  /** Relation kind of a reference column. */
  datatype Relation = Child | Parent | Plain

  /** Declared key type of a key-value-typed reference column; only
      `integer` is treated specially by the engine. */
  datatype KeyType = IntegerKey | OtherKey

  datatype RefSpec = RefSpec(
    refTable: TableName,
    relation: Relation,
    mutable: bool,
    kvType: bool,
    kvKeyType: KeyType)

  datatype ConfigSpec = ConfigSpec(mutable: bool)

  datatype TableSchema = TableSchema(
    parent: Option<TableName>,
    children: seq<Column>,                 // child relationship names
    references: Dict<Column, RefSpec>,      // reference columns, in schema order
    indexes: seq<Column>,                   // index list, possibly just "uuid"
    indexColumns: seq<Column>,              // declared index columns
    config: Dict<Column, ConfigSpec>)       // config columns, in schema order

  /** `ovs_tables`: the tables and the order in which they are iterated. */
  datatype Schema = Schema(order: seq<TableName>, tables: map<TableName, TableSchema>)

  const UuidColumn: Column := "uuid"
  const SystemTable: TableName := "System"

  /** A child relationship is forward when this table holds the reference column. */
  predicate IsForward(ts: TableSchema, c: Column) {
    Has(ts.references, c)
  }

  /** The table a child relationship leads to: the column's target for a
      forward child, the relationship's own name for a backward one. */
  function ChildTable(ts: TableSchema, c: Column): TableName {
    match Get(ts.references, c)
    case Some(spec) => spec.refTable
    case None => c
  }

  /** A plain association: a reference column that is neither a child
      relationship nor the parent pointer. */
  predicate IsLink(ts: TableSchema, c: Column) {
    match Get(ts.references, c)
    case Some(spec) => c !in ts.children && spec.relation != Parent
    case None => false
  }

  predicate Distinct<T(==)>(s: seq<T>) {
    forall i, j :: 0 <= i < j < |s| ==> s[i] != s[j]
  }

  /** The schema is closed (every table it names exists), its iteration
      order lists every table once, and `rank` strictly decreases from a
      table to each of its child tables: the containment relation is acyclic.
      As in the parsed schema, a table lists each child column and each
      config column once, and no child column or reference column is a
      config column. */
  ghost predicate WellFormed(sch: Schema, rank: map<TableName, nat>) {
    && (forall t :: t in sch.order <==> t in sch.tables)
    && Distinct(sch.order)
    && (forall t :: t in sch.tables ==> t in rank)
    && (forall t, c :: t in sch.tables && c in sch.tables[t].children ==>
          ChildTable(sch.tables[t], c) in sch.tables &&
          rank[ChildTable(sch.tables[t], c)] < rank[t])
    && (forall t, c :: t in sch.tables && Has(sch.tables[t].references, c) ==>
          Get(sch.tables[t].references, c).value.refTable in sch.tables)
    && (forall t :: t in sch.tables ==>
          Distinct(sch.tables[t].children) && Distinct(Keys(sch.tables[t].config)))
    && (forall t, c :: t in sch.tables && c in sch.tables[t].children ==> !Has(sch.tables[t].config, c))
    && (forall t, c :: t in sch.tables && Has(sch.tables[t].config, c) ==> !Has(sch.tables[t].references, c))
  }
}
