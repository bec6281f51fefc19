/** Values of the engine: index tokens, the desired-state document and the
    attribute values stored in rows. */
module Values {
  import opened Dicts
  import opened Schema

  /** A store-assigned row identifier. */
  type Uuid = nat

  /** An index token: a row identifier (`uuid.UUID`) or an escaped
      composite key string. */
  datatype Token = UuidToken(uuid: Uuid) | TextToken(text: string)

  datatype Atom = Str(s: string) | Int(i: int) | Bool(b: bool)

  /** The desired-state document.  A table's data is `Rows` (index token to
      row data); row data is a `Record` (column to value); a plain reference
      column holds `Tokens`. */
  datatype Doc =
    | Scalar(atom: Atom)
    | Tokens(list: seq<Token>)
    | Rows(entries: Dict<Token, Doc>)
    | Record(fields: Dict<Column, Doc>)

  /** Keys of a key-value-typed reference column. */
  datatype MapKey = IntKey(n: int) | TokenKey(token: Token)

  /** An attribute value of a row: None, a config value as written from the
      document, a reference, a list of references or a key-value map of them. */
  datatype Value =
    | Null
    | Data(doc: Doc)
    | Ref(row: Uuid)
    | RefList(items: seq<Value>)
    | RefMap(pairs: Dict<MapKey, Value>)
}
