/** The relational database seen from the connector: an oracle that answers
    connection attempts, table lookups, column listings and bound queries, and
    says which statements fail. The connector's effects are the calls it makes,
    recorded in order. */
module JdbcDatabase {
  import opened Wrappers
  import opened Strings
  import opened OrderedMap
  import opened FeastTypes

  /** The two `DriverManager.getConnection` forms the connector uses. */
  datatype Connect =
    | WithCredentials(url: string, user: string, password: string)
    | UrlOnly(url: string)

  /** One call made on the database. */
  datatype DbCall =
    | Open(conn: Connect)
    | LookupTable(table: string)
    | Query(sql: string)
    | Execute(sql: string)

  /** One row of the timestamp-bounds result set; each bound may be SQL NULL. */
  datatype BoundsRow = BoundsRow(min: Option<Timestamp>, max: Option<Timestamp>)

  /** What the database answers:
      - `accepts`: whether the driver loads and the connection opens;
      - `lookupFails` / `tables`: the metadata lookup of a table name;
      - `fails`: whether running a statement raises `SQLException`;
      - `columns`: name and type name of each column of a table, in order;
      - `boundsRows`: the rows a bounds query returns. */
  datatype Database = Database(
    accepts: Connect -> bool,
    lookupFails: string -> bool,
    tables: set<string>,
    fails: string -> bool,
    columns: string -> seq<(string, string)>,
    boundsRows: string -> seq<BoundsRow>)

  const ColumnsPrefix := "SELECT * FROM "
  const ColumnsSuffix := " WHERE 1 = 0"

  /** The zero-row query whose metadata lists a table's columns. */
  function ColumnsQuery(table: string): string
  {
    ColumnsPrefix + table + ColumnsSuffix
  }

  lemma ColumnsQueryParses(table: string)
    ensures StripPrefix(ColumnsQuery(table), ColumnsPrefix).Some?
    ensures StripSuffix(StripPrefix(ColumnsQuery(table), ColumnsPrefix).value, ColumnsSuffix) == Some(table)
  {
    assert ColumnsQuery(table) == ColumnsPrefix + (table + ColumnsSuffix);
    StripPrefixConcat(ColumnsPrefix, table + ColumnsSuffix);
    StripSuffixConcat(table, ColumnsSuffix);
  }

  /** The `HashMap` filled by `put(name, typeName)` for each column in turn:
      every listed name is a key, bound to the type of its last column. */
  function ColumnMap(cols: seq<(string, string)>): (m: map<string, string>)
    ensures forall k :: k in m <==> k in Keys(cols)
    ensures forall k :: k in m ==> LastValue(cols, k) == Some(m[k])
  {
    if |cols| == 0 then map[]
    else
      var init := cols[..|cols| - 1];
      var last := cols[|cols| - 1];
      KeysAppend(init, last);
      assert init + [last] == cols;
      ColumnMap(init)[last.0 := last.1]
  }
}
