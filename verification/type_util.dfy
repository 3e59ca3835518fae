/** Per-dialect tables from the value-type enum to a SQL column type name.
    Each table is a static map filled once and only read afterwards, so a
    lookup depends on the enum value alone; a type outside the table yields
    `None` (Java `null`), not an error. */
module PostgresqlTypeUtil {
  import opened Wrappers
  import opened FeastTypes

  const ValueTypeToSqlType: map<ValueType, string> := map[
    Bytes := "TEXT", String := "TEXT", Int32 := "INTEGER", Int64 := "BIGINT",
    Double := "DOUBLE PRECISION", Float := "FLOAT", Bool := "BOOLEAN",
    BytesList := "TEXT", StringList := "TEXT", Int32List := "TEXT", Int64List := "TEXT",
    DoubleList := "TEXT", FloatList := "TEXT", BoolList := "TEXT"]

  function ToSqlType(t: ValueType): (r: Option<string>)
    ensures r.Some? <==> t.IsScalar() || t.IsList()
    ensures t.IsList() ==> r == Some("TEXT")
    ensures t == Bytes ==> r == Some("TEXT")
    ensures t == String ==> r == Some("TEXT")
    ensures t == Int32 ==> r == Some("INTEGER")
    ensures t == Int64 ==> r == Some("BIGINT")
    ensures t == Double ==> r == Some("DOUBLE PRECISION")
    ensures t == Float ==> r == Some("FLOAT")
    ensures t == Bool ==> r == Some("BOOLEAN")
  {
    if t in ValueTypeToSqlType then Some(ValueTypeToSqlType[t]) else None
  }
}

module SqliteTypeUtil {
  import opened Wrappers
  import opened FeastTypes

  const ValueTypeToSqlType: map<ValueType, string> := map[
    Bytes := "BLOB", String := "TEXT", Int32 := "INTEGER", Int64 := "INTEGER",
    Double := "FLOAT", Float := "FLOAT", Bool := "BOOLEAN",
    BytesList := "BLOB", StringList := "BLOB", Int32List := "BLOB", Int64List := "BLOB",
    DoubleList := "BLOB", FloatList := "BLOB", BoolList := "BLOB"]

  function ToSqlType(t: ValueType): (r: Option<string>)
    ensures r.Some? <==> t.IsScalar() || t.IsList()
    ensures t.IsList() ==> r == Some("BLOB")
    ensures t == Bytes ==> r == Some("BLOB")
    ensures t == String ==> r == Some("TEXT")
    ensures t == Int32 ==> r == Some("INTEGER")
    ensures t == Int64 ==> r == Some("INTEGER")
    ensures t == Double ==> r == Some("FLOAT")
    ensures t == Float ==> r == Some("FLOAT")
    ensures t == Bool ==> r == Some("BOOLEAN")
  {
    if t in ValueTypeToSqlType then Some(ValueTypeToSqlType[t]) else None
  }

  /** The SQLite table loses information: INT32 and INT64 share a column
      type, and so do DOUBLE and FLOAT. */
  lemma NotInjective()
    ensures ToSqlType(Int32) == ToSqlType(Int64) && Int32 != Int64
    ensures ToSqlType(Double) == ToSqlType(Float) && Double != Float
  {
  }
}
