/** SQL text for a feature set's PostgreSQL table: the ordered map of
    required columns, the `CREATE TABLE` statement built from it, the additive
    `ALTER TABLE` migration and the parameterised `INSERT`. The table name is
    an input: the function that derives it from a specification is not part of
    this model. */
module PostgresqlTemplater {
  import opened Wrappers
  import opened Strings
  import opened OrderedMap
  import opened FeastTypes
  import TypeUtil = PostgresqlTypeUtil

  /** A column type as stored in the map: `None` is the Java `null` that an
      unmapped value type leaves there. */
  type ColumnType = Option<string>

  /** `String.format("%s", t)`: a `null` type prints as "null". */
  function TypeText(t: ColumnType): string
  {
    if t.Some? then t.value else "null"
  }

  function EntityPuts(es: seq<EntitySpec>): (r: seq<(string, ColumnType)>)
    ensures |r| == |es|
    ensures forall i :: 0 <= i < |es| ==> r[i] == (es[i].name, TypeUtil.ToSqlType(es[i].valueType))
  {
    seq(|es|, i requires 0 <= i < |es| => (es[i].name, TypeUtil.ToSqlType(es[i].valueType)))
  }

  function FeaturePuts(fs: seq<FeatureSpec>): (r: seq<(string, ColumnType)>)
    ensures |r| == |fs|
    ensures forall i :: 0 <= i < |fs| ==> r[i] == (fs[i].name, TypeUtil.ToSqlType(fs[i].valueType))
  {
    seq(|fs|, i requires 0 <= i < |fs| => (fs[i].name, TypeUtil.ToSqlType(fs[i].valueType)))
  }

  const Timestamps: seq<(string, ColumnType)> :=
    [("event_timestamp", Some("TIMESTAMP")), ("created_timestamp", Some("TIMESTAMP"))]

  const JobColumns: seq<(string, ColumnType)> :=
    [("ingestion_id", Some("VARCHAR")), ("job_id", Some("VARCHAR"))]

  /** The `put` calls of the required-column map, in call order. */
  function ColumnPuts(spec: FeatureSetSpec): seq<(string, ColumnType)>
  {
    Timestamps + EntityPuts(spec.entities) + JobColumns + FeaturePuts(spec.features)
  }

  /** The required-column map: the `put` calls replayed into an empty
      LinkedHashMap (see `RequiredColumnsShape`). */
  function RequiredColumns(spec: FeatureSetSpec): seq<(string, ColumnType)>
  {
    PutAll([], ColumnPuts(spec))
  }

  /** Each required name appears once, at the position of its first `put`,
      with the type of its last `put`; every entry comes from a `put`. When no
      name repeats, the map is exactly the two timestamps, the entities, the
      two job columns and the features, in that order. */
  lemma RequiredColumnsShape(spec: FeatureSetSpec)
    ensures FirstOccurrenceOrder(Keys(ColumnPuts(spec)), Keys(RequiredColumns(spec)))
    ensures forall k :: Get(RequiredColumns(spec), k) == LastValue(ColumnPuts(spec), k)
    ensures forall e :: e in RequiredColumns(spec) ==> e in ColumnPuts(spec)
    ensures DistinctKeys(ColumnPuts(spec)) ==> RequiredColumns(spec) == ColumnPuts(spec)
  {
    PutAllKeys(ColumnPuts(spec));
    PutAllEntries(ColumnPuts(spec));
    forall k ensures Get(PutAll([], ColumnPuts(spec)), k) == LastValue(ColumnPuts(spec), k) {
      PutAllLastValue(ColumnPuts(spec), k);
    }
    if DistinctKeys(ColumnPuts(spec)) {
      PutAllDistinct(ColumnPuts(spec));
    }
  }

  function ColumnDef(e: (string, ColumnType)): string
  {
    e.0 + " " + TypeText(e.1)
  }

  function ColumnDefs(m: seq<(string, ColumnType)>): (r: seq<string>)
    ensures |r| == |m|
    ensures forall i :: 0 <= i < |m| ==> r[i] == ColumnDef(m[i])
  {
    seq(|m|, i requires 0 <= i < |m| => ColumnDef(m[i]))
  }

  const CreatePrefix := "CREATE TABLE IF NOT EXISTS "

  /** The `CREATE TABLE IF NOT EXISTS %s (%s);` template. */
  function CreationText(table: string, body: string): string
  {
    CreatePrefix + table + " (" + body + ");"
  }

  function TableCreationSql(table: string, spec: FeatureSetSpec): string
  {
    CreationText(table, Join(ColumnDefs(RequiredColumns(spec)), ", "))
  }

  /** The columns that are required but not among `present`, in required
      order. */
  function Missing(m: seq<(string, ColumnType)>, present: set<string>): (r: seq<(string, ColumnType)>)
    ensures forall e :: e in r <==> e in m && e.0 !in present
    ensures |r| <= |m|
  {
    if |m| == 0 then []
    else
      assert m == [m[0]] + m[1..];
      (if m[0].0 in present then [] else [m[0]]) + Missing(m[1..], present)
  }

  function AddColumnClause(e: (string, ColumnType)): string
  {
    "ADD COLUMN " + e.0 + " " + TypeText(e.1)
  }

  function AddColumnClauses(m: seq<(string, ColumnType)>): (r: seq<string>)
    ensures |r| == |m|
    ensures forall i :: 0 <= i < |m| ==> r[i] == AddColumnClause(m[i])
  {
    seq(|m|, i requires 0 <= i < |m| => AddColumnClause(m[i]))
  }

  const AlterPrefix := "ALTER TABLE "

  /** The `ALTER TABLE %s %s` template. */
  function MigrationText(table: string, body: string): string
  {
    AlterPrefix + table + " " + body
  }

  /** Live column names that the specification does not require. */
  function UnexpectedNames(existing: set<string>, required: seq<(string, ColumnType)>): set<string>
  {
    set k | k in existing && k !in Keys(required)
  }

  /** Every required column name is live. */
  predicate Covers(existing: set<string>, required: seq<(string, ColumnType)>)
  {
    forall i :: 0 <= i < |required| ==> required[i].0 in existing
  }

  lemma MissingEmpty(required: seq<(string, ColumnType)>, present: set<string>)
    ensures |Missing(required, present)| == 0 <==> Covers(present, required)
  {
    if !Covers(present, required) {
      var i :| 0 <= i < |required| && required[i].0 !in present;
      assert required[i] in required;
      assert required[i] in Missing(required, present);
    }
  }

  /** The migration text for live column names `existing`. */
  function Migration(table: string, required: seq<(string, ColumnType)>, existing: set<string>): (r: Result<string, Error>)
    ensures r.Err? <==> UnexpectedNames(existing, required) != {}
    ensures r.Err? ==> r.error == UnexpectedColumns(table, UnexpectedNames(existing, required))
    ensures r == Ok("") <==> UnexpectedNames(existing, required) == {} && Covers(existing, required)
  {
    var unexpected := UnexpectedNames(existing, required);
    if unexpected != {} then Err(UnexpectedColumns(table, unexpected))
    else
      var missing := Missing(required, existing);
      MissingEmpty(required, existing);
      if |missing| == 0 then Ok("")
      else
        var sql := MigrationText(table, Join(AddColumnClauses(missing), ", "));
        assert sql[0] == 'A';
        Ok(sql)
  }

  /** The additive migration for a table whose live columns are `existing`
      (name to type). Only the names are consulted. A live column that is not
      required is refused; when every required column is live the result is
      the empty statement; otherwise one `ADD COLUMN` per missing column, in
      required order (see `MigrationParses`). */
  function TableMigrationSql(table: string, spec: FeatureSetSpec, existing: map<string, string>): (r: Result<string, Error>)
    ensures r.Err? <==> UnexpectedNames(existing.Keys, RequiredColumns(spec)) != {}
    ensures r.Err? ==> r.error == UnexpectedColumns(table, UnexpectedNames(existing.Keys, RequiredColumns(spec)))
    ensures r == Ok("") <==>
      UnexpectedNames(existing.Keys, RequiredColumns(spec)) == {} && Covers(existing.Keys, RequiredColumns(spec))
  {
    Migration(table, RequiredColumns(spec), existing.Keys)
  }

  const InsertPrefix := "INSERT INTO "

  /** The `INSERT INTO %s (%s) VALUES (%s)` template. */
  function InsertText(table: string, columns: string, values: string): string
  {
    InsertPrefix + table + " (" + columns + ") VALUES (" + values + ")"
  }

  function FeatureRowInsertSql(table: string, spec: FeatureSetSpec): string
  {
    var required := RequiredColumns(spec);
    InsertText(table, Join(Keys(required), ","), Join(Repeat("?", |required|), ","))
  }
}

/** Reading the generated SQL text back, and the facts that connect the
    generated statements to the required-column map: creation and insert
    statements list exactly the required columns, the migration adds exactly
    the missing ones, and a migrated or freshly created table needs no further
    migration. Names are assumed to be plain identifiers (no blank, comma or
    parenthesis); the source does no quoting, so other names make the text
    ambiguous. */
module PostgresqlTemplaterProperties {
  import opened Wrappers
  import opened Strings
  import opened OrderedMap
  import opened FeastTypes
  import TypeUtil = PostgresqlTypeUtil
  import opened PostgresqlTemplater

  predicate PlainName(s: string)
  {
    ' ' !in s && ',' !in s && '(' !in s && ')' !in s
  }

  predicate PlainNames(spec: FeatureSetSpec)
  {
    && (forall i :: 0 <= i < |spec.entities| ==> PlainName(spec.entities[i].name))
    && (forall i :: 0 <= i < |spec.features| ==> PlainName(spec.features[i].name))
  }

  /** Column name and type text, as the SQL shows them. */
  function Rendered(m: seq<(string, ColumnType)>): (r: seq<(string, string)>)
    ensures |r| == |m|
    ensures forall i :: 0 <= i < |m| ==> r[i] == (m[i].0, TypeText(m[i].1))
  {
    seq(|m|, i requires 0 <= i < |m| => (m[i].0, TypeText(m[i].1)))
  }

  function ParseEach(ds: seq<string>, f: string -> Option<(string, string)>): (r: Option<seq<(string, string)>>)
    ensures r.Some? ==> |r.value| == |ds|
  {
    if |ds| == 0 then Some([])
    else
      var head :- f(ds[0]);
      var tail :- ParseEach(ds[1..], f);
      Some([head] + tail)
  }

  function ParseColumnDef(d: string): Option<(string, string)>
  {
    CutAt(d, ' ')
  }

  function ParseAddColumn(c: string): Option<(string, string)>
  {
    var d :- StripPrefix(c, "ADD COLUMN ");
    CutAt(d, ' ')
  }

  /** Reads `CREATE TABLE IF NOT EXISTS t (body);` back into `t` and `body`. */
  function ParseCreationText(sql: string): Option<(string, string)>
  {
    var rest :- StripPrefix(sql, CreatePrefix);
    var p :- CutAt(rest, ' ');
    var inner :- StripPrefix(p.1, "(");
    var body :- StripSuffix(inner, ");");
    Some((p.0, body))
  }

  /** Reads a creation statement back into the table name and the column
      definitions. */
  function ParseTableCreation(sql: string): Option<(string, seq<(string, string)>)>
  {
    var t :- ParseCreationText(sql);
    var defs :- ParseEach(Split(t.1, ", "), ParseColumnDef);
    Some((t.0, defs))
  }

  /** Reads `ALTER TABLE t body` back into `t` and `body`. */
  function ParseMigrationText(sql: string): Option<(string, string)>
  {
    var rest :- StripPrefix(sql, AlterPrefix);
    CutAt(rest, ' ')
  }

  /** Reads `ALTER TABLE t ADD COLUMN c1 ty1, ADD COLUMN c2 ty2, ...` back. */
  function ParseMigration(sql: string): Option<(string, seq<(string, string)>)>
  {
    var t :- ParseMigrationText(sql);
    var defs :- ParseEach(Split(t.1, ", "), ParseAddColumn);
    Some((t.0, defs))
  }

  /** Reads `INSERT INTO t (cols) VALUES (vals)` back into its three parts. */
  function ParseInsertText(sql: string): Option<(string, string, string)>
  {
    var rest :- StripPrefix(sql, InsertPrefix);
    var p :- CutAt(rest, ' ');
    var a :- StripPrefix(p.1, "(");
    var q :- CutAt(a, ')');
    var b :- StripPrefix(q.1, " VALUES (");
    var vals :- StripSuffix(b, ")");
    Some((p.0, q.0, vals))
  }

  /** Reads an insert statement back into the table, the column list and the
      placeholder list. */
  function ParseInsert(sql: string): Option<(string, seq<string>, seq<string>)>
  {
    var t :- ParseInsertText(sql);
    Some((t.0, Split(t.1, ","), Split(t.2, ",")))
  }

  // ---- The templates read back ----

  lemma CreationTextParses(table: string, body: string)
    requires ' ' !in table
    ensures ParseCreationText(CreationText(table, body)) == Some((table, body))
  {
    var tail := "(" + (body + ");");
    assert CreationText(table, body) == CreatePrefix + (table + [' '] + tail);
    StripPrefixConcat(CreatePrefix, table + [' '] + tail);
    CutAtJoin(table, ' ', tail);
    StripPrefixConcat("(", body + ");");
    StripSuffixConcat(body, ");");
  }

  lemma MigrationTextParses(table: string, body: string)
    requires ' ' !in table
    ensures ParseMigrationText(MigrationText(table, body)) == Some((table, body))
  {
    assert MigrationText(table, body) == AlterPrefix + (table + [' '] + body);
    StripPrefixConcat(AlterPrefix, table + [' '] + body);
    CutAtJoin(table, ' ', body);
  }

  lemma InsertTextParses(table: string, columns: string, values: string)
    requires ' ' !in table && ')' !in columns
    ensures ParseInsertText(InsertText(table, columns, values)) == Some((table, columns, values))
  {
    var v := " VALUES (" + (values + ")");
    var a := columns + [')'] + v;
    assert InsertText(table, columns, values) == InsertPrefix + (table + [' '] + ("(" + a));
    StripPrefixConcat(InsertPrefix, table + [' '] + ("(" + a));
    CutAtJoin(table, ' ', "(" + a);
    StripPrefixConcat("(", a);
    CutAtJoin(columns, ')', v);
    StripPrefixConcat(" VALUES (", values + ")");
    StripSuffixConcat(values, ")");
  }

  // ---- Facts about the column map ----

  /** A column whose definition reads back unambiguously. */
  predicate PlainEntry(e: (string, ColumnType))
  {
    PlainName(e.0) && ',' !in TypeText(e.1)
  }

  lemma SqlTypeText(t: ValueType)
    ensures ',' !in TypeText(TypeUtil.ToSqlType(t))
  {
  }

  lemma PutsPlain(spec: FeatureSetSpec)
    requires PlainNames(spec)
    ensures forall e :: e in ColumnPuts(spec) ==> PlainEntry(e)
  {
    var ents := EntityPuts(spec.entities);
    var feats := FeaturePuts(spec.features);
    forall e | e in ents ensures PlainEntry(e) {
      var i :| 0 <= i < |ents| && ents[i] == e;
      SqlTypeText(spec.entities[i].valueType);
    }
    forall e | e in feats ensures PlainEntry(e) {
      var i :| 0 <= i < |feats| && feats[i] == e;
      SqlTypeText(spec.features[i].valueType);
    }
    FixedColumnsPlain();
  }

  lemma FixedColumnsPlain()
    ensures forall e :: e in Timestamps + JobColumns ==> PlainEntry(e)
  {
  }

  /** Every required column has a plain name and a type text without commas. */
  lemma RequiredEntriesPlain(spec: FeatureSetSpec)
    requires PlainNames(spec)
    ensures forall e :: e in RequiredColumns(spec) ==> PlainEntry(e)
  {
    PutsPlain(spec);
    PutAllEntries(ColumnPuts(spec));
  }

  lemma RequiredNonEmpty(spec: FeatureSetSpec)
    ensures |RequiredColumns(spec)| > 0
  {
    PutAllKeys(ColumnPuts(spec));
    assert Keys(ColumnPuts(spec))[0] == "event_timestamp";
    assert "event_timestamp" in Keys(RequiredColumns(spec));
  }

  lemma DefParses(e: (string, ColumnType))
    requires PlainName(e.0)
    ensures ParseColumnDef(ColumnDef(e)) == Some((e.0, TypeText(e.1)))
  {
    CutAtJoin(e.0, ' ', TypeText(e.1));
  }

  lemma ClauseParses(e: (string, ColumnType))
    requires PlainName(e.0)
    ensures ParseAddColumn(AddColumnClause(e)) == Some((e.0, TypeText(e.1)))
  {
    var d := e.0 + [' '] + TypeText(e.1);
    assert AddColumnClause(e) == "ADD COLUMN " + d;
    StripPrefixConcat("ADD COLUMN ", d);
    CutAtJoin(e.0, ' ', TypeText(e.1));
  }

  /** `ParseEach` succeeds on a sequence whose head and tail both parse. */
  lemma ParseEachCons(ds: seq<string>, f: string -> Option<(string, string)>, head: (string, string),
                      tail: seq<(string, string)>)
    requires |ds| > 0 && f(ds[0]) == Some(head) && ParseEach(ds[1..], f) == Some(tail)
    ensures ParseEach(ds, f) == Some([head] + tail)
  {
  }

  lemma RenderedCons(m: seq<(string, ColumnType)>)
    requires |m| > 0
    ensures Rendered(m) == [(m[0].0, TypeText(m[0].1))] + Rendered(m[1..])
  {
    assert Rendered(m)[1..] == Rendered(m[1..]);
    assert Rendered(m) == [Rendered(m)[0]] + Rendered(m)[1..];
  }

  lemma {:induction false} ParseEachDefs(m: seq<(string, ColumnType)>)
    requires forall e :: e in m ==> PlainName(e.0)
    ensures ParseEach(ColumnDefs(m), ParseColumnDef) == Some(Rendered(m))
  {
    if |m| > 0 {
      var ds := ColumnDefs(m);
      DefParses(m[0]);
      assert ds[1..] == ColumnDefs(m[1..]);
      ParseEachDefs(m[1..]);
      ParseEachCons(ds, ParseColumnDef, (m[0].0, TypeText(m[0].1)), Rendered(m[1..]));
      RenderedCons(m);
    }
  }

  lemma {:induction false} ParseEachClauses(m: seq<(string, ColumnType)>)
    requires forall e :: e in m ==> PlainName(e.0)
    ensures ParseEach(AddColumnClauses(m), ParseAddColumn) == Some(Rendered(m))
  {
    if |m| > 0 {
      var cs := AddColumnClauses(m);
      ClauseParses(m[0]);
      assert cs[1..] == AddColumnClauses(m[1..]);
      ParseEachClauses(m[1..]);
      ParseEachCons(cs, ParseAddColumn, (m[0].0, TypeText(m[0].1)), Rendered(m[1..]));
      RenderedCons(m);
    }
  }


  /** The definitions of plain columns join into a body that splits back. */
  lemma DefsSplit(m: seq<(string, ColumnType)>)
    requires |m| > 0 && forall e :: e in m ==> PlainEntry(e)
    ensures Split(Join(ColumnDefs(m), ", "), ", ") == ColumnDefs(m)
  {
    var defs := ColumnDefs(m);
    forall i | 0 <= i < |defs| ensures ", "[0] !in defs[i] {
      assert PlainEntry(m[i]);
    }
    SplitJoin(defs, ", ");
  }

  lemma ClausesSplit(m: seq<(string, ColumnType)>)
    requires |m| > 0 && forall e :: e in m ==> PlainEntry(e)
    ensures Split(Join(AddColumnClauses(m), ", "), ", ") == AddColumnClauses(m)
  {
    var cs := AddColumnClauses(m);
    forall i | 0 <= i < |cs| ensures ", "[0] !in cs[i] {
      assert PlainEntry(m[i]);
      assert cs[i] == "ADD COLUMN " + m[i].0 + " " + TypeText(m[i].1);
    }
    SplitJoin(cs, ", ");
  }

  /** The creation statement lists every required column once, with its
      type, in required order. */
  lemma CreationParses(table: string, spec: FeatureSetSpec)
    requires ' ' !in table && PlainNames(spec)
    ensures ParseTableCreation(TableCreationSql(table, spec)) == Some((table, Rendered(RequiredColumns(spec))))
  {
    var m := RequiredColumns(spec);
    RequiredEntriesPlain(spec);
    RequiredNonEmpty(spec);
    CreationTextParses(table, Join(ColumnDefs(m), ", "));
    DefsSplit(m);
    ParseEachDefs(m);
  }

  /** A non-empty migration adds exactly the missing columns, in required
      order, and nothing else. */
  lemma MigrationParses(table: string, spec: FeatureSetSpec, existing: map<string, string>)
    requires ' ' !in table && PlainNames(spec)
    requires TableMigrationSql(table, spec, existing).Ok?
    requires TableMigrationSql(table, spec, existing).value != ""
    ensures ParseMigration(TableMigrationSql(table, spec, existing).value)
         == Some((table, Rendered(Missing(RequiredColumns(spec), existing.Keys))))
  {
    var m := RequiredColumns(spec);
    var missing := Missing(m, existing.Keys);
    RequiredEntriesPlain(spec);
    MissingEmpty(m, existing.Keys);
    MigrationTextParses(table, Join(AddColumnClauses(missing), ", "));
    ClausesSplit(missing);
    ParseEachClauses(missing);
  }

  /** The insert statement names every required column, in required order,
      with one placeholder per column. */
  lemma InsertParses(table: string, spec: FeatureSetSpec)
    requires ' ' !in table && PlainNames(spec)
    ensures ParseInsert(FeatureRowInsertSql(table, spec))
         == Some((table, Keys(RequiredColumns(spec)), Repeat("?", |RequiredColumns(spec)|)))
  {
    var m := RequiredColumns(spec);
    var ks := Keys(m);
    RequiredEntriesPlain(spec);
    RequiredNonEmpty(spec);
    forall i | 0 <= i < |ks| ensures ')' !in ks[i] && ',' !in ks[i] {
      assert PlainEntry(m[i]);
    }
    JoinAvoids(ks, ",", ')');
    InsertTextParses(table, Join(ks, ","), Join(Repeat("?", |m|), ","));
    SplitJoin(ks, ",");
    SplitJoin(Repeat("?", |m|), ",");
  }

  /** The live columns after a migration: the old ones plus the added ones. */
  function AfterMigration(existing: map<string, string>, added: seq<(string, ColumnType)>): (r: map<string, string>)
    ensures forall k :: k in r <==> k in existing || k in Keys(added)
  {
    if |added| == 0 then existing
    else AfterMigration(existing, added[1..])[added[0].0 := TypeText(added[0].1)]
  }

  /** The missing columns are the required names that are not live. */
  lemma MissingNames(m: seq<(string, ColumnType)>, present: set<string>, k: string)
    ensures k in Keys(Missing(m, present)) <==> k in Keys(m) && k !in present
  {
    var missing := Missing(m, present);
    if k in Keys(missing) {
      var i :| 0 <= i < |missing| && missing[i].0 == k;
      assert missing[i] in missing;
      var j :| 0 <= j < |m| && m[j] == missing[i];
      assert Keys(m)[j] == k;
    }
    if k in Keys(m) && k !in present {
      var j :| 0 <= j < |m| && m[j].0 == k;
      assert m[j] in missing;
      var i :| 0 <= i < |missing| && missing[i] == m[j];
      assert Keys(missing)[i] == k;
    }
  }

  /** Migration is idempotent: once the missing columns are added, migrating
      again yields the empty statement. */
  lemma MigrationIdempotent(table: string, spec: FeatureSetSpec, existing: map<string, string>)
    requires TableMigrationSql(table, spec, existing).Ok?
    ensures TableMigrationSql(table, spec,
              AfterMigration(existing, Missing(RequiredColumns(spec), existing.Keys))) == Ok("")
  {
    var m := RequiredColumns(spec);
    var missing := Missing(m, existing.Keys);
    var after := AfterMigration(existing, missing);
    assert UnexpectedNames(existing.Keys, m) == {};
    forall k | k in after.Keys ensures k in Keys(m) {
      MissingNames(m, existing.Keys, k);
      if k !in existing.Keys {
        assert k in Keys(missing);
      } else {
        assert k !in UnexpectedNames(existing.Keys, m);
      }
    }
    assert UnexpectedNames(after.Keys, m) == {};
    forall i | 0 <= i < |m| ensures m[i].0 in after.Keys {
      MissingNames(m, existing.Keys, m[i].0);
      assert Keys(m)[i] == m[i].0;
    }
    assert Covers(after.Keys, m);
  }

  /** Only the live column NAMES matter: two tables with the same column
      names, whatever their types, get the same migration. */
  lemma MigrationTypeBlind(table: string, spec: FeatureSetSpec, e1: map<string, string>, e2: map<string, string>)
    requires e1.Keys == e2.Keys
    ensures TableMigrationSql(table, spec, e1) == TableMigrationSql(table, spec, e2)
  {
  }

  /** A table whose live column names are exactly the required ones needs no
      migration, whatever the live types are. */
  lemma ExactColumnsNeedNoMigration(table: string, spec: FeatureSetSpec, existing: map<string, string>)
    requires existing.Keys == set i | 0 <= i < |RequiredColumns(spec)| :: RequiredColumns(spec)[i].0
    ensures TableMigrationSql(table, spec, existing) == Ok("")
  {
    var m := RequiredColumns(spec);
    forall k | k in existing.Keys ensures k in Keys(m) {
      var i :| 0 <= i < |m| && m[i].0 == k;
      assert Keys(m)[i] == k;
    }
    assert UnexpectedNames(existing.Keys, m) == {};
  }
}
