/** The JDBC feature sink: the dialect chosen from the configured driver
    class, the `project/name` reference of a feature set, the map of
    subscribed feature sets, and `prepareWrite`, which registers a feature set
    and then either creates its table or migrates the live one. */
module FeatureSink {
  import opened Wrappers
  import opened Strings
  import opened FeastTypes
  import opened JdbcDatabase
  import Pg = PostgresqlTemplater

  /** `StoreProto.Store.JdbcConfig`. */
  datatype JdbcConfig = JdbcConfig(
    url: string,
    className: string,
    username: string,
    password: string,
    batchSize: int)

  datatype Dialect = Sqlite | Postgresql

  const SqliteDriver := "org.sqlite.JDBC"
  const PostgresqlDriver := "org.postgresql.Driver"

  function DriverClass(d: Dialect): string
  {
    match d
    case Sqlite => SqliteDriver
    case Postgresql => PostgresqlDriver
  }

  /** `getJdbcTemplaterForClass`: exactly the two known driver classes select
      a dialect; any other class name fails construction. */
  function DialectForClass(className: string): (r: Result<Dialect, Error>)
    ensures r.Ok? <==> className == SqliteDriver || className == PostgresqlDriver
    ensures r.Ok? ==> DriverClass(r.value) == className
    ensures r.Err? ==> r.error == UnsupportedDriverClass
  {
    if className == SqliteDriver then Ok(Sqlite)
    else if className == PostgresqlDriver then Ok(Postgresql)
    else Err(UnsupportedDriverClass)
  }

  lemma DialectRoundTrip(d: Dialect)
    ensures DialectForClass(DriverClass(d)) == Ok(d)
  {
  }

  /** The statement text a dialect's templater produces for a feature set. */
  datatype Templater = Templater(
    dialect: Dialect,
    tableName: FeatureSetSpec -> string,
    creationSql: FeatureSetSpec -> string,
    migrationSql: (FeatureSetSpec, map<string, string>) -> Result<string, Error>,
    insertSql: FeatureSetSpec -> string)

  /** The PostgreSQL templater over a table-naming function. */
  function PostgresqlTemplaterOf(tableName: FeatureSetSpec -> string): Templater
  {
    Templater(
      Postgresql,
      tableName,
      spec => Pg.TableCreationSql(tableName(spec), spec),
      (spec, existing) => Pg.TableMigrationSql(tableName(spec), spec, existing),
      spec => Pg.FeatureRowInsertSql(tableName(spec), spec))
  }

  datatype Sink = Sink(config: JdbcConfig, templater: Templater, subscribed: map<string, FeatureSet>)

  /** The sink's constructor. The SQLite templater is supplied as `sqlite`. */
  function NewSink(config: JdbcConfig, tableName: FeatureSetSpec -> string, sqlite: Templater): (r: Result<Sink, Error>)
    requires sqlite.dialect == Sqlite
    ensures r.Ok? <==> DialectForClass(config.className).Ok?
    ensures r.Err? ==> r.error == UnsupportedDriverClass
    ensures r.Ok? ==> DriverClass(r.value.templater.dialect) == config.className
    ensures r.Ok? ==> r.value.config == config && r.value.subscribed == map[]
  {
    var d :- DialectForClass(config.className);
    Ok(Sink(config, if d == Sqlite then sqlite else PostgresqlTemplaterOf(tableName), map[]))
  }

  /** `getFeatureSetRef`: `project/name`. */
  function FeatureSetRef(spec: FeatureSetSpec): string
  {
    spec.project + "/" + spec.name
  }

  function ParseFeatureSetRef(ref: string): Option<(string, string)>
  {
    CutAt(ref, '/')
  }

  /** A reference gives back its project and name when the project has no
      '/'. */
  lemma FeatureSetRefParses(spec: FeatureSetSpec)
    requires '/' !in spec.project
    ensures ParseFeatureSetRef(FeatureSetRef(spec)) == Some((spec.project, spec.name))
  {
    CutAtJoin(spec.project, '/', spec.name);
  }

  /** Without that restriction two feature sets can share one reference. */
  lemma FeatureSetRefAmbiguous(entities: seq<EntitySpec>, features: seq<FeatureSpec>, maxAge: Duration)
    ensures var a := FeatureSetSpec("a/b", "c", entities, features, maxAge);
            var b := FeatureSetSpec("a", "b/c", entities, features, maxAge);
            a != b && FeatureSetRef(a) == FeatureSetRef(b)
  {
    assert "a/b" + "/" + "c" == "a" + "/" + "b/c";
  }

  /** `subscribedFeatureSets.put(ref, featureSet)`: the feature set is found
      under its reference and every other entry is untouched. */
  function Register(subscribed: map<string, FeatureSet>, fs: FeatureSet): (r: map<string, FeatureSet>)
    ensures r.Keys == subscribed.Keys + {FeatureSetRef(fs.spec)}
    ensures r[FeatureSetRef(fs.spec)] == fs
    ensures forall k :: k in subscribed && k != FeatureSetRef(fs.spec) ==> r[k] == subscribed[k]
  {
    subscribed[FeatureSetRef(fs.spec) := fs]
  }

  /** Re-registering a reference keeps only the later feature set. */
  lemma RegisterOverwrites(subscribed: map<string, FeatureSet>, fs: FeatureSet, fs': FeatureSet)
    requires FeatureSetRef(fs.spec) == FeatureSetRef(fs'.spec)
    ensures Register(Register(subscribed, fs), fs') == Register(subscribed, fs')
  {
  }

  /** `connect`: the credentialed form exactly when a user name is set. */
  function ConnectFor(config: JdbcConfig): (c: Connect)
    ensures c.url == config.url
    ensures c.WithCredentials? <==> config.username != ""
    ensures c.WithCredentials? ==> c.user == config.username && c.password == config.password
  {
    if config.username != "" then WithCredentials(config.url, config.username, config.password)
    else UrlOnly(config.url)
  }

  /** What `prepareWrite` did to the table. */
  datatype Outcome = Created | Migrated(sql: string) | Unchanged

  /** The sink after the call, the database calls made in order, and the
      outcome or the exception raised. */
  datatype Prepared = Prepared(sink: Sink, calls: seq<DbCall>, outcome: Result<Outcome, Error>)

  /** `updateTable`: list the live columns, build the migration, and run it
      unless it is empty. */
  function UpdateTable(t: Templater, spec: FeatureSetSpec, db: Database, table: string): (r: (seq<DbCall>, Result<Outcome, Error>))
    ensures 1 <= |r.0| <= 2 && r.0[0] == Query(ColumnsQuery(table))
    ensures r.1.Ok? ==> !r.1.value.Created?
    ensures r.1 == Ok(Unchanged) <==>
      !db.fails(ColumnsQuery(table)) && t.migrationSql(spec, ColumnMap(db.columns(table))) == Ok("")
    ensures |r.0| == 2 <==>
      !db.fails(ColumnsQuery(table)) && t.migrationSql(spec, ColumnMap(db.columns(table))).Ok?
      && t.migrationSql(spec, ColumnMap(db.columns(table))).value != ""
    ensures |r.0| == 2 ==> r.0[1] == Execute(t.migrationSql(spec, ColumnMap(db.columns(table))).value)
  {
    var q := ColumnsQuery(table);
    if db.fails(q) then ([Query(q)], Err(StatementFailed(q)))
    else
      match t.migrationSql(spec, ColumnMap(db.columns(table)))
      case Err(e) => ([Query(q)], Err(e))
      case Ok(sql) =>
        if sql == "" then ([Query(q)], Ok(Unchanged))
        else if db.fails(sql) then ([Query(q), Execute(sql)], Err(StatementFailed(sql)))
        else ([Query(q), Execute(sql)], Ok(Migrated(sql)))
  }

  /** `prepareWrite`. The feature set is registered before the database is
      touched, so it stays registered whatever happens next. Then: connect;
      refuse an empty table name before any metadata lookup; look the table
      up; migrate it if it exists, create it otherwise. */
  function PrepareWrite(sink: Sink, fs: FeatureSet, db: Database): (r: Prepared)
    ensures r.sink == sink.(subscribed := Register(sink.subscribed, fs))
    ensures |r.calls| > 0 && r.calls[0] == Open(ConnectFor(sink.config))
    ensures !db.accepts(ConnectFor(sink.config)) ==>
      r.calls == [Open(ConnectFor(sink.config))]
      && r.outcome == Err(ConnectionFailed(sink.config.url, sink.config.className))
    ensures sink.templater.tableName(fs.spec) == "" ==>
      (forall c :: c in r.calls ==> !c.LookupTable?) && r.outcome.Err?
    ensures db.accepts(ConnectFor(sink.config)) && sink.templater.tableName(fs.spec) == "" ==>
      r.outcome == Err(EmptyTableName(FeatureSetRef(fs.spec)))
    ensures r.outcome == Ok(Created) ==> sink.templater.tableName(fs.spec) !in db.tables
    ensures r.outcome.Ok? && !r.outcome.value.Created? ==> sink.templater.tableName(fs.spec) in db.tables
  {
    var spec := fs.spec;
    var registered := sink.(subscribed := Register(sink.subscribed, fs));
    var conn := ConnectFor(sink.config);
    var table := sink.templater.tableName(spec);
    if !db.accepts(conn) then
      Prepared(registered, [Open(conn)], Err(ConnectionFailed(sink.config.url, sink.config.className)))
    else if table == "" then
      Prepared(registered, [Open(conn)], Err(EmptyTableName(FeatureSetRef(spec))))
    else if db.lookupFails(table) then
      Prepared(registered, [Open(conn), LookupTable(table)], Err(TableLookupFailed(table)))
    else if table in db.tables then
      var (calls, outcome) := UpdateTable(sink.templater, spec, db, table);
      Prepared(registered, [Open(conn), LookupTable(table)] + calls, outcome)
    else
      var sql := sink.templater.creationSql(spec);
      Prepared(registered, [Open(conn), LookupTable(table), Execute(sql)],
        if db.fails(sql) then Err(StatementFailed(sql)) else Ok(Created))
  }

  /** The three calls before any table work. */
  predicate Looked(sink: Sink, fs: FeatureSet, db: Database)
  {
    db.accepts(ConnectFor(sink.config))
    && sink.templater.tableName(fs.spec) != ""
    && !db.lookupFails(sink.templater.tableName(fs.spec))
  }

  /** A missing table is created with the templater's creation statement and
      nothing else is run. */
  lemma PrepareWriteCreates(sink: Sink, fs: FeatureSet, db: Database)
    requires Looked(sink, fs, db) && sink.templater.tableName(fs.spec) !in db.tables
    ensures var table := sink.templater.tableName(fs.spec);
            PrepareWrite(sink, fs, db).calls ==
              [Open(ConnectFor(sink.config)), LookupTable(table), Execute(sink.templater.creationSql(fs.spec))]
  {
  }

  /** A live table is never created: after the lookup come the column query
      and at most the migration statement, and an empty migration runs
      nothing. */
  lemma PrepareWriteMigrates(sink: Sink, fs: FeatureSet, db: Database)
    requires Looked(sink, fs, db) && sink.templater.tableName(fs.spec) in db.tables
    ensures var table := sink.templater.tableName(fs.spec);
            var r := PrepareWrite(sink, fs, db);
            && 3 <= |r.calls| <= 4
            && r.calls[..3] == [Open(ConnectFor(sink.config)), LookupTable(table), Query(ColumnsQuery(table))]
            && (r.outcome.Ok? ==> !r.outcome.value.Created?)
            && (!db.fails(ColumnsQuery(table))
                && sink.templater.migrationSql(fs.spec, ColumnMap(db.columns(table))) == Ok("") ==>
                  |r.calls| == 3 && r.outcome == Ok(Unchanged))
  {
    var table := sink.templater.tableName(fs.spec);
    var (calls, outcome) := UpdateTable(sink.templater, fs.spec, db, table);
    assert PrepareWrite(sink, fs, db).calls == [Open(ConnectFor(sink.config)), LookupTable(table)] + calls;
  }

  /** Registration does not depend on the database. */
  lemma RegistrationIgnoresDatabase(sink: Sink, fs: FeatureSet, db: Database, db': Database)
    ensures PrepareWrite(sink, fs, db).sink == PrepareWrite(sink, fs, db').sink
  {
  }
}
