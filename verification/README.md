# Feast JDBC connector — a Dafny model

This project models the JDBC storage connector of Feast. It also models the two
pieces of Feast that feed it: the SQLite serving store's row key and the Python
SDK's entity-file staging. The model covers these parts:

- **Column type tables.** Each SQL dialect maps a Feast value type to a column type.
- **The PostgreSQL templater.**
  - It builds the ordered map of required columns.
  - It writes the `CREATE TABLE`, additive `ALTER TABLE` and `INSERT` statements.
- **The feature sink.**
  - It picks a dialect from the driver class.
  - It keeps a map of subscribed feature sets.
  - `prepareWrite` creates a feature set's table or migrates the live one.
- **The writer.**
  - It gives each subscribed feature set its own partition.
  - Each partition gets one batched insert branch.
  - A per-row setter binds a feature row to the insert's `?` slots.
- **The historical retriever.**
  - It stages the entity rows in a fresh table and loads the entity files into it.
  - It reads the timestamp bounds.
  - It materialises one point-in-time table per feature set.
  - It joins those tables into a result table and exports that table under the staging location.
- **The query templater.** It supplies the retriever's SQL text.
- **`FeatureRow.getKey`.** The serving-store key of a row is its feature-set reference plus its entity fields, in entity-name order.
- **`feast.loaders.file`.** A data frame or a file is staged as an Avro or CSV file, and its URI is returned.

The model is functional. The database is an oracle (`JdbcDatabase.Database`):

- it says which connections open, which tables exist and which statements fail;
- it says what columns and rows a table or query returns.

Every operation returns the calls it made, in order, together with its result
or the exception it raises, as an `Error` value. The following are parameters:

- random UUIDs;
- the clock;
- URL parsing and `os.path.abspath`;
- the Pebble point-in-time and join templates;
- the table-naming function;
- Cloud Storage listing.

The modules are:

- `Wrappers`, `Strings`, `Sorting` and `OrderedMap`. `OrderedMap` is a `LinkedHashMap` as a sequence of pairs.
- `FeastTypes`: values, specifications, rows and errors.
- `PostgresqlTypeUtil` and `SqliteTypeUtil`.
- `PostgresqlTemplater`, plus `PostgresqlTemplaterProperties`, which reads the generated SQL back.
- `JdbcDatabase`, `FeatureSink`, `JdbcWrite`, `QueryTemplater` and `HistoricalRetriever`.
- `FeatureRowKey` and `FileLoader`.
- `StagingOrder`, which relates the staging table to the CSV files the loader writes.

Points of the code worth stating, which the model follows:

- **Required columns keep specification order.** `getRequiredColumns` (PostgresqlTemplater.java:47-65) puts the entity columns in the order the feature set specification lists them; it does not sort them.
- **An unmapped value type is not an error.** The type tables leave `null` in the column map. The SQL text then shows `null`.
- **The staging table's entity columns are sorted by table qualifier, not by entity name.** `createEntityTableRowCountQuery` (QueryTemplater.java:51-74) sorts on the part before the first '.', although the comment at line 67 promises alphabetical order. The retriever (`HistoricalRetriever.GetHistoricalFeatures`) runs this statement as written, including its exception for an all-dots column. See "Findings" for the corrected order, which `HistoricalRetriever.CorrectedGetHistoricalFeatures` uses.

## Model

| member | source | states |
|---|---|---|
| PostgresqlTypeUtil.ToSqlType | storage/connectors/jdbc/src/main/java/feast/storage/connectors/jdbc/postgres/PostgresqlTypeUtil.java:29-47 | Each scalar type gets its PostgreSQL column type and every list type is TEXT. A type outside the table yields null, not an error. |
| SqliteTypeUtil.ToSqlType | storage/connectors/jdbc/src/main/java/feast/storage/connectors/jdbc/sqlite/SqliteTypeUtil.java:29-47 | Each scalar type gets its SQLite column type and every list type is BLOB. A type outside the table yields null. |
| SqliteTypeUtil.NotInjective | storage/connectors/jdbc/src/main/java/feast/storage/connectors/jdbc/sqlite/SqliteTypeUtil.java:31-34 | The SQLite table merges INT32 with INT64 and DOUBLE with FLOAT, so a column type does not identify the value type. |
| PostgresqlTemplater.RequiredColumnsShape | storage/connectors/jdbc/src/main/java/feast/storage/connectors/jdbc/postgres/PostgresqlTemplater.java:47-65 | The required-column LinkedHashMap lists each name once, at its first put, with the type of its last put. Every entry comes from a put. Without repeated names it is: the two timestamps, the entities, the two job columns, then the features. |
| PostgresqlTemplater.Missing | storage/connectors/jdbc/src/main/java/feast/storage/connectors/jdbc/postgres/PostgresqlTemplater.java:89-96 | The columns to add are exactly the required columns whose names are not live. |
| PostgresqlTemplater.MissingEmpty | storage/connectors/jdbc/src/main/java/feast/storage/connectors/jdbc/postgres/PostgresqlTemplater.java:83-87 | Nothing is missing exactly when every required name is live. |
| PostgresqlTemplater.Migration | storage/connectors/jdbc/src/main/java/feast/storage/connectors/jdbc/postgres/PostgresqlTemplater.java:68-99 | Migration fails exactly when some live column is not required, and the error names the table and those columns. The empty statement comes back exactly when the live names cover the required ones. |
| PostgresqlTemplater.TableMigrationSql | storage/connectors/jdbc/src/main/java/feast/storage/connectors/jdbc/postgres/PostgresqlTemplater.java:68-99 | The same two cases for a feature set's required columns against a table's live column map. |
| PostgresqlTemplaterProperties.CreationParses | storage/connectors/jdbc/src/main/java/feast/storage/connectors/jdbc/postgres/PostgresqlTemplater.java:29-44 | The creation statement reads back to the table name and to every required column with its type text, in required order. |
| PostgresqlTemplaterProperties.MigrationParses | storage/connectors/jdbc/src/main/java/feast/storage/connectors/jdbc/postgres/PostgresqlTemplater.java:68-99 | A non-empty migration reads back to one ADD COLUMN per missing column, in required order, and nothing else. |
| PostgresqlTemplaterProperties.InsertParses | storage/connectors/jdbc/src/main/java/feast/storage/connectors/jdbc/postgres/PostgresqlTemplater.java:101-116 | The insert statement names every required column in order, with exactly one `?` per column. |
| PostgresqlTemplaterProperties.AfterMigration | storage/connectors/jdbc/src/main/java/feast/storage/connectors/jdbc/postgres/PostgresqlTemplater.java:89-96 | After an additive migration the live names are the old names plus the added ones. |
| PostgresqlTemplaterProperties.MissingNames | storage/connectors/jdbc/src/main/java/feast/storage/connectors/jdbc/postgres/PostgresqlTemplater.java:89-96 | A name is added exactly when it is required and not live. |
| PostgresqlTemplaterProperties.MigrationIdempotent | storage/connectors/jdbc/src/main/java/feast/storage/connectors/jdbc/postgres/PostgresqlTemplater.java:68-99 | Once the missing columns are added, migrating again yields the empty statement. |
| PostgresqlTemplaterProperties.MigrationTypeBlind | storage/connectors/jdbc/src/main/java/feast/storage/connectors/jdbc/postgres/PostgresqlTemplater.java:68-99 | Only live column names matter. Tables with the same names and different types migrate the same way. |
| PostgresqlTemplaterProperties.ExactColumnsNeedNoMigration | storage/connectors/jdbc/src/main/java/feast/storage/connectors/jdbc/postgres/PostgresqlTemplater.java:83-87 | A table whose live names are exactly the required names needs no migration. |
| JdbcDatabase.ColumnsQueryParses | storage/connectors/jdbc/src/main/java/feast/storage/connectors/jdbc/writer/JdbcFeatureSink.java:123-140 | A format round-trip only: the zero-row column query reads back to the table it lists. |
| JdbcDatabase.ColumnMap | storage/connectors/jdbc/src/main/java/feast/storage/connectors/jdbc/writer/JdbcFeatureSink.java:123-140 | The live-column HashMap has a key for every listed column, bound to the type of the last column with that name. |
| FeatureSink.DialectForClass | storage/connectors/jdbc/src/main/java/feast/storage/connectors/jdbc/writer/JdbcFeatureSink.java:48-58 | Exactly the SQLite and PostgreSQL driver classes select a dialect. Any other class fails construction, with an error that does not name the class. |
| FeatureSink.DialectRoundTrip | storage/connectors/jdbc/src/main/java/feast/storage/connectors/jdbc/writer/JdbcFeatureSink.java:48-58 | A dialect's driver class selects that dialect. |
| FeatureSink.NewSink | storage/connectors/jdbc/src/main/java/feast/storage/connectors/jdbc/writer/JdbcFeatureSink.java:43-58 | Construction succeeds exactly for a known driver class. It keeps the configuration and starts with no subscriptions. |
| FeatureSink.FeatureSetRefParses | storage/connectors/jdbc/src/main/java/feast/storage/connectors/jdbc/writer/JdbcFeatureSink.java:181-183 | `project/name` gives back its project and name when the project has no '/'. |
| FeatureSink.FeatureSetRefAmbiguous | storage/connectors/jdbc/src/main/java/feast/storage/connectors/jdbc/writer/JdbcFeatureSink.java:181-183 | Without that condition, two distinct feature sets share one reference. |
| FeatureSink.Register | storage/connectors/jdbc/src/main/java/feast/storage/connectors/jdbc/writer/JdbcFeatureSink.java:70-72 | The feature set is found under its reference, and every other subscription is untouched. |
| FeatureSink.RegisterOverwrites | storage/connectors/jdbc/src/main/java/feast/storage/connectors/jdbc/writer/JdbcFeatureSink.java:70-72 | Registering the same reference twice keeps only the later feature set. |
| FeatureSink.ConnectFor | storage/connectors/jdbc/src/main/java/feast/storage/connectors/jdbc/writer/JdbcFeatureSink.java:142-160 | A connection carries credentials exactly when a user name is set, and always uses the configured URL. |
| FeatureSink.UpdateTable | storage/connectors/jdbc/src/main/java/feast/storage/connectors/jdbc/writer/JdbcFeatureSink.java:98-121 | The column query runs first. The migration runs exactly when it is built and non-empty. An empty migration leaves the table unchanged and never reports a creation. |
| FeatureSink.PrepareWrite | storage/connectors/jdbc/src/main/java/feast/storage/connectors/jdbc/writer/JdbcFeatureSink.java:70-81 | The feature set is registered whatever happens. A refused connection stops at once. An empty table name fails before any lookup. Creation happens only for a missing table and migration only for a live one. |
| FeatureSink.PrepareWriteCreates | storage/connectors/jdbc/src/main/java/feast/storage/connectors/jdbc/writer/JdbcFeatureSink.java:83-96 | A missing table costs exactly connect, lookup and the creation statement. |
| FeatureSink.PrepareWriteMigrates | storage/connectors/jdbc/src/main/java/feast/storage/connectors/jdbc/writer/JdbcFeatureSink.java:98-121 | A live table gets the column query and at most one migration statement, and is never created. An empty migration runs nothing. |
| FeatureSink.RegistrationIgnoresDatabase | storage/connectors/jdbc/src/main/java/feast/storage/connectors/jdbc/writer/JdbcFeatureSink.java:70-72 | The sink after the call does not depend on the database. |
| JdbcWrite.PartitionMapDense | storage/connectors/jdbc/src/main/java/feast/storage/connectors/jdbc/writer/JdbcWrite.java:135-145 | The putIfAbsent-by-size map numbers the references densely from 0 with no shared number. Without repeated keys, the i-th key gets i. |
| JdbcWrite.PartitionMapDomain | storage/connectors/jdbc/src/main/java/feast/storage/connectors/jdbc/writer/JdbcWrite.java:135-145 | Exactly the listed references get a partition, and every partition is below the number of distinct references. |
| JdbcWrite.PartitionMapOnto | storage/connectors/jdbc/src/main/java/feast/storage/connectors/jdbc/writer/JdbcWrite.java:135-145 | Every partition number below the map size is used by some reference. |
| JdbcWrite.PartitionMapInjective | storage/connectors/jdbc/src/main/java/feast/storage/connectors/jdbc/writer/JdbcWrite.java:135-145 | No two references share a partition. |
| JdbcWrite.PartitionMapIndex | storage/connectors/jdbc/src/main/java/feast/storage/connectors/jdbc/writer/JdbcWrite.java:135-145 | Without repeated references, the i-th reference in iteration order gets partition i, and there are as many partitions as references. |
| JdbcWrite.PartitionFor | storage/connectors/jdbc/src/main/java/feast/storage/connectors/jdbc/writer/JdbcWrite.java:146-156 | A row finds a partition exactly when its reference is subscribed, and the partition is in range. With distinct keys, a row whose reference is the i-th key goes to partition i, and the key at its partition is its own reference. |
| JdbcWrite.RoutingSeparates | storage/connectors/jdbc/src/main/java/feast/storage/connectors/jdbc/writer/JdbcWrite.java:146-156 | Two rows share a partition only when they belong to the same feature set. |
| JdbcWrite.DataSourceFor | storage/connectors/jdbc/src/main/java/feast/storage/connectors/jdbc/writer/JdbcWrite.java:166-177 | An empty user name or password is passed as null, and a non-empty one is passed as given. |
| JdbcWrite.CredentialsAgree | storage/connectors/jdbc/src/main/java/feast/storage/connectors/jdbc/writer/JdbcWrite.java:166-177 | The writer passes a user exactly when the sink connects with credentials. |
| JdbcWrite.BatchSize | storage/connectors/jdbc/src/main/java/feast/storage/connectors/jdbc/writer/JdbcWrite.java:169 | The batch size is the configured one when positive and 1 otherwise. |
| JdbcWrite.Branches | storage/connectors/jdbc/src/main/java/feast/storage/connectors/jdbc/writer/JdbcWrite.java:91-177 | There is one branch per subscribed reference. The i-th branch reads partition i, inserts with its own feature set's statement, and carries the configured batch size (at least 1) and the data source built from the configuration. |
| JdbcWrite.RegisteredIsRouted | storage/connectors/jdbc/src/main/java/feast/storage/connectors/jdbc/writer/JdbcWrite.java:135-156 | A feature set registered by prepareWrite has a partition for its rows in the writer built afterwards. The branch reading that partition carries the feature set's reference and inserts with its statement. |
| JdbcWrite.Expand | storage/connectors/jdbc/src/main/java/feast/storage/connectors/jdbc/writer/JdbcWrite.java:79-133 | The DoFns are placeholders that emit nothing, so the write result has no successful and no failed rows, whatever the input. The contract promises nothing beyond that. |
| JdbcWrite.BindValue | storage/connectors/jdbc/src/main/java/feast/storage/connectors/jdbc/writer/JdbcWrite.java:238-306 | A slot is left unbound exactly for an unset value. Lists, and only lists, bind as encoded text. |
| JdbcWrite.BindValueRoundTrip | storage/connectors/jdbc/src/main/java/feast/storage/connectors/jdbc/writer/JdbcWrite.java:238-306 | Every set value is recovered from its bound slot, so binding loses nothing. |
| JdbcWrite.FieldMap | storage/connectors/jdbc/src/main/java/feast/storage/connectors/jdbc/writer/JdbcWrite.java:186-190 | The only failure of toMap is a repeated field name. |
| JdbcWrite.FieldMapEntries | storage/connectors/jdbc/src/main/java/feast/storage/connectors/jdbc/writer/JdbcWrite.java:186-190 | The map exists exactly when no name repeats. It then holds every field's value under its name, and nothing else. |
| JdbcWrite.EntityParams | storage/connectors/jdbc/src/main/java/feast/storage/connectors/jdbc/writer/JdbcWrite.java:200-206 | Entity slots bind each entity's field in specification order. The first entity without a field aborts the row. |
| JdbcWrite.FeatureParams | storage/connectors/jdbc/src/main/java/feast/storage/connectors/jdbc/writer/JdbcWrite.java:217-224 | A feature slot is unbound exactly when its field is missing or unset. Otherwise it carries the field's value. |
| JdbcWrite.SetParameters | storage/connectors/jdbc/src/main/java/feast/storage/connectors/jdbc/writer/JdbcWrite.java:182-234 | A row binds exactly when its names are distinct and every entity has a field. It fills 4 + entities + features slots. |
| JdbcWrite.SetParametersSlots | storage/connectors/jdbc/src/main/java/feast/storage/connectors/jdbc/writer/JdbcWrite.java:193-224 | The slots hold, in order: the event time in milliseconds, the creation time, the entities, the ingestion id, the job name, then the features. |
| JdbcWrite.InsertColumnNames | storage/connectors/jdbc/src/main/java/feast/storage/connectors/jdbc/postgres/PostgresqlTemplater.java:47-65 | Without repeated names, the insert's columns are the put names in put order. |
| JdbcWrite.SlotsMatchInsertColumns | storage/connectors/jdbc/src/main/java/feast/storage/connectors/jdbc/writer/JdbcWrite.java:182-234 | With distinct names, the PostgreSQL insert has one `?` per bound slot, and every slot carries the value its column names. |
| QueryTemplater.FeatureSetInfos | storage/connectors/jdbc/src/main/java/feast/storage/connectors/jdbc/retriever/QueryTemplater.java:84-99 | There is one info per request, in order, with the request's project, name, max age in seconds, entity names and feature references. No joined table is set yet. |
| QueryTemplater.InfosDropNanos | storage/connectors/jdbc/src/main/java/feast/storage/connectors/jdbc/retriever/QueryTemplater.java:90-96 | The infos ignore the nanosecond part of the max age. |
| QueryTemplater.TimestampLimitQuery | storage/connectors/jdbc/src/main/java/feast/storage/connectors/jdbc/retriever/QueryTemplater.java:46-49 | A format round-trip only: the bounds query reads back to the table it scans. |
| QueryTemplater.FirstPerEntityOrder | storage/connectors/jdbc/src/main/java/feast/storage/connectors/jdbc/retriever/QueryTemplater.java:55-64 | The deduplication keeps each entity once, in the order of first appearance. |
| QueryTemplater.FirstPerEntityTables | storage/connectors/jdbc/src/main/java/feast/storage/connectors/jdbc/retriever/QueryTemplater.java:55-64 | Each kept column is qualified by the table of the entity's first appearance. |
| QueryTemplater.SortByQualifier | storage/connectors/jdbc/src/main/java/feast/storage/connectors/jdbc/retriever/QueryTemplater.java:67-68 | The sort by the text before the first '.' fails exactly when there are at least two columns and one consists of dots only. Otherwise it is a permutation ordered by that key. |
| QueryTemplater.QualifierSortStable | storage/connectors/jdbc/src/main/java/feast/storage/connectors/jdbc/retriever/QueryTemplater.java:67-68 | The sort is stable: columns with the same qualifier keep their relative order. |
| QueryTemplater.SortByEntity | storage/connectors/jdbc/src/main/java/feast/storage/connectors/jdbc/retriever/QueryTemplater.java:67 | Corrected order: a permutation sorted by entity name, as the source comment promises. |
| QueryTemplater.EntityTableRowCountQuery | storage/connectors/jdbc/src/main/java/feast/storage/connectors/jdbc/retriever/QueryTemplater.java:51-74 | The staging DDL fails exactly when the qualifier sort fails. |
| QueryTemplater.EntityTableRowCountQueryParses | storage/connectors/jdbc/src/main/java/feast/storage/connectors/jdbc/retriever/QueryTemplater.java:51-74 | With plain names and at least one entity, the statement is built. It reads back to the destination, the de-duplicated entity columns in stable qualifier order, and every info's table in request order with repeats. It selects no row and then adds `event_timestamp` and `row_number`. |
| QueryTemplater.StagingColumnsShape | storage/connectors/jdbc/src/main/java/feast/storage/connectors/jdbc/retriever/QueryTemplater.java:51-74 | The corrected staging table lists every requested entity exactly once, sorted. Each comes from the table of its first appearance. |
| QueryTemplater.StagingTextParses | storage/connectors/jdbc/src/main/java/feast/storage/connectors/jdbc/retriever/QueryTemplater.java:71-73 | The staging DDL reads back to its destination, selected columns and cross-joined tables. |
| QueryTemplater.LoadEntityQuerySplits | storage/connectors/jdbc/src/main/java/feast/storage/connectors/jdbc/retriever/QueryTemplater.java:162-178 | The load text is five statements: copy the staging table, drop row_number, COPY the file, insert back, drop the copy. |
| HistoricalRetriever.TempTableName | storage/connectors/jdbc/src/main/java/feast/storage/connectors/jdbc/retriever/JdbcHistoricalRetriever.java:341-343 | A temporary name is '_' followed by exactly the UUID's characters other than '-'. |
| HistoricalRetriever.TempTableNameShape | storage/connectors/jdbc/src/main/java/feast/storage/connectors/jdbc/retriever/JdbcHistoricalRetriever.java:341-343 | For a canonical UUID the name has 33 characters, all hexadecimal after the underscore. |
| HistoricalRetriever.LoadFromAll | storage/connectors/jdbc/src/main/java/feast/storage/connectors/jdbc/retriever/JdbcHistoricalRetriever.java:214-240 | Loading succeeds exactly when every file URI parses and loads. It then runs one load per file, in file order. |
| HistoricalRetriever.FirstNonNull | storage/connectors/jdbc/src/main/java/feast/storage/connectors/jdbc/retriever/JdbcHistoricalRetriever.java:327-332 | A bound is null exactly when every row's bound is null. Otherwise it is the first non-null one. |
| HistoricalRetriever.BoundIsFirstNonNull | storage/connectors/jdbc/src/main/java/feast/storage/connectors/jdbc/retriever/JdbcHistoricalRetriever.java:327-332 | The putIfAbsent loop, where a null entry counts as absent, keeps the first non-null bound. |
| HistoricalRetriever.TimestampLimits | storage/connectors/jdbc/src/main/java/feast/storage/connectors/jdbc/retriever/JdbcHistoricalRetriever.java:319-339 | One bounds query runs on the staging table. It fails only when that query fails, and otherwise yields the first non-null minimum and maximum. |
| HistoricalRetriever.GenerateQueries | storage/connectors/jdbc/src/main/java/feast/storage/connectors/jdbc/retriever/JdbcHistoricalRetriever.java:178-200 | There is one point-in-time query per info, in order. It fails exactly when there is an info and a bound is null, and it names the bound dereferenced first. |
| HistoricalRetriever.MaterialiseJoins | storage/connectors/jdbc/src/main/java/feast/storage/connectors/jdbc/retriever/JdbcHistoricalRetriever.java:275-292 | Only an info's joined table changes. It is set to its own temporary table exactly for the queries before the first failure. |
| HistoricalRetriever.MaterialiseRuns | storage/connectors/jdbc/src/main/java/feast/storage/connectors/jdbc/retriever/JdbcHistoricalRetriever.java:275-292 | The loop succeeds exactly when no CREATE fails. It then runs one CREATE per query, in order. |
| HistoricalRetriever.EntityColumnsOnly | storage/connectors/jdbc/src/main/java/feast/storage/connectors/jdbc/retriever/JdbcHistoricalRetriever.java:163-169 | The kept names are exactly the listed ones other than event_timestamp and row_number. |
| HistoricalRetriever.StagingColumnsReadBack | storage/connectors/jdbc/src/main/java/feast/storage/connectors/jdbc/retriever/JdbcHistoricalRetriever.java:156-176 | Reading the staging table's columns back gives its entity names in staging order. |
| HistoricalRetriever.EntityTableColumns | storage/connectors/jdbc/src/main/java/feast/storage/connectors/jdbc/retriever/JdbcHistoricalRetriever.java:156-176 | One zero-row query runs. It fails only when that query fails, and otherwise returns exactly the live names other than the two fixed ones. |
| HistoricalRetriever.ExportPathSlash | storage/connectors/jdbc/src/main/java/feast/storage/connectors/jdbc/retriever/JdbcHistoricalRetriever.java:136-137 | A staging path with or without its trailing '/' exports to the same `<path>/<table>.csv`, provided the path has no '/' that `/$` would match. |
| HistoricalRetriever.ExportPathBeforeTerminator | storage/connectors/jdbc/src/main/java/feast/storage/connectors/jdbc/retriever/JdbcHistoricalRetriever.java:136-137 | `replaceAll("/$", "")` also drops a '/' just before a final line terminator and keeps the terminator. |
| HistoricalRetriever.ExportPathEscapedNewline | storage/connectors/jdbc/src/main/java/feast/storage/connectors/jdbc/retriever/JdbcHistoricalRetriever.java:136-137 | The path of `file:///tmp/x/%0A` exports to `/tmp/x\n/<table>.csv`. |
| HistoricalRetriever.LoadEntities | storage/connectors/jdbc/src/main/java/feast/storage/connectors/jdbc/retriever/JdbcHistoricalRetriever.java:202-212 | The staging DDL runs first. On success the staging table is the first temporary table. |
| HistoricalRetriever.RunBatchQuery | storage/connectors/jdbc/src/main/java/feast/storage/connectors/jdbc/retriever/JdbcHistoricalRetriever.java:262-317 | A successful batch had at least one query and returns the result table's temporary name. |
| HistoricalRetriever.RunBatchQueryRuns | storage/connectors/jdbc/src/main/java/feast/storage/connectors/jdbc/retriever/JdbcHistoricalRetriever.java:262-317 | A successful batch creates one table per query, records it in every info, lists the staging columns, and creates the result from the join of the updated infos. |
| HistoricalRetriever.ExportResults | storage/connectors/jdbc/src/main/java/feast/storage/connectors/jdbc/retriever/JdbcHistoricalRetriever.java:128-154 | A successful export parsed the staging location and ran one COPY to `<path>/<table>.csv`, which it returns. |
| HistoricalRetriever.RetrievalRejectsFormat | storage/connectors/jdbc/src/main/java/feast/storage/connectors/jdbc/retriever/JdbcHistoricalRetriever.java:93-99 | Non-CSV entity files are refused before anything touches the database. |
| HistoricalRetriever.RetrieveSucceeds | storage/connectors/jdbc/src/main/java/feast/storage/connectors/jdbc/retriever/JdbcHistoricalRetriever.java:84-126 | A successful retrieval had at least one feature set. It returns the single exported file, named after the result table, in Avro format. |
| HistoricalRetriever.RetrieveJoinsInfos | storage/connectors/jdbc/src/main/java/feast/storage/connectors/jdbc/retriever/JdbcHistoricalRetriever.java:275-292 | After success every info points at its own point-in-time table, and nothing else in it changes. |
| HistoricalRetriever.RetrieveTraceHead | storage/connectors/jdbc/src/main/java/feast/storage/connectors/jdbc/retriever/JdbcHistoricalRetriever.java:102-111 | A successful run begins with the staging DDL, one load per file, then the bounds query. |
| HistoricalRetriever.RetrieveTracePit | storage/connectors/jdbc/src/main/java/feast/storage/connectors/jdbc/retriever/JdbcHistoricalRetriever.java:110-119 | Next come one CREATE per info, in order, from the query built with the first non-null bounds. |
| HistoricalRetriever.RetrieveTraceTail | storage/connectors/jdbc/src/main/java/feast/storage/connectors/jdbc/retriever/JdbcHistoricalRetriever.java:295-309 | It ends with the column listing, the join into the result table, and the COPY to the returned path. |
| HistoricalRetriever.AcceptedIsRetrieve | storage/connectors/jdbc/src/main/java/feast/storage/connectors/jdbc/retriever/JdbcHistoricalRetriever.java:84-126 | Only CSV entity files get past the format check, and `createEntityTableRowCountQuery` (qualifier order, as written) built the staging statement. From there the run is the staged pipeline over the requests' infos, starting with that statement. |
| HistoricalRetriever.RetrievalRejectsDottedColumn | storage/connectors/jdbc/src/main/java/feast/storage/connectors/jdbc/retriever/JdbcHistoricalRetriever.java:242-248 | A CSV retrieval with two or more staging columns, one of them all dots, throws the sort's exception before any statement runs. |
| HistoricalRetriever.RetrievalStagingStatement | storage/connectors/jdbc/src/main/java/feast/storage/connectors/jdbc/retriever/JdbcHistoricalRetriever.java:242-251 | With plain names and at least one entity, a successful retrieval's first statement creates the first temporary table from the entity columns in stable qualifier order, over every requested table in order. |
| HistoricalRetriever.CorrectedIsRetrieve | storage/connectors/jdbc/src/main/java/feast/storage/connectors/jdbc/retriever/QueryTemplater.java:67-68 | The corrected retrieval is the same pipeline, started by the staging statement whose columns are in entity-name order. |
| HistoricalRetriever.RetrievalNeedsFeatureSets | storage/connectors/jdbc/src/main/java/feast/storage/connectors/jdbc/retriever/JdbcHistoricalRetriever.java:84-126 | A successful retrieval had CSV entity files and at least one feature-set request. |
| HistoricalRetriever.RetrievalJoinsInfos | storage/connectors/jdbc/src/main/java/feast/storage/connectors/jdbc/retriever/JdbcHistoricalRetriever.java:84-126 | After a successful retrieval every requested feature set's info points at its own point-in-time table. |
| FeatureRowKey.FirstFieldIsFirst | ingestion/src/main/java/feast/store/serving/sqlite/FeatureRow.java:26-32 | The reference lookup finds a field exactly when one has the name, and then it finds the first such field. |
| FeatureRowKey.EntityFieldsFirst | ingestion/src/main/java/feast/store/serving/sqlite/FeatureRow.java:24-32 | The putIfAbsent map holds exactly the entity names that some field carries, each bound to its first field. |
| FeatureRowKey.SortedEntityNames | ingestion/src/main/java/feast/store/serving/sqlite/FeatureRow.java:18-22 | The entity names, sorted, as a permutation of the specification's names. |
| FeatureRowKey.AddEntities | ingestion/src/main/java/feast/store/serving/sqlite/FeatureRow.java:33-35 | The entities are added exactly when every name has a field. Otherwise the first name without one fails. |
| FeatureRowKey.GetKey | ingestion/src/main/java/feast/store/serving/sqlite/FeatureRow.java:15-37 | An unknown feature-set reference fails, and only that does so directly. A key carries the row's reference. |
| FeatureRowKey.GetKeyDefined | ingestion/src/main/java/feast/store/serving/sqlite/FeatureRow.java:15-37 | A key exists exactly when every entity of the feature set has a field in the row. |
| FeatureRowKey.GetKeyEntities | ingestion/src/main/java/feast/store/serving/sqlite/FeatureRow.java:15-37 | The key's entities are named by the entity names in sorted order, and each is the row's first field with its name. |
| FeatureRowKey.GetKeyIgnoresEntityOrder | ingestion/src/main/java/feast/store/serving/sqlite/FeatureRow.java:18-22 | The key does not depend on the order in which the feature set lists its entities. |
| FeatureRowKey.GetKeyDependsOnFirstEntityFields | ingestion/src/main/java/feast/store/serving/sqlite/FeatureRow.java:26-32 | Rows that agree on each entity's first field have the same key, so later duplicates play no part. |
| FeatureRowKey.GetKeyIgnoresOtherField | ingestion/src/main/java/feast/store/serving/sqlite/FeatureRow.java:26-32 | Inserting a non-entity field anywhere leaves the key unchanged. |
| FileLoader.FileName | sdk/python/feast/loaders/file.py:251-267 | A file name is made only for Avro and CSV, and it is the stem plus `.avro` or `.csv`. Any other format raises. |
| FileLoader.FileNameFormat | sdk/python/feast/loaders/file.py:260-265 | A generated name's extension gives back its format. |
| FileLoader.ToStaging | sdk/python/feast/loaders/file.py:154 | After the rename no `datetime` column is left. An `event_timestamp` exists exactly when the frame had either name. |
| FileLoader.RenameRoundTrip | sdk/python/feast/loaders/file.py:154-182 | The frame's column names survive exactly when it had no `event_timestamp` of its own. |
| FileLoader.CsvColumns | sdk/python/feast/loaders/file.py:161-173 | The CSV order exists exactly when there is an `event_timestamp`. It is a permutation with `event_timestamp` last and the rest sorted. |
| FileLoader.CsvColumnsUnique | sdk/python/feast/loaders/file.py:161-173 | The CSV order is the only arrangement with a sorted body followed by `event_timestamp`. |
| FileLoader.SelectLabels | sdk/python/feast/loaders/file.py:167 | Indexing a frame by a list of labels: a name is written exactly when it is requested and the frame has it. Each requested label selects every column carrying it. |
| FileLoader.SelectDistinct | sdk/python/feast/loaders/file.py:167 | When no column name repeats, the selection is the requested list itself. |
| FileLoader.CsvSelection | sdk/python/feast/loaders/file.py:161-173 | The CSV branch writes columns exactly when there is an `event_timestamp`. It writes exactly the frame's names, ends with `event_timestamp`, and is the CSV order when no name repeats. |
| FileLoader.RepeatedTimestampWidensCsv | sdk/python/feast/loaders/file.py:154-167 | A frame with both `datetime` and `event_timestamp` gets four `event_timestamp` columns in its CSV file. |
| FileLoader.WrittenColumns | sdk/python/feast/loaders/file.py:157-173 | Avro writes the renamed columns. CSV writes the CSV selection, which is the CSV order when no renamed name repeats. |
| FileLoader.ExportDataFrameToLocal | sdk/python/feast/loaders/file.py:121-184 | It succeeds exactly for Avro, or for CSV with a timestamp column, and gives the error of each other case. The frame's names come back unchanged exactly when the format is unknown or there is no own `event_timestamp`. It writes exactly the renamed names to `<dir>/<name>`. For CSV the last is `event_timestamp`, and when no renamed name repeats the layout is the CSV order. |
| FileLoader.Basename | sdk/python/feast/loaders/file.py:77-83 | The basename is the slash-free suffix after the last '/'. |
| FileLoader.StagedUri | sdk/python/feast/loaders/file.py:118 | The staged URI is the staging location without its trailing slashes, then '/', then the file name. |
| FileLoader.StagedUriSlashes | sdk/python/feast/loaders/file.py:118 | Extra trailing slashes on the staging location give the same URI. |
| FileLoader.StagedUriBasename | sdk/python/feast/loaders/file.py:118 | The last segment of a staged URI is the file name. |
| FileLoader.Push | sdk/python/feast/loaders/file.py:99-118 | A gs location uploads the local file into the location's bucket, under the location's path stripped of '/' at both ends plus "/" plus the file name, and then runs the cleanup. A file location leaves the file in place with no effect. Any other scheme raises with no effect. The staged URI is the location without trailing '/', then "/", then the file name. |
| FileLoader.ExportSourceToStaging | sdk/python/feast/loaders/file.py:31-118 | A gs source path passes through with no effect, with a wildcard expanded, and other remote sources raise. Only a gs staging location causes uploads. With gs staging, a local file is uploaded from its absolute path under its basename. A frame is uploaded from the temporary directory under its generated file name, and that directory is removed when its name is longer than four characters. A staged frame's URI names its generated file, and a local file keeps its basename. |
| FileLoader.BlobNameBelowRoot | sdk/python/feast/loaders/file.py:99-118 | For a staging location below a bucket's root, the uploaded object is the one the returned URI names. |
| FileLoader.BlobNameAtBucketRoot | sdk/python/feast/loaders/file.py:99-118 | For `gs://b` or `gs://b/`, the upload goes to the object "/<file>" while the returned URI names "<file>". |
| FileLoader.CorrectedBlobNameMatchesUri | sdk/python/feast/loaders/file.py:99-118 | With the leading "/" dropped at the bucket's root, the returned URI names the uploaded object for every staging location. |
| FileLoader.GsSourcePassesThrough | sdk/python/feast/loaders/file.py:84-91 | A gs path without a wildcard comes back untouched, whatever the staging location. |
| FileLoader.CsvFrameStaged | sdk/python/feast/loaders/file.py:67-76 | A frame staged as CSV is written under a `.csv` name with `event_timestamp` last, in CSV order when no renamed name repeats. |
| StagingOrder.EntityOrderMatchesCsv | storage/connectors/jdbc/src/main/java/feast/storage/connectors/jdbc/retriever/QueryTemplater.java:67-69 | With the corrected entity-name order, the CSV file of a frame holding the staging entities and one timestamp matches the COPY target column by column. |
| StagingOrder.QualifierOrderMisalignsCsv | storage/connectors/jdbc/src/main/java/feast/storage/connectors/jdbc/retriever/QueryTemplater.java:67-69 | With the qualifier order as written, a feature set on table t with entities b, a gets a COPY target that differs from the CSV file's column order. |

## Left out

- Thread pools, Beam pipelines and JDBC I/O are left out. The database is an oracle, and each call is recorded as a value in order.
- Clocks, random UUIDs, `urlparse`, `os.path.abspath`, `mkdtemp` and Cloud Storage listing are parameters.
- The Pebble point-in-time and join templates are parameters, because their text is not part of this model.
- The SQLite templater is left out. `JdbcTemplater.getTableName` is also left out, so table names are inputs.
- The retriever's `connect` is left out. It only opens the connection that every step then uses.
- Base64 and protobuf encoding of list values are kept as the structured value. Floating-point values are kept as opaque bits.
- `FileLoader.ExportDataFrameToLocal`: does not model writing the Avro or CSV contents (pandas, fastavro). Only the column layout is modelled. It promises the CSV order only when no renamed name repeats, because a repeated label selects every column carrying it.
- `FileLoader.SelectLabels`: follows pandas' documented selection by a list of labels; pandas itself is not part of this model. The Avro layout for repeated names is taken to be the renamed columns.
- `FileLoader.CsvFrameStaged`: promises the CSV order only when no renamed name repeats, as for `FileLoader.ExportDataFrameToLocal`.
- `FileLoader.ExportSourceToStaging`: does not model `upload_file_to_gcs` or `_get_files`. Uploads and directory removal are effects, and a wildcard's matches are a parameter.
- String order is lexicographic order on characters. Java's `compareTo` orders UTF-16 code units and Python orders code points; these agree on the identifiers used here.
- Commits, logging and `println` are left out.
- A `SQLException` thrown by a `setX` call inside the row setter is left out.
- `JdbcWrite.SetParametersSlots`: does not model the 64-bit overflow of `seconds * 1000`, because the product is an unbounded integer.
- `PostgresqlTemplater.Migration`: the error carries the whole set of unexpected names, because Java names one of them in HashMap iteration order.
- `JdbcWrite.Branches`: the HashMap key order is an input `keys`, because Java's iteration order is unspecified.
- `Timestamp.toString` text in generated SQL is left out. Bounds are passed to the template as values.
- `mkdtemp` creates its directory even when the export then raises. That directory is not recorded.
- The `else` branch at file.py 174-175 is unreachable, because `_get_file_name` raises first for an unknown format. The model gives that error.

## Findings

| source | as written | input that shows it | evidently intended | confidence | as-written member | corrected member |
|---|---|---|---|---|---|---|
| storage/connectors/jdbc/src/main/java/feast/storage/connectors/jdbc/retriever/QueryTemplater.java:67-68 | The staging table's entity columns are sorted by the text before the first '.', that is by table. The sort is stable, so one feature set's entities keep their specification order. | One feature set on table `t` with entities `b`, `a`, and an entity frame with columns `b`, `a`, `datetime`. The staging table is `b, a, event_timestamp`, while the CSV file is `a, b, event_timestamp`. The positional COPY swaps the two entity columns. | Entity columns are sorted by entity name ("must preserve alphabetical order"), matching the CSV file the loader writes. | not executed | StagingOrder.QualifierOrderMisalignsCsv | StagingOrder.EntityOrderMatchesCsv |
| sdk/python/feast/loaders/file.py:99-118 | A gs staging location uploads to the object `uri.path.strip("/") + "/" + file_name` and returns `staging.rstrip("/") + "/" + file_name`. | The staging location `gs://b/` (or `gs://b`): the file is uploaded as the object `/x.csv`, and the returned URI `gs://b/x.csv` names the object `x.csv`, which does not exist. | The returned URI names the uploaded object, so at the bucket's root the object name is the file name alone. | not executed | FileLoader.BlobNameAtBucketRoot | FileLoader.CorrectedBlobNameMatchesUri |
