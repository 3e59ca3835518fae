/** Historical retrieval from a relational store: stage the entity rows in a
    fresh table, load the entity files into it, read the timestamp bounds,
    materialise one point-in-time table per requested feature set, join them
    into a result table and export that table as a file under the staging
    location. The database is the oracle of `JdbcDatabase`; random UUIDs,
    URI parsing and the two query templates are parameters. */
module HistoricalRetriever {
  import opened Wrappers
  import opened Strings
  import opened OrderedMap
  import opened FeastTypes
  import opened JdbcDatabase
  import opened QueryTemplater

  // ---- Temporary table names ----

  /** `s` with every '-' removed. */
  function Undashed(s: string): string
  {
    if |s| == 0 then ""
    else (if s[0] == '-' then "" else [s[0]]) + Undashed(s[1..])
  }

  /** Removing the hyphens keeps every other character and nothing else. */
  lemma {:induction false} UndashedMembers(s: string)
    ensures |Undashed(s)| <= |s|
    ensures forall c :: c in Undashed(s) <==> c in s && c != '-'
  {
    if |s| > 0 {
      UndashedMembers(s[1..]);
      assert s == [s[0]] + s[1..];
    }
  }

  lemma {:induction false} UndashedConcat(a: string, b: string)
    ensures Undashed(a + b) == Undashed(a) + Undashed(b)
  {
    if |a| == 0 {
      assert a + b == b;
    } else {
      assert (a + b)[1..] == a[1..] + b;
      UndashedConcat(a[1..], b);
    }
  }

  lemma {:induction false} UndashedKeeps(s: string)
    requires '-' !in s
    ensures Undashed(s) == s
  {
    if |s| > 0 {
      UndashedKeeps(s[1..]);
    }
  }

  predicate HexDigit(c: char)
  {
    '0' <= c <= '9' || 'a' <= c <= 'f'
  }

  predicate DashAt(i: int)
  {
    i == 8 || i == 13 || i == 18 || i == 23
  }

  /** A UUID in the text form `UUID.toString` gives: 36 characters, hyphens
      at offsets 8, 13, 18 and 23, lower-case hexadecimal digits elsewhere. */
  predicate CanonicalUuid(u: string)
  {
    |u| == 36 && forall i :: 0 <= i < 36 ==> if DashAt(i) then u[i] == '-' else HexDigit(u[i])
  }

  /** `createTempTableName`: an underscore followed by the UUID without its
      hyphens. */
  function TempTableName(uuid: string): (r: string)
    ensures |r| > 0 && r[0] == '_'
    ensures forall c :: c in r[1..] <==> c in uuid && c != '-'
  {
    UndashedMembers(uuid);
    assert ("_" + Undashed(uuid))[1..] == Undashed(uuid);
    "_" + Undashed(uuid)
  }

  lemma UndashedSkip(a: string, rest: string)
    requires '-' !in a
    ensures Undashed(a + "-" + rest) == a + Undashed(rest)
  {
    var t := "-" + rest;
    assert t[0] == '-' && t[1..] == rest;
    assert Undashed(t) == Undashed(rest);
    assert a + "-" + rest == a + t;
    UndashedConcat(a, t);
    UndashedKeeps(a);
  }

  /** The hyphen-free slice `u[from..to]` of a canonical UUID. */
  lemma HexRun(u: string, from: nat, to: nat)
    requires CanonicalUuid(u)
    requires from <= to <= 36
    requires forall i :: from <= i < to ==> !DashAt(i)
    ensures '-' !in u[from..to]
  {
    forall k | 0 <= k < to - from
      ensures u[from..to][k] != '-'
    {
      assert u[from..to][k] == u[from + k];
    }
  }

  /** For a canonical UUID the name is 33 characters: the underscore and the
      32 hexadecimal digits, so it is a plain SQL identifier. */
  lemma TempTableNameShape(uuid: string)
    requires CanonicalUuid(uuid)
    ensures |TempTableName(uuid)| == 33
    ensures forall i :: 1 <= i < 33 ==> HexDigit(TempTableName(uuid)[i])
  {
    var a, b, c, d, e := uuid[..8], uuid[9..13], uuid[14..18], uuid[19..23], uuid[24..];
    HexRun(uuid, 0, 8);
    HexRun(uuid, 9, 13);
    HexRun(uuid, 14, 18);
    HexRun(uuid, 19, 23);
    HexRun(uuid, 24, 36);
    assert uuid == a + "-" + (b + "-" + (c + "-" + (d + "-" + e)));
    UndashedSkip(a, b + "-" + (c + "-" + (d + "-" + e)));
    UndashedSkip(b, c + "-" + (d + "-" + e));
    UndashedSkip(c, d + "-" + e);
    UndashedSkip(d, e);
    UndashedKeeps(e);
    var r := TempTableName(uuid);
    assert |r| == 33;
    forall i | 1 <= i < 33
      ensures HexDigit(r[i])
    {
      assert r[i] == r[1..][i - 1];
      assert r[i] in r[1..];
      assert r[i] in uuid && r[i] != '-';
      var j :| 0 <= j < 36 && uuid[j] == r[i];
    }
  }

  // ---- Inputs and results ----

  /** Where the entity rows come from: their file format and file URIs. */
  datatype DatasetSource = DatasetSource(format: DataFormat, fileUris: seq<string>)

  datatype RetrievalResult = RetrievalResult(retrievalId: string, fileUris: seq<string>, format: DataFormat)

  /** What the retriever depends on besides its arguments:
      - `db`: the database behind the connection;
      - `uuid(k)`: the k-th random UUID drawn during one retrieval;
      - `fileOf`: the local path of a file URI, None when it does not parse;
      - `pathOf`: the path part of the staging location, None when it does
        not parse or has no path (`URI.getPath()` is null for an opaque
        URI, and the trailing-slash strip then throws a null-pointer
        exception; the model reports both as an unparsable location);
      - `pit` and `join`: the point-in-time and join query templates;
      - `tableOf`: the table of a feature set, by project and name. */
  datatype Env = Env(
    db: Database,
    uuid: nat -> string,
    fileOf: string -> Option<string>,
    pathOf: string -> Option<string>,
    pit: (FeatureSetQueryInfo, string, Timestamp, Timestamp) -> string,
    join: (seq<FeatureSetQueryInfo>, seq<string>, string) -> string,
    tableOf: (string, string) -> string)

  /** The calls made by one step and what it returns or throws. */
  datatype Run<T> = Run(calls: seq<DbCall>, result: Result<T, Error>)

  /** The k-th temporary table name of a retrieval: 0 is the staging table,
      1 to F the load tables of the F files, then one table per feature set,
      then the result table. */
  function Temp(env: Env, k: nat): string
  {
    TempTableName(env.uuid(k))
  }

  // ---- Loading the entity files ----

  /** The load statement of file `i`, when its URI parses. */
  function LoadSql(env: Env, staging: string, uris: seq<string>, i: nat): string
    requires i < |uris| && env.fileOf(uris[i]).Some?
  {
    LoadEntityQuery(staging, Temp(env, 1 + i), env.fileOf(uris[i]).value)
  }

  /** The loop of `loadEntitiesFromFile` from file `i` on: each file is loaded
      through its own temporary table; an unparsable URI or a failing load
      ends the loop. */
  function LoadFrom(env: Env, staging: string, uris: seq<string>, i: nat): (r: Run<()>)
    requires i <= |uris|
    ensures |r.calls| <= |uris| - i
    decreases |uris| - i
  {
    if i == |uris| then Run([], Ok(()))
    else match env.fileOf(uris[i])
      case None => Run([], Err(UnparsableLocation(uris[i])))
      case Some(_) =>
        var sql := LoadSql(env, staging, uris, i);
        if env.db.fails(sql) then Run([Execute(sql)], Err(StatementFailed(sql)))
        else
          var rest := LoadFrom(env, staging, uris, i + 1);
          Run([Execute(sql)] + rest.calls, rest.result)
  }

  /** Every file from `i` on parses and loads. */
  predicate LoadsFrom(env: Env, staging: string, uris: seq<string>, i: nat)
  {
    forall k :: i <= k < |uris| ==> env.fileOf(uris[k]).Some? && !env.db.fails(LoadSql(env, staging, uris, k))
  }

  /** The loop succeeds exactly when every remaining file parses and loads,
      and then it has run one load per file, in file order. */
  lemma {:induction false} LoadFromAll(env: Env, staging: string, uris: seq<string>, i: nat)
    requires i <= |uris|
    ensures LoadFrom(env, staging, uris, i).result.Ok? <==> LoadsFrom(env, staging, uris, i)
    ensures LoadFrom(env, staging, uris, i).result.Ok? ==>
      var calls := LoadFrom(env, staging, uris, i).calls;
      && |calls| == |uris| - i
      && forall k :: i <= k < |uris| ==> calls[k - i] == Execute(LoadSql(env, staging, uris, k))
    decreases |uris| - i
  {
    if i < |uris| && env.fileOf(uris[i]).Some? && !env.db.fails(LoadSql(env, staging, uris, i)) {
      LoadFromAll(env, staging, uris, i + 1);
      var rest := LoadFrom(env, staging, uris, i + 1).calls;
      var calls := LoadFrom(env, staging, uris, i).calls;
      assert calls == [Execute(LoadSql(env, staging, uris, i))] + rest;
      if LoadsFrom(env, staging, uris, i) {
        forall k | i < k < |uris|
          ensures calls[k - i] == Execute(LoadSql(env, staging, uris, k))
        {
          assert calls[k - i] == rest[k - (i + 1)];
        }
      }
    }
  }

  // ---- Timestamp bounds ----

  datatype Bound = Min | Max

  function BoundName(b: Bound): string
  {
    match b
    case Min => "min"
    case Max => "max"
  }

  function Pick(row: BoundsRow, b: Bound): Option<Timestamp>
  {
    match b
    case Min => row.min
    case Max => row.max
  }

  /** `putIfAbsent` on a `HashMap` entry that is absent (None), null
      (Some(None)) or set: an absent or null entry takes the new value. */
  function PutIfAbsent(entry: Option<Option<Timestamp>>, v: Option<Timestamp>): Option<Option<Timestamp>>
  {
    if entry.None? || entry.value.None? then Some(v) else entry
  }

  /** The map entry of one bound after the loop over the result rows. */
  function BoundEntry(rows: seq<BoundsRow>, b: Bound): Option<Option<Timestamp>>
  {
    if |rows| == 0 then None
    else PutIfAbsent(BoundEntry(rows[..|rows| - 1], b), Pick(rows[|rows| - 1], b))
  }

  /** `get` on the map: an absent and a null entry both read as null. */
  function BoundOf(rows: seq<BoundsRow>, b: Bound): Option<Timestamp>
  {
    match BoundEntry(rows, b)
    case None => None
    case Some(v) => v
  }

  /** The first non-null bound of the rows. */
  function FirstNonNull(rows: seq<BoundsRow>, b: Bound): (r: Option<Timestamp>)
    ensures r.None? <==> forall i :: 0 <= i < |rows| ==> Pick(rows[i], b).None?
    ensures r.Some? ==>
      exists i :: 0 <= i < |rows| && Pick(rows[i], b) == r && forall j :: 0 <= j < i ==> Pick(rows[j], b).None?
  {
    if |rows| == 0 then None
    else if Pick(rows[0], b).Some? then Pick(rows[0], b)
    else
      var r := FirstNonNull(rows[1..], b);
      assert forall i :: 1 <= i < |rows| ==> rows[i] == rows[1..][i - 1];
      if r.Some? then
        var i :| 0 <= i < |rows[1..]| && Pick(rows[1..][i], b) == r && forall j :: 0 <= j < i ==> Pick(rows[1..][j], b).None?;
        assert Pick(rows[i + 1], b) == r;
        assert forall j :: 0 <= j < i + 1 ==> Pick(rows[j], b).None? by {
          forall j | 0 <= j < i + 1
            ensures Pick(rows[j], b).None?
          {
            if j > 0 {
              assert rows[j] == rows[1..][j - 1];
            }
          }
        }
        r
      else r
  }

  lemma {:induction false} FirstNonNullSnoc(rows: seq<BoundsRow>, last: BoundsRow, b: Bound)
    ensures FirstNonNull(rows + [last], b)
         == if FirstNonNull(rows, b).Some? then FirstNonNull(rows, b) else Pick(last, b)
  {
    if |rows| == 0 {
      assert rows + [last] == [last];
      assert [last][1..] == [];
    } else {
      assert (rows + [last])[0] == rows[0];
      assert (rows + [last])[1..] == rows[1..] + [last];
      FirstNonNullSnoc(rows[1..], last, b);
    }
  }

  /** The `putIfAbsent` loop keeps the first non-null bound: a null read
      first is overwritten by the next row. */
  lemma {:induction false} BoundIsFirstNonNull(rows: seq<BoundsRow>, b: Bound)
    ensures BoundOf(rows, b) == FirstNonNull(rows, b)
  {
    if |rows| > 0 {
      var init := rows[..|rows| - 1];
      var last := rows[|rows| - 1];
      BoundIsFirstNonNull(init, b);
      FirstNonNullSnoc(init, last, b);
      assert init + [last] == rows;
    }
  }

  /** `getTimestampLimits`: one query on the staging table; the bounds are
      the first non-null minimum and maximum over its rows. */
  function TimestampLimits(db: Database, staging: string): (r: Run<(Option<Timestamp>, Option<Timestamp>)>)
    ensures r.calls == [Query(TimestampLimitQuery(staging))]
    ensures r.result.Err? <==> db.fails(TimestampLimitQuery(staging))
    ensures r.result.Ok? ==>
      var rows := db.boundsRows(TimestampLimitQuery(staging));
      r.result.value == (FirstNonNull(rows, Min), FirstNonNull(rows, Max))
  {
    var sql := TimestampLimitQuery(staging);
    if db.fails(sql) then Run([Query(sql)], Err(StatementFailed(sql)))
    else
      var rows := db.boundsRows(sql);
      BoundIsFirstNonNull(rows, Min);
      BoundIsFirstNonNull(rows, Max);
      Run([Query(sql)], Ok((BoundOf(rows, Min), BoundOf(rows, Max))))
  }

  // ---- Point-in-time queries ----

  /** `generateQueries`: one point-in-time query per info, in info order. A
      null bound is dereferenced only when there is an info, minimum first. */
  function GenerateQueries(pit: (FeatureSetQueryInfo, string, Timestamp, Timestamp) -> string,
                           staging: string, limits: (Option<Timestamp>, Option<Timestamp>),
                           infos: seq<FeatureSetQueryInfo>): (r: Result<seq<string>, Error>)
    ensures r.Ok? <==> |infos| == 0 || (limits.0.Some? && limits.1.Some?)
    ensures r.Err? ==> r.error == MissingTimestampBound(if limits.0.None? then "min" else "max")
    ensures r.Ok? ==> |r.value| == |infos|
    ensures r.Ok? && |infos| > 0 ==>
      forall i :: 0 <= i < |infos| ==> r.value[i] == pit(infos[i], staging, limits.0.value, limits.1.value)
  {
    if |infos| == 0 then Ok([])
    else if limits.0.None? then Err(MissingTimestampBound(BoundName(Min)))
    else if limits.1.None? then Err(MissingTimestampBound(BoundName(Max)))
    else Ok(seq(|infos|, i requires 0 <= i < |infos| => pit(infos[i], staging, limits.0.value, limits.1.value)))
  }

  // ---- Materialising the point-in-time tables ----

  /** `CREATE TABLE "table" AS (query)`. */
  function CreateAs(table: string, query: string): string
  {
    "CREATE TABLE \"" + table + "\" AS (" + query + ")"
  }

  /** The statement that materialises query `i` into temporary table
      `base + i`. */
  function PitSql(env: Env, queries: seq<string>, base: nat, i: nat): string
    requires i < |queries|
  {
    CreateAs(Temp(env, base + i), queries[i])
  }

  datatype Batch = Batch(calls: seq<DbCall>, infos: seq<FeatureSetQueryInfo>, result: Result<(), Error>)

  /** The loop of `runBatchQuery` from query `i` on: each query is
      materialised in turn and its info then records the table; the first
      failure ends the loop. */
  function MaterialiseFrom(env: Env, infos: seq<FeatureSetQueryInfo>, queries: seq<string>, base: nat, i: nat): (r: Batch)
    requires |queries| == |infos| && i <= |queries|
    ensures |r.infos| == |infos|
    decreases |queries| - i
  {
    if i == |queries| then Batch([], infos, Ok(()))
    else
      var sql := PitSql(env, queries, base, i);
      if env.db.fails(sql) then Batch([Execute(sql)], infos, Err(StatementFailed(sql)))
      else
        var joined := infos[i := infos[i].(joinedTable := Some(Temp(env, base + i)))];
        var rest := MaterialiseFrom(env, joined, queries, base, i + 1);
        Batch([Execute(sql)] + rest.calls, rest.infos, rest.result)
  }

  /** Queries `i` to `k` all materialise. */
  predicate MaterialisedUpTo(env: Env, queries: seq<string>, base: nat, i: nat, k: nat)
    requires k < |queries|
  {
    forall m :: i <= m <= k ==> !env.db.fails(PitSql(env, queries, base, m))
  }

  /** Only the joined table of an info changes, and it is set exactly for
      the queries before the first failure. */
  lemma {:induction false} MaterialiseJoins(env: Env, infos: seq<FeatureSetQueryInfo>, queries: seq<string>, base: nat, i: nat)
    requires |queries| == |infos| && i <= |queries|
    ensures var r := MaterialiseFrom(env, infos, queries, base, i);
      && (forall k :: 0 <= k < i ==> r.infos[k] == infos[k])
      && (forall k :: i <= k < |infos| ==>
            r.infos[k] == infos[k].(joinedTable := r.infos[k].joinedTable)
            && r.infos[k].joinedTable
               == if MaterialisedUpTo(env, queries, base, i, k) then Some(Temp(env, base + k)) else infos[k].joinedTable)
    decreases |queries| - i
  {
    if i < |queries| {
      if !env.db.fails(PitSql(env, queries, base, i)) {
        var joined := infos[i := infos[i].(joinedTable := Some(Temp(env, base + i)))];
        MaterialiseJoins(env, joined, queries, base, i + 1);
        forall k | i + 1 <= k < |infos|
          ensures MaterialisedUpTo(env, queries, base, i, k) == MaterialisedUpTo(env, queries, base, i + 1, k)
        {
        }
      } else {
        forall k | i <= k < |infos|
          ensures !MaterialisedUpTo(env, queries, base, i, k)
        {
        }
      }
    }
  }

  /** The loop succeeds exactly when no query fails, and then it has run one
      statement per query, in order. */
  lemma {:induction false} MaterialiseRuns(env: Env, infos: seq<FeatureSetQueryInfo>, queries: seq<string>, base: nat, i: nat)
    requires |queries| == |infos| && i <= |queries|
    ensures var r := MaterialiseFrom(env, infos, queries, base, i);
      && (r.result.Ok? <==> forall k :: i <= k < |queries| ==> !env.db.fails(PitSql(env, queries, base, k)))
      && (r.result.Ok? ==>
            |r.calls| == |queries| - i
            && forall k :: i <= k < |queries| ==> r.calls[k - i] == Execute(PitSql(env, queries, base, k)))
    decreases |queries| - i
  {
    if i < |queries| {
      var sql := PitSql(env, queries, base, i);
      if !env.db.fails(sql) {
        var joined := infos[i := infos[i].(joinedTable := Some(Temp(env, base + i)))];
        MaterialiseRuns(env, joined, queries, base, i + 1);
        var r := MaterialiseFrom(env, infos, queries, base, i);
        var rest := MaterialiseFrom(env, joined, queries, base, i + 1);
        assert r.calls == [Execute(sql)] + rest.calls;
        if r.result.Ok? {
          forall k | i < k < |queries|
            ensures r.calls[k - i] == Execute(PitSql(env, queries, base, k))
          {
            assert r.calls[k - i] == rest.calls[k - (i + 1)];
          }
        }
      }
    }
  }

  // ---- Entity columns of the staging table ----

  /** The column names other than `event_timestamp` and `row_number`, in
      order. */
  function EntityColumnsOnly(names: seq<string>): (r: seq<string>)
    ensures forall c :: c in r <==> c in names && c != "event_timestamp" && c != "row_number"
  {
    if |names| == 0 then []
    else
      var rest := EntityColumnsOnly(names[1..]);
      assert names == [names[0]] + names[1..];
      if names[0] == "event_timestamp" || names[0] == "row_number" then rest else [names[0]] + rest
  }

  lemma {:induction false} EntityColumnsOnlyConcat(a: seq<string>, b: seq<string>)
    ensures EntityColumnsOnly(a + b) == EntityColumnsOnly(a) + EntityColumnsOnly(b)
  {
    if |a| == 0 {
      assert a + b == b;
    } else {
      assert (a + b)[1..] == a[1..] + b;
      EntityColumnsOnlyConcat(a[1..], b);
    }
  }

  lemma {:induction false} EntityColumnsOnlyKeeps(names: seq<string>)
    requires "event_timestamp" !in names && "row_number" !in names
    ensures EntityColumnsOnly(names) == names
  {
    if |names| > 0 {
      EntityColumnsOnlyKeeps(names[1..]);
      assert names == [names[0]] + names[1..];
    }
  }

  /** The staging table lists the entity columns and then `event_timestamp`
      and `row_number`; reading its columns back gives the entity names, in
      staging order, as long as no entity takes one of those two names. */
  lemma StagingColumnsReadBack(infos: seq<FeatureSetQueryInfo>)
    requires "event_timestamp" !in StagingEntityNames(infos) && "row_number" !in StagingEntityNames(infos)
    ensures EntityColumnsOnly(StagingEntityNames(infos) + ["event_timestamp", "row_number"]) == StagingEntityNames(infos)
  {
    var names := StagingEntityNames(infos);
    EntityColumnsOnlyConcat(names, ["event_timestamp", "row_number"]);
    EntityColumnsOnlyKeeps(names);
    assert EntityColumnsOnly(["event_timestamp", "row_number"]) == [] by {
      assert ["event_timestamp", "row_number"][1..] == ["row_number"];
      assert ["row_number"][1..] == [];
    }
  }

  /** `getEntityTableColumns`: the zero-row query on the staging table, whose
      column names are kept in order except `event_timestamp` and
      `row_number`. */
  function EntityTableColumns(db: Database, staging: string): (r: Run<seq<string>>)
    ensures r.calls == [Query(ColumnsQuery(staging))]
    ensures r.result.Err? <==> db.fails(ColumnsQuery(staging))
    ensures r.result.Ok? ==> forall c :: c in r.result.value <==>
      c in ColumnMap(db.columns(staging)) && c != "event_timestamp" && c != "row_number"
  {
    var sql := ColumnsQuery(staging);
    if db.fails(sql) then Run([Query(sql)], Err(StatementFailed(sql)))
    else Run([Query(sql)], Ok(EntityColumnsOnly(Keys(db.columns(staging)))))
  }

  // ---- Export ----

  /** `<staging path>.replaceAll("/$", "") + "/" + <table> + ".csv"`. */
  function ExportPath(stagingPath: string, table: string): string
  {
    DropSlashAtEnd(stagingPath) + "/" + table + ".csv"
  }

  /** A staging path given with or without its trailing '/' exports to the
      same file, named after the result table. */
  lemma ExportPathSlash(stagingPath: string, table: string)
    requires !SlashAtEnd(stagingPath)
    ensures ExportPath(stagingPath + "/", table) == ExportPath(stagingPath, table)
    ensures ExportPath(stagingPath, table) == stagingPath + "/" + table + ".csv"
  {
    assert (stagingPath + "/")[..|stagingPath|] == stagingPath;
  }

  /** A path whose '/' comes just before a final line terminator loses that
      '/' and keeps the terminator, so the file lands inside a directory
      whose name ends in the terminator: `/tmp/x/\n` exports to
      `/tmp/x\n/<table>.csv`. */
  lemma ExportPathBeforeTerminator(dir: string, term: string, table: string)
    requires term == "\r\n" || (|term| == 1 && IsLineTerminator(term[0]))
    ensures ExportPath(dir + "/" + term, table) == dir + term + "/" + table + ".csv"
  {
    var s := dir + "/" + term;
    assert FinalTerminator(s) == term by {
      if term != "\r\n" {
        assert s[|s| - 2..] != "\r\n" by {
          assert s[|s| - 2] == '/';
        }
      }
    }
    assert s[..|s| - |term|] == dir + "/";
    assert s[|s| - 1] != '/';
  }

  /** The case above for the path of `file:///tmp/x/%0A`. */
  lemma ExportPathEscapedNewline(table: string)
    ensures ExportPath("/tmp/x/\n", table) == "/tmp/x\n/" + table + ".csv"
  {
    ExportPathBeforeTerminator("/tmp/x", "\n", table);
    assert "/tmp/x" + "/" + "\n" == "/tmp/x/\n";
  }

  /** The `COPY ... TO` statement writing the result table as a
      tab-separated file with a header. */
  function ExportSql(table: string, path: string): string
  {
    "COPY " + table + " TO '" + path + "' WITH (DELIMITER E'\t', FORMAT CSV, HEADER);"
  }

  // ---- The retrieval ----

  /** The calls made, the query infos as left behind (with the joined tables
      recorded), and the result or the error. */
  datatype Retrieval = Retrieval(calls: seq<DbCall>, infos: seq<FeatureSetQueryInfo>, outcome: Result<RetrievalResult, Error>)

  /** `loadEntities`: run the staging statement `ddl`, which creates the
      staging table (temporary name 0), then load the files into it. */
  function LoadEntities(env: Env, ddl: string, uris: seq<string>): (r: Run<string>)
    ensures |r.calls| > 0 && r.calls[0] == Execute(ddl)
    ensures r.result.Ok? ==> r.result.value == Temp(env, 0)
  {
    var staging := Temp(env, 0);
    if env.db.fails(ddl) then Run([Execute(ddl)], Err(StatementFailed(ddl)))
    else
      var load := LoadFrom(env, staging, uris, 0);
      Run([Execute(ddl)] + load.calls, if load.result.Err? then Err(load.result.error) else Ok(staging))
  }

  /** The infos once info `i` records temporary table `base + i` as its
      point-in-time table. */
  function JoinedInfos(env: Env, infos: seq<FeatureSetQueryInfo>, base: nat): (r: seq<FeatureSetQueryInfo>)
    ensures |r| == |infos|
    ensures forall i :: 0 <= i < |infos| ==> r[i] == infos[i].(joinedTable := Some(Temp(env, base + i)))
  {
    seq(|infos|, i requires 0 <= i < |infos| => infos[i].(joinedTable := Some(Temp(env, base + i))))
  }

  datatype BatchRun = BatchRun(calls: seq<DbCall>, infos: seq<FeatureSetQueryInfo>, result: Result<string, Error>)

  /** `runBatchQuery`: refuse an empty batch (a thread pool of size zero),
      materialise each query into temporary table `base + i`, list the
      staging table's entity columns, then create the result table
      (temporary name `base + |infos|`) from the join query. */
  function RunBatchQuery(env: Env, staging: string, infos: seq<FeatureSetQueryInfo>, queries: seq<string>, base: nat): (r: BatchRun)
    requires |queries| == |infos|
    ensures r.result.Ok? ==> r.result.value == Temp(env, base + |infos|) && |infos| > 0
  {
    if |queries| == 0 then BatchRun([], infos, Err(NoFeatureSets))
    else
      var batch := MaterialiseFrom(env, infos, queries, base, 0);
      if batch.result.Err? then BatchRun(batch.calls, batch.infos, Err(batch.result.error))
      else
        var cols := EntityTableColumns(env.db, staging);
        if cols.result.Err? then BatchRun(batch.calls + cols.calls, batch.infos, Err(cols.result.error))
        else
          var result := Temp(env, base + |infos|);
          var create := CreateAs(result, env.join(batch.infos, cols.result.value, staging));
          var calls := batch.calls + cols.calls + [Execute(create)];
          BatchRun(calls, batch.infos, if env.db.fails(create) then Err(StatementFailed(create)) else Ok(result))
  }

  /** `exportResultsToDisk`: the staging location must parse; the result
      table is copied to `<path>/<table>.csv`, which is returned. */
  function ExportResults(env: Env, stagingLocation: string, table: string): (r: Run<string>)
    ensures r.result.Ok? ==> env.pathOf(stagingLocation).Some? && r.result.value == ExportPath(env.pathOf(stagingLocation).value, table)
    ensures r.result.Ok? ==> r.calls == [Execute(ExportSql(table, r.result.value))]
  {
    match env.pathOf(stagingLocation)
    case None => Run([], Err(UnparsableLocation(stagingLocation)))
    case Some(dir) =>
      var path := ExportPath(dir, table);
      var copy := ExportSql(table, path);
      Run([Execute(copy)], if env.db.fails(copy) then Err(StatementFailed(copy)) else Ok(path))
  }

  /** `getHistoricalFeatures` once the entity format is known to be CSV,
      for the query infos `infos` and the staging statement `ddl`. */
  function Retrieve(env: Env, stagingLocation: string, retrievalId: string, uris: seq<string>,
                    infos: seq<FeatureSetQueryInfo>, ddl: string): (r: Retrieval)
  {
    var staged := LoadEntities(env, ddl, uris);
    if staged.result.Err? then Retrieval(staged.calls, infos, Err(staged.result.error))
    else
      var staging := staged.result.value;
      var limits := TimestampLimits(env.db, staging);
      var bounded := staged.calls + limits.calls;
      if limits.result.Err? then Retrieval(bounded, infos, Err(limits.result.error))
      else match GenerateQueries(env.pit, staging, limits.result.value, infos)
        case Err(e) => Retrieval(bounded, infos, Err(e))
        case Ok(queries) =>
          var batch := RunBatchQuery(env, staging, infos, queries, 1 + |uris|);
          var joined := bounded + batch.calls;
          if batch.result.Err? then Retrieval(joined, batch.infos, Err(batch.result.error))
          else
            var exported := ExportResults(env, stagingLocation, batch.result.value);
            Retrieval(joined + exported.calls, batch.infos,
                      if exported.result.Err? then Err(exported.result.error)
                      else Ok(RetrievalResult(retrievalId, [exported.result.value], Avro)))
  }

  /** `getHistoricalFeatures`: only CSV entity files are accepted; the infos
      come from the requests, and the staging table is created by
      `createEntityTableRowCountQuery` as the source builds it, whose sort
      throws before any statement runs when a column is all dots. */
  function GetHistoricalFeatures(env: Env, stagingLocation: string, retrievalId: string,
                                 source: DatasetSource, reqs: seq<FeatureSetRequest>): (r: Retrieval)
  {
    if source.format != Csv then Retrieval([], [], Err(UnsupportedEntityFormat))
    else
      var infos := FeatureSetInfos(reqs, env.tableOf);
      match EntityTableRowCountQuery(Temp(env, 0), infos)
      case Err(e) => Retrieval([], infos, Err(e))
      case Ok(ddl) => Retrieve(env, stagingLocation, retrievalId, source.fileUris, infos, ddl)
  }

  /** `getHistoricalFeatures` with the corrected staging table, whose entity
      columns follow the CSV files' name order. */
  function CorrectedGetHistoricalFeatures(env: Env, stagingLocation: string, retrievalId: string,
                                          source: DatasetSource, reqs: seq<FeatureSetRequest>): (r: Retrieval)
  {
    if source.format != Csv then Retrieval([], [], Err(UnsupportedEntityFormat))
    else
      var infos := FeatureSetInfos(reqs, env.tableOf);
      Retrieve(env, stagingLocation, retrievalId, source.fileUris, infos, StagingTableQuery(Temp(env, 0), infos))
  }

  // ---- Properties of the retrieval ----

  /** A successful load ran the staging statement and then one load per
      file, each through its own temporary table. */
  lemma LoadEntitiesRuns(env: Env, ddl: string, uris: seq<string>)
    requires LoadEntities(env, ddl, uris).result.Ok?
    ensures var r := LoadEntities(env, ddl, uris);
      && |r.calls| == 1 + |uris|
      && (forall k :: 0 <= k < |uris| ==>
            env.fileOf(uris[k]).Some? && r.calls[1 + k] == Execute(LoadSql(env, Temp(env, 0), uris, k)))
  {
    var staging := Temp(env, 0);
    LoadFromAll(env, staging, uris, 0);
    var load := LoadFrom(env, staging, uris, 0);
    var r := LoadEntities(env, ddl, uris);
    assert r.calls == [Execute(ddl)] + load.calls;
    forall k | 0 <= k < |uris|
      ensures r.calls[1 + k] == Execute(LoadSql(env, staging, uris, k))
    {
      assert r.calls[1 + k] == load.calls[k - 0];
    }
  }

  /** A successful batch materialised every query into its own table,
      recorded that table in every info (and changed nothing else), listed
      the staging columns and created the result table from the join of the
      updated infos. */
  lemma RunBatchQueryRuns(env: Env, staging: string, infos: seq<FeatureSetQueryInfo>, queries: seq<string>, base: nat)
    requires |queries| == |infos|
    requires RunBatchQuery(env, staging, infos, queries, base).result.Ok?
    ensures var r := RunBatchQuery(env, staging, infos, queries, base);
      && r.infos == JoinedInfos(env, infos, base)
      && |r.calls| == |infos| + 2
      && (forall i :: 0 <= i < |queries| ==> r.calls[i] == Execute(PitSql(env, queries, base, i)))
      && r.calls[|infos|] == Query(ColumnsQuery(staging))
      && r.calls[|infos| + 1]
         == Execute(CreateAs(Temp(env, base + |infos|),
                             env.join(r.infos, EntityColumnsOnly(Keys(env.db.columns(staging))), staging)))
  {
    MaterialiseJoins(env, infos, queries, base, 0);
    MaterialiseRuns(env, infos, queries, base, 0);
    var batch := MaterialiseFrom(env, infos, queries, base, 0);
    var joined := JoinedInfos(env, infos, base);
    forall i | 0 <= i < |infos|
      ensures batch.infos[i] == joined[i]
    {
      assert MaterialisedUpTo(env, queries, base, 0, i);
    }
    assert batch.infos == joined;
    var r := RunBatchQuery(env, staging, infos, queries, base);
    forall i | 0 <= i < |queries|
      ensures r.calls[i] == Execute(PitSql(env, queries, base, i))
    {
      assert r.calls[i] == batch.calls[i - 0];
    }
  }

  /** A retrieval that is not given CSV entity files touches nothing. */
  lemma RetrievalRejectsFormat(env: Env, stagingLocation: string, retrievalId: string,
                               source: DatasetSource, reqs: seq<FeatureSetRequest>)
    requires source.format != Csv
    ensures GetHistoricalFeatures(env, stagingLocation, retrievalId, source, reqs)
         == Retrieval([], [], Err(UnsupportedEntityFormat))
  {
  }

  /** The steps of a successful retrieval, each one successful. */
  lemma RetrieveSteps(env: Env, stagingLocation: string, retrievalId: string, uris: seq<string>,
                      infos: seq<FeatureSetQueryInfo>, ddl: string)
    requires Retrieve(env, stagingLocation, retrievalId, uris, infos, ddl).outcome.Ok?
    ensures var staging := Temp(env, 0);
      var staged := LoadEntities(env, ddl, uris);
      var limits := TimestampLimits(env.db, staging);
      && staged.result == Ok(staging)
      && limits.result.Ok?
      && GenerateQueries(env.pit, staging, limits.result.value, infos).Ok?
      && var queries := GenerateQueries(env.pit, staging, limits.result.value, infos).value;
         var batch := RunBatchQuery(env, staging, infos, queries, 1 + |uris|);
         && batch.result.Ok?
         && var exported := ExportResults(env, stagingLocation, batch.result.value);
            && exported.result.Ok?
            && Retrieve(env, stagingLocation, retrievalId, uris, infos, ddl)
               == Retrieval(staged.calls + limits.calls + batch.calls + exported.calls, batch.infos,
                            Ok(RetrievalResult(retrievalId, [exported.result.value], Avro)))
  {
  }

  /** A successful run had at least one info and returns the one exported
      file, under the staging path and named after the result table, in Avro
      format. */
  lemma RetrieveSucceeds(env: Env, stagingLocation: string, retrievalId: string, uris: seq<string>,
                         infos: seq<FeatureSetQueryInfo>, ddl: string)
    requires Retrieve(env, stagingLocation, retrievalId, uris, infos, ddl).outcome.Ok?
    ensures var r := Retrieve(env, stagingLocation, retrievalId, uris, infos, ddl);
      && |infos| > 0
      && env.pathOf(stagingLocation).Some?
      && r.outcome.value
         == RetrievalResult(retrievalId, [ExportPath(env.pathOf(stagingLocation).value, Temp(env, 1 + |uris| + |infos|))], Avro)
  {
    RetrieveSteps(env, stagingLocation, retrievalId, uris, infos, ddl);
  }

  /** After a successful run every info points at its own point-in-time
      table, and nothing else in it has changed. */
  lemma RetrieveJoinsInfos(env: Env, stagingLocation: string, retrievalId: string, uris: seq<string>,
                           infos: seq<FeatureSetQueryInfo>, ddl: string)
    requires Retrieve(env, stagingLocation, retrievalId, uris, infos, ddl).outcome.Ok?
    ensures Retrieve(env, stagingLocation, retrievalId, uris, infos, ddl).infos == JoinedInfos(env, infos, 1 + |uris|)
  {
    RetrieveSteps(env, stagingLocation, retrievalId, uris, infos, ddl);
    var staging := Temp(env, 0);
    var queries := GenerateQueries(env.pit, staging, TimestampLimits(env.db, staging).result.value, infos).value;
    RunBatchQueryRuns(env, staging, infos, queries, 1 + |uris|);
  }

  /** The first calls of a successful run: the staging statement, then one
      load per file, then the bounds query on the staging table. */
  lemma RetrieveTraceHead(env: Env, stagingLocation: string, retrievalId: string, uris: seq<string>,
                          infos: seq<FeatureSetQueryInfo>, ddl: string)
    requires Retrieve(env, stagingLocation, retrievalId, uris, infos, ddl).outcome.Ok?
    ensures var r := Retrieve(env, stagingLocation, retrievalId, uris, infos, ddl);
      var staging := Temp(env, 0);
      && |r.calls| == |uris| + |infos| + 5
      && r.calls[0] == Execute(ddl)
      && (forall k :: 0 <= k < |uris| ==>
            env.fileOf(uris[k]).Some? && r.calls[1 + k] == Execute(LoadSql(env, staging, uris, k)))
      && r.calls[1 + |uris|] == Query(TimestampLimitQuery(staging))
  {
    RetrieveSteps(env, stagingLocation, retrievalId, uris, infos, ddl);
    RetrieveSucceeds(env, stagingLocation, retrievalId, uris, infos, ddl);
    var staging := Temp(env, 0);
    var staged := LoadEntities(env, ddl, uris);
    var limits := TimestampLimits(env.db, staging);
    var queries := GenerateQueries(env.pit, staging, limits.result.value, infos).value;
    var batch := RunBatchQuery(env, staging, infos, queries, 1 + |uris|);
    var exported := ExportResults(env, stagingLocation, batch.result.value);
    LoadEntitiesRuns(env, ddl, uris);
    RunBatchQueryRuns(env, staging, infos, queries, 1 + |uris|);
    var front := staged.calls + limits.calls;
    var calls := front + batch.calls + exported.calls;
    assert Retrieve(env, stagingLocation, retrievalId, uris, infos, ddl).calls == calls;
    assert calls[..|front|] == front;
    forall j | 1 <= j <= |uris|
      ensures calls[j] == staged.calls[j]
    {
      assert calls[j] == front[j];
    }
    assert calls[1 + |uris|] == front[1 + |uris|];
  }

  /** The middle calls of a successful run: one point-in-time table per
      info, in info order, from the query built with the first non-null
      bounds. */
  lemma RetrieveTracePit(env: Env, stagingLocation: string, retrievalId: string, uris: seq<string>,
                         infos: seq<FeatureSetQueryInfo>, ddl: string)
    requires Retrieve(env, stagingLocation, retrievalId, uris, infos, ddl).outcome.Ok?
    ensures var r := Retrieve(env, stagingLocation, retrievalId, uris, infos, ddl);
      var staging := Temp(env, 0);
      var rows := env.db.boundsRows(TimestampLimitQuery(staging));
      && |r.calls| == |uris| + |infos| + 5
      && FirstNonNull(rows, Min).Some? && FirstNonNull(rows, Max).Some?
      && (forall i :: 0 <= i < |infos| ==>
            r.calls[2 + |uris| + i]
            == Execute(CreateAs(Temp(env, 1 + |uris| + i),
                                env.pit(infos[i], staging, FirstNonNull(rows, Min).value, FirstNonNull(rows, Max).value))))
  {
    RetrieveSteps(env, stagingLocation, retrievalId, uris, infos, ddl);
    RetrieveTraceHead(env, stagingLocation, retrievalId, uris, infos, ddl);
    var staging := Temp(env, 0);
    var staged := LoadEntities(env, ddl, uris);
    var limits := TimestampLimits(env.db, staging);
    var queries := GenerateQueries(env.pit, staging, limits.result.value, infos).value;
    var batch := RunBatchQuery(env, staging, infos, queries, 1 + |uris|);
    var exported := ExportResults(env, stagingLocation, batch.result.value);
    LoadEntitiesRuns(env, ddl, uris);
    RunBatchQueryRuns(env, staging, infos, queries, 1 + |uris|);
    var front := staged.calls + limits.calls;
    var calls := front + batch.calls + exported.calls;
    assert Retrieve(env, stagingLocation, retrievalId, uris, infos, ddl).calls == calls;
    assert |front| == 2 + |uris|;
    forall j | 2 + |uris| <= j < 2 + |uris| + |infos|
      ensures calls[j] == batch.calls[j - (2 + |uris|)]
    {
    }
  }

  /** The last calls of a successful run: the column listing of the staging
      table, the result table from the join of the updated infos, and the
      export of the result table to the returned path. */
  lemma RetrieveTraceTail(env: Env, stagingLocation: string, retrievalId: string, uris: seq<string>,
                          infos: seq<FeatureSetQueryInfo>, ddl: string)
    requires Retrieve(env, stagingLocation, retrievalId, uris, infos, ddl).outcome.Ok?
    ensures var r := Retrieve(env, stagingLocation, retrievalId, uris, infos, ddl);
      var staging := Temp(env, 0);
      var f := |uris|;
      var q := |infos|;
      var result := Temp(env, 1 + f + q);
      && |r.calls| == f + q + 5
      && r.calls[2 + f + q] == Query(ColumnsQuery(staging))
      && r.calls[3 + f + q]
         == Execute(CreateAs(result, env.join(r.infos, EntityColumnsOnly(Keys(env.db.columns(staging))), staging)))
      && |r.outcome.value.fileUris| == 1
      && r.calls[4 + f + q] == Execute(ExportSql(result, r.outcome.value.fileUris[0]))
  {
    RetrieveSteps(env, stagingLocation, retrievalId, uris, infos, ddl);
    RetrieveTraceHead(env, stagingLocation, retrievalId, uris, infos, ddl);
    var staging := Temp(env, 0);
    var staged := LoadEntities(env, ddl, uris);
    var limits := TimestampLimits(env.db, staging);
    var queries := GenerateQueries(env.pit, staging, limits.result.value, infos).value;
    var batch := RunBatchQuery(env, staging, infos, queries, 1 + |uris|);
    var exported := ExportResults(env, stagingLocation, batch.result.value);
    LoadEntitiesRuns(env, ddl, uris);
    RunBatchQueryRuns(env, staging, infos, queries, 1 + |uris|);
    var front := staged.calls + limits.calls;
    var calls := front + batch.calls + exported.calls;
    assert Retrieve(env, stagingLocation, retrievalId, uris, infos, ddl).calls == calls;
    assert |front| == 2 + |uris|;
    assert calls[2 + |uris| + |infos|] == batch.calls[|infos|];
    assert calls[3 + |uris| + |infos|] == batch.calls[|infos| + 1];
    assert calls[4 + |uris| + |infos|] == exported.calls[0];
  }

  /** Only a CSV source gets past the format check, and from there the
      retrieval is `Retrieve` on the requests' infos. */
  lemma AcceptedIsRetrieve(env: Env, stagingLocation: string, retrievalId: string,
                           source: DatasetSource, reqs: seq<FeatureSetRequest>)
    requires GetHistoricalFeatures(env, stagingLocation, retrievalId, source, reqs).outcome.Ok?
    ensures source.format == Csv
    ensures var infos := FeatureSetInfos(reqs, env.tableOf);
      var ddl := EntityTableRowCountQuery(Temp(env, 0), infos);
      && ddl.Ok?
      && GetHistoricalFeatures(env, stagingLocation, retrievalId, source, reqs)
         == Retrieve(env, stagingLocation, retrievalId, source.fileUris, infos, ddl.value)
  {
  }

  /** The first statement of a successful retrieval creates the staging
      table from the entity columns in the source's qualifier order, over
      every requested feature set's table. */
  lemma RetrievalStagingStatement(env: Env, stagingLocation: string, retrievalId: string,
                                  source: DatasetSource, reqs: seq<FeatureSetRequest>, k: int)
    requires GetHistoricalFeatures(env, stagingLocation, retrievalId, source, reqs).outcome.Ok?
    requires var infos := FeatureSetInfos(reqs, env.tableOf);
      '"' !in Temp(env, 0) && PlainInfos(infos) && 0 <= k < |infos| && |infos[k].entities| > 0
    ensures var infos := FeatureSetInfos(reqs, env.tableOf);
      var r := GetHistoricalFeatures(env, stagingLocation, retrievalId, source, reqs);
      && |r.calls| > 0 && r.calls[0].Execute?
      && ParseStaging(r.calls[0].sql)
         == Some((Temp(env, 0), ColumnTexts(SortByQualifier(EntityColumns(infos)).value), Tables(infos)))
  {
    var infos := FeatureSetInfos(reqs, env.tableOf);
    AcceptedIsRetrieve(env, stagingLocation, retrievalId, source, reqs);
    var ddl := EntityTableRowCountQuery(Temp(env, 0), infos).value;
    RetrieveTraceHead(env, stagingLocation, retrievalId, source.fileUris, infos, ddl);
    EntityTableRowCountQueryParses(Temp(env, 0), infos, k);
  }

  /** A CSV retrieval whose staging columns cannot be sorted (two or more
      columns, one of them all dots) throws before touching the database. */
  lemma RetrievalRejectsDottedColumn(env: Env, stagingLocation: string, retrievalId: string,
                                     source: DatasetSource, reqs: seq<FeatureSetRequest>, i: int)
    requires source.format == Csv
    requires var cols := EntityColumns(FeatureSetInfos(reqs, env.tableOf));
      |cols| >= 2 && 0 <= i < |cols| && AllDots(ColumnText(cols[i]))
    ensures var r := GetHistoricalFeatures(env, stagingLocation, retrievalId, source, reqs);
      r.calls == [] && r.outcome == Err(EmptySplitResult)
  {
  }

  /** With the corrected staging table, only CSV entity files get past the
      format check, and from there the retrieval is `Retrieve` with the
      entity-name ordered staging statement. */
  lemma CorrectedIsRetrieve(env: Env, stagingLocation: string, retrievalId: string,
                            source: DatasetSource, reqs: seq<FeatureSetRequest>)
    requires CorrectedGetHistoricalFeatures(env, stagingLocation, retrievalId, source, reqs).outcome.Ok?
    ensures source.format == Csv
    ensures var infos := FeatureSetInfos(reqs, env.tableOf);
      CorrectedGetHistoricalFeatures(env, stagingLocation, retrievalId, source, reqs)
      == Retrieve(env, stagingLocation, retrievalId, source.fileUris, infos, StagingTableQuery(Temp(env, 0), infos))
  {
  }

  /** A successful retrieval had CSV entity files and at least one feature
      set. */
  lemma RetrievalNeedsFeatureSets(env: Env, stagingLocation: string, retrievalId: string,
                                  source: DatasetSource, reqs: seq<FeatureSetRequest>)
    requires GetHistoricalFeatures(env, stagingLocation, retrievalId, source, reqs).outcome.Ok?
    ensures source.format == Csv && |reqs| > 0
  {
    var infos := FeatureSetInfos(reqs, env.tableOf);
    AcceptedIsRetrieve(env, stagingLocation, retrievalId, source, reqs);
    RetrieveSucceeds(env, stagingLocation, retrievalId, source.fileUris, infos, EntityTableRowCountQuery(Temp(env, 0), infos).value);
  }

  /** After a successful retrieval the info of every requested feature set
      points at its own point-in-time table, and nothing else in it has
      changed. */
  lemma RetrievalJoinsInfos(env: Env, stagingLocation: string, retrievalId: string,
                            source: DatasetSource, reqs: seq<FeatureSetRequest>)
    requires GetHistoricalFeatures(env, stagingLocation, retrievalId, source, reqs).outcome.Ok?
    ensures GetHistoricalFeatures(env, stagingLocation, retrievalId, source, reqs).infos
         == JoinedInfos(env, FeatureSetInfos(reqs, env.tableOf), 1 + |source.fileUris|)
  {
    var infos := FeatureSetInfos(reqs, env.tableOf);
    var ddl := EntityTableRowCountQuery(Temp(env, 0), infos).value;
    AcceptedIsRetrieve(env, stagingLocation, retrievalId, source, reqs);
    RetrieveJoinsInfos(env, stagingLocation, retrievalId, source.fileUris, infos, ddl);
  }
}
