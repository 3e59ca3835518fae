/** The JDBC writer: one partition per subscribed feature set, one batched
    insert branch per partition, and the per-row statement setter that binds
    the row's values to the insert statement's `?` slots. */
module JdbcWrite {
  import opened Wrappers
  import opened FeastTypes
  import opened OrderedMap
  import opened FeatureSink
  import Pg = PostgresqlTemplater

  datatype Writer = Writer(config: JdbcConfig, templater: Templater, subscribed: map<string, FeatureSet>)

  /** `JdbcFeatureSink.writer()`. */
  function WriterOf(sink: Sink): Writer
  {
    Writer(sink.config, sink.templater, sink.subscribed)
  }

  // ---- Partitioning rows by feature set ----

  /** The partition map built by `putIfAbsent(ref, map.size())` for each key
      in iteration order (see `PartitionMapDense`). */
  function PartitionMap(keys: seq<string>): map<string, nat>
  {
    if |keys| == 0 then map[]
    else
      var m := PartitionMap(keys[..|keys| - 1]);
      var k := keys[|keys| - 1];
      if k in m then m else m[k := |m|]
  }

  /** The keys of the map are exactly the listed keys, and each index is
      below the map's size. */
  lemma {:induction false} PartitionMapDomain(keys: seq<string>)
    ensures var m := PartitionMap(keys);
      && (forall k :: k in m <==> k in keys)
      && |m| <= |keys|
      && (forall k :: k in m ==> m[k] < |m|)
  {
    if |keys| > 0 {
      var init := keys[..|keys| - 1];
      var k := keys[|keys| - 1];
      assert keys == init + [k];
      PartitionMapDomain(init);
      var m := PartitionMap(init);
      if k !in m {
        var m' := m[k := |m|];
        assert |m'| == |m| + 1;
        forall x | x in m' ensures m'[x] < |m'| {
          if x != k {
            assert m'[x] == m[x];
          }
        }
      }
    }
  }

  /** Every index below the map's size is in use. */
  lemma {:induction false} PartitionMapOnto(keys: seq<string>)
    ensures forall i :: 0 <= i < |PartitionMap(keys)| ==> i in PartitionMap(keys).Values
  {
    if |keys| > 0 {
      var init := keys[..|keys| - 1];
      var k := keys[|keys| - 1];
      assert keys == init + [k];
      PartitionMapOnto(init);
      var m := PartitionMap(init);
      if k !in m {
        var m' := m[k := |m|];
        assert PartitionMap(keys) == m';
        assert |m'| == |m| + 1;
        forall i | 0 <= i < |m'| ensures i in m'.Values {
          if i < |m| {
            assert i in m.Values;
            var x :| x in m && m[x] == i;
            assert m'[x] == i;
          } else {
            assert m'[k] == i;
          }
        }
      }
    }
  }

  /** No two keys share an index. */
  lemma {:induction false} PartitionMapInjective(keys: seq<string>)
    ensures var m := PartitionMap(keys);
      forall k, k' :: k in m && k' in m && k != k' ==> m[k] != m[k']
  {
    if |keys| > 0 {
      var init := keys[..|keys| - 1];
      PartitionMapInjective(init);
      PartitionMapDomain(init);
    }
  }

  /** Without repeated keys the `i`-th key gets `i`. */
  lemma {:induction false} PartitionMapIndex(keys: seq<string>)
    requires Distinct(keys)
    ensures var m := PartitionMap(keys);
      |m| == |keys| && forall i :: 0 <= i < |keys| ==> keys[i] in m && m[keys[i]] == i
  {
    if |keys| > 0 {
      var init := keys[..|keys| - 1];
      var k := keys[|keys| - 1];
      assert Distinct(init);
      PartitionMapIndex(init);
      var m := PartitionMap(init);
      assert k !in m by {
        PartitionMapDomain(init);
      }
      var m' := m[k := |m|];
      forall i | 0 <= i < |keys| ensures keys[i] in m' && m'[keys[i]] == i {
        if i < |init| {
          assert keys[i] == init[i] && keys[i] != k;
        }
      }
    }
  }

  /** Every key gets an index, the indexes are exactly `0 .. |m| - 1`, no two
      keys share one, and without repeated keys the `i`-th key gets `i`. */
  lemma PartitionMapDense(keys: seq<string>)
    ensures var m := PartitionMap(keys);
      && (forall k :: k in m <==> k in keys)
      && |m| <= |keys|
      && (forall k :: k in m ==> m[k] < |m|)
      && (forall i :: 0 <= i < |m| ==> i in m.Values)
      && (forall k, k' :: k in m && k' in m && k != k' ==> m[k] != m[k'])
      && (Distinct(keys) ==> |m| == |keys| && forall i :: 0 <= i < |keys| ==> m[keys[i]] == i)
  {
    PartitionMapDomain(keys);
    PartitionMapOnto(keys);
    PartitionMapInjective(keys);
    if Distinct(keys) {
      PartitionMapIndex(keys);
    }
  }

  /** `partitionFor`: the partition of the row's own feature set; `None` is
      the `null` an unsubscribed reference finds. */
  function PartitionFor(keys: seq<string>, row: FeatureRow): (r: Option<nat>)
    ensures r.None? <==> row.featureSet !in keys
    ensures r.Some? ==> r.value < |keys|
    ensures Distinct(keys) ==> forall i :: 0 <= i < |keys| && keys[i] == row.featureSet ==> r == Some(i)
    ensures Distinct(keys) && r.Some? ==> keys[r.value] == row.featureSet
  {
    var m := PartitionMap(keys);
    PartitionMapDense(keys);
    if row.featureSet in m then Some(m[row.featureSet]) else None
  }

  /** Rows meet in one partition only when they belong to one feature set. */
  lemma RoutingSeparates(keys: seq<string>, a: FeatureRow, b: FeatureRow)
    requires PartitionFor(keys, a).Some? && PartitionFor(keys, a) == PartitionFor(keys, b)
    ensures a.featureSet == b.featureSet
  {
    PartitionMapDense(keys);
  }

  // ---- The write branches ----

  /** `JdbcIO.DataSourceConfiguration`: an empty user name or password is
      passed as `null`. */
  datatype DataSource = DataSource(className: string, url: string, user: Option<string>, password: Option<string>)

  function DataSourceFor(config: JdbcConfig): (d: DataSource)
    ensures d.className == config.className && d.url == config.url
    ensures d.user.Some? <==> config.username != ""
    ensures d.password.Some? <==> config.password != ""
    ensures d.user.Some? ==> d.user.value == config.username
    ensures d.password.Some? ==> d.password.value == config.password
  {
    DataSource(
      config.className,
      config.url,
      if config.username != "" then Some(config.username) else None,
      if config.password != "" then Some(config.password) else None)
  }

  /** The writer passes credentials exactly when the sink connects with them;
      the password alone is dropped when it is empty. */
  lemma CredentialsAgree(config: JdbcConfig)
    ensures DataSourceFor(config).user.Some? <==> ConnectFor(config).WithCredentials?
    ensures config.username != "" && config.password == "" ==>
      ConnectFor(config).password == "" && DataSourceFor(config).password.None?
  {
  }

  /** The effective batch size: the configured one when positive, else 1. */
  function BatchSize(config: JdbcConfig): (n: int)
    ensures n >= 1
    ensures config.batchSize > 0 ==> n == config.batchSize
    ensures config.batchSize <= 0 ==> n == 1
  {
    if config.batchSize > 0 then config.batchSize else 1
  }

  /** One `WriteFeatureRowToJdbcIO-<ref>` branch. */
  datatype Branch = Branch(ref: string, partition: nat, statement: string, batchSize: int, source: DataSource)

  /** `keys` enumerates the subscribed references, each once. */
  ghost predicate Enumerates(keys: seq<string>, subscribed: map<string, FeatureSet>)
  {
    Distinct(keys) && forall k :: k in keys <==> k in subscribed
  }

  /** `expand`: one branch per subscribed reference, in key order, reading
      partition `i` for the `i`-th key and inserting with that feature set's
      statement. */
  function Branches(w: Writer, keys: seq<string>): (r: seq<Branch>)
    requires Enumerates(keys, w.subscribed)
    ensures |r| == |keys| == |w.subscribed|
    ensures forall i :: 0 <= i < |r| ==>
      && r[i].ref == keys[i]
      && r[i].partition == i
      && r[i].statement == w.templater.insertSql(w.subscribed[keys[i]].spec)
      && r[i].batchSize == BatchSize(w.config) >= 1
      && r[i].source == DataSourceFor(w.config)
  {
    var m := PartitionMap(keys);
    PartitionMapDense(keys);
    assert m.Keys == w.subscribed.Keys;
    seq(|keys|, i requires 0 <= i < |keys| =>
      Branch(keys[i], m[keys[i]], w.templater.insertSql(w.subscribed[keys[i]].spec),
        BatchSize(w.config), DataSourceFor(w.config)))
  }

  /** Every feature set registered through the sink has a partition in the
      writer built afterwards, and the branch reading that partition is its
      own: it carries its reference and inserts with its statement. */
  lemma RegisteredIsRouted(sink: Sink, fs: FeatureSet, db: JdbcDatabase.Database, keys: seq<string>, row: FeatureRow)
    requires Enumerates(keys, WriterOf(PrepareWrite(sink, fs, db).sink).subscribed)
    requires row.featureSet == FeatureSetRef(fs.spec)
    ensures PartitionFor(keys, row).Some?
    ensures var w := WriterOf(PrepareWrite(sink, fs, db).sink);
      var b := Branches(w, keys)[PartitionFor(keys, row).value];
      b.ref == row.featureSet && b.partition == PartitionFor(keys, row).value
      && b.statement == sink.templater.insertSql(fs.spec)
  {
    var w := WriterOf(PrepareWrite(sink, fs, db).sink);
    var p := PartitionFor(keys, row).value;
    assert keys[p] == row.featureSet;
    assert w.subscribed[keys[p]] == fs;
  }

  /** A failed row as reported by the write result. */
  datatype FailedElement = FailedElement(row: FeatureRow)

  datatype WriteResult = WriteResult(successful: seq<FeatureRow>, failed: seq<FailedElement>)

  /** The result of `expand`: its placeholder `DoFn`s emit nothing, so
      whatever the rows, both collections are empty. */
  function Expand(input: seq<FeatureRow>): (r: WriteResult)
    ensures |r.successful| == 0 && |r.failed| == 0
  {
    WriteResult([], [])
  }

  // ---- Binding one row ----

  /** The value a statement slot receives. */
  datatype Param =
    | TimestampParam(millis: int)
    | BytesParam(bytes: seq<bv8>)
    | StringParam(str: string)
    | IntParam(i: int)
    | LongParam(l: int)
    | FloatParam(f: FloatBits)
    | DoubleParam(d: FloatBits)
    | BooleanParam(b: bool)
    /** `setString` of the Base64 text of the serialized list. */
    | EncodedListParam(list: ListVal)
    /** The slot is left unbound; the failure was logged. */
    | Unbound

  /** `setPreparedStatementValue`: scalars bind natively, lists bind their
      encoded text, and an unset value binds nothing. */
  function BindValue(v: Value): (p: Param)
    ensures p.Unbound? <==> v.ValNotSet?
    ensures p.EncodedListParam? <==> v.ListValue?
  {
    match v
    case BytesVal(b) => BytesParam(b)
    case StringVal(s) => StringParam(s)
    case Int32Val(n) => IntParam(n)
    case Int64Val(n) => LongParam(n)
    case FloatVal(f) => FloatParam(f)
    case DoubleVal(d) => DoubleParam(d)
    case BoolVal(b) => BooleanParam(b)
    case ListValue(l) => EncodedListParam(l)
    case ValNotSet => Unbound
  }

  /** The value a bound slot carries. */
  function ParamValue(p: Param): Option<Value>
  {
    match p
    case BytesParam(b) => Some(BytesVal(b))
    case StringParam(s) => Some(StringVal(s))
    case IntParam(n) => Some(Int32Val(n))
    case LongParam(n) => Some(Int64Val(n))
    case FloatParam(f) => Some(FloatVal(f))
    case DoubleParam(d) => Some(DoubleVal(d))
    case BooleanParam(b) => Some(BoolVal(b))
    case EncodedListParam(l) => Some(ListValue(l))
    case _ => None
  }

  /** No set value is lost in binding. */
  lemma BindValueRoundTrip(v: Value)
    ensures ParamValue(BindValue(v)) == if v.ValNotSet? then None else Some(v)
  {
  }

  predicate DistinctNames(fields: seq<Field>)
  {
    forall i, j :: 0 <= i < j < |fields| ==> fields[i].name != fields[j].name
  }

  /** `Collectors.toMap(name, value)`: a repeated name throws. */
  function FieldMap(fields: seq<Field>): (r: Result<map<string, Value>, Error>)
    ensures r.Err? ==> r.error.DuplicateFieldName?
  {
    if |fields| == 0 then Ok(map[])
    else
      var f := fields[|fields| - 1];
      var m :- FieldMap(fields[..|fields| - 1]);
      if f.name in m then Err(DuplicateFieldName(f.name)) else Ok(m[f.name := f.value])
  }

  /** The map exists exactly when no name repeats, and then holds each field
      and nothing else. */
  lemma {:induction false} FieldMapEntries(fields: seq<Field>)
    ensures FieldMap(fields).Ok? <==> DistinctNames(fields)
    ensures FieldMap(fields).Ok? ==>
      forall i :: 0 <= i < |fields| ==>
        fields[i].name in FieldMap(fields).value && FieldMap(fields).value[fields[i].name] == fields[i].value
    ensures FieldMap(fields).Ok? ==>
      forall k :: k in FieldMap(fields).value ==> exists i :: 0 <= i < |fields| && fields[i].name == k
  {
    if |fields| > 0 {
      var init := fields[..|fields| - 1];
      var f := fields[|fields| - 1];
      assert forall i :: 0 <= i < |init| ==> init[i] == fields[i];
      FieldMapEntries(init);
      var r := FieldMap(init);
      if r.Ok? {
        if f.name in r.value {
          var i :| 0 <= i < |init| && init[i].name == f.name;
          assert fields[i].name == fields[|fields| - 1].name;
        } else {
          assert FieldMap(fields) == Ok(r.value[f.name := f.value]);
        }
      } else {
        assert !DistinctNames(init);
      }
    }
  }

  /** The entity slots: each entity's field, in spec order; the first entity
      without a field aborts the row. */
  function EntityParams(es: seq<EntitySpec>, fields: map<string, Value>): (r: Result<seq<Param>, Error>)
    ensures r.Ok? <==> forall i :: 0 <= i < |es| ==> es[i].name in fields
    ensures r.Ok? ==> |r.value| == |es| && forall i :: 0 <= i < |es| ==> r.value[i] == BindValue(fields[es[i].name])
    ensures r.Err? ==>
      exists i :: 0 <= i < |es| && es[i].name !in fields && r.error == MissingEntityValue(es[i].name)
        && forall j :: 0 <= j < i ==> es[j].name in fields
  {
    if |es| == 0 then Ok([])
    else if es[0].name !in fields then Err(MissingEntityValue(es[0].name))
    else
      var rest :- EntityParams(es[1..], fields);
      assert forall i :: 1 <= i < |es| ==> es[i] == es[1..][i - 1];
      Ok([BindValue(fields[es[0].name])] + rest)
  }

  /** The feature slots: a feature without a field binds the default value,
      which is unset, so its slot stays unbound. */
  function FeatureParams(fs: seq<FeatureSpec>, fields: map<string, Value>): (r: seq<Param>)
    ensures |r| == |fs|
    ensures forall i :: 0 <= i < |fs| ==> (r[i].Unbound? <==> fs[i].name !in fields || fields[fs[i].name].ValNotSet?)
    ensures forall i :: 0 <= i < |fs| && fs[i].name in fields ==> r[i] == BindValue(fields[fs[i].name])
  {
    seq(|fs|, i requires 0 <= i < |fs| => BindValue(if fs[i].name in fields then fields[fs[i].name] else ValNotSet))
  }

  /** `setParameters` for one row, positions counted from 1: the event time
      in milliseconds, the creation time, the entities, the ingestion id, the
      job name, then the features (see `SetParametersSlots`). `nowMillis` is
      the clock reading. The row fails on a repeated field name or a missing
      entity; a missing feature only leaves its slot unbound. */
  function SetParameters(row: FeatureRow, spec: FeatureSetSpec, jobName: string, nowMillis: int): (r: Result<seq<Param>, Error>)
    ensures r.Ok? <==>
      FieldMap(row.fields).Ok?
      && forall i :: 0 <= i < |spec.entities| ==> spec.entities[i].name in FieldMap(row.fields).value
    ensures !DistinctNames(row.fields) ==> r.Err? && r.error.DuplicateFieldName?
    ensures r.Ok? ==> |r.value| == 4 + |spec.entities| + |spec.features|
  {
    FieldMapEntries(row.fields);
    var fm :- FieldMap(row.fields);
    var entities :- EntityParams(spec.entities, fm);
    Ok([TimestampParam(row.eventTimestamp.seconds * 1000), TimestampParam(nowMillis)]
      + entities + [StringParam(row.ingestionId), StringParam(jobName)]
      + FeatureParams(spec.features, fm))
  }

  /** What each slot of a bound row holds. */
  lemma SetParametersSlots(row: FeatureRow, spec: FeatureSetSpec, jobName: string, nowMillis: int)
    requires SetParameters(row, spec, jobName, nowMillis).Ok?
    ensures var fm := FieldMap(row.fields).value;
      var p := SetParameters(row, spec, jobName, nowMillis).value;
      var e := |spec.entities|;
      && p[0] == TimestampParam(row.eventTimestamp.seconds * 1000)
      && p[1] == TimestampParam(nowMillis)
      && (forall j :: 0 <= j < e ==> spec.entities[j].name in fm && p[2 + j] == BindValue(fm[spec.entities[j].name]))
      && p[2 + e] == StringParam(row.ingestionId)
      && p[3 + e] == StringParam(jobName)
      && (forall j :: 0 <= j < |spec.features| ==>
            p[4 + e + j] == BindValue(if spec.features[j].name in fm then fm[spec.features[j].name] else ValNotSet))
  {
    var fm := FieldMap(row.fields).value;
    var entities := EntityParams(spec.entities, fm).value;
    var features := FeatureParams(spec.features, fm);
    var stamps := [TimestampParam(row.eventTimestamp.seconds * 1000), TimestampParam(nowMillis)];
    var job := [StringParam(row.ingestionId), StringParam(jobName)];
    assert SetParameters(row, spec, jobName, nowMillis).value == stamps + entities + job + features;
    FourParts(stamps, entities, job, features);
  }

  /** Positions in a concatenation of four sequences. */
  lemma {:induction false} FourParts<T>(a: seq<T>, b: seq<T>, c: seq<T>, d: seq<T>)
    ensures var s := a + b + c + d;
      && |s| == |a| + |b| + |c| + |d|
      && (forall j :: 0 <= j < |a| ==> s[j] == a[j])
      && (forall j :: 0 <= j < |b| ==> s[|a| + j] == b[j])
      && (forall j :: 0 <= j < |c| ==> s[|a| + |b| + j] == c[j])
      && (forall j :: 0 <= j < |d| ==> s[|a| + |b| + |c| + j] == d[j])
  {
    var s := a + b + c + d;
    forall j | 0 <= j < |b| ensures s[|a| + j] == b[j] {
      assert s == a + (b + c + d);
    }
    forall j | 0 <= j < |c| ensures s[|a| + |b| + j] == c[j] {
      assert s == (a + b) + (c + d);
    }
  }

  /** The names of the `put` calls: the two timestamps, the entities, the two
      job columns and the features. */
  lemma PutNames(spec: FeatureSetSpec)
    ensures var puts := Pg.ColumnPuts(spec);
            var e := |spec.entities|;
            && |puts| == 4 + e + |spec.features|
            && puts[0].0 == "event_timestamp" && puts[1].0 == "created_timestamp"
            && puts[2 + e].0 == "ingestion_id" && puts[3 + e].0 == "job_id"
            && (forall j :: 0 <= j < e ==> puts[2 + j].0 == spec.entities[j].name)
            && (forall j :: 0 <= j < |spec.features| ==> puts[4 + e + j].0 == spec.features[j].name)
  {
    var es := Pg.EntityPuts(spec.entities);
    var fs := Pg.FeaturePuts(spec.features);
    FourParts(Pg.Timestamps, es, Pg.JobColumns, fs);
  }


  lemma PutKeys(spec: FeatureSetSpec)
    ensures var cols := Keys(Pg.ColumnPuts(spec));
            var e := |spec.entities|;
            && |cols| == 4 + e + |spec.features|
            && cols[0] == "event_timestamp" && cols[1] == "created_timestamp"
            && cols[2 + e] == "ingestion_id" && cols[3 + e] == "job_id"
            && (forall j :: 0 <= j < e ==> cols[2 + j] == spec.entities[j].name)
            && (forall j :: 0 <= j < |spec.features| ==> cols[4 + e + j] == spec.features[j].name)
  {
    PutNames(spec);
  }

  /** Without repeated names, the PostgreSQL insert columns are the names of
      the `put` calls, in call order. */
  lemma InsertColumnNames(spec: FeatureSetSpec)
    requires DistinctKeys(Pg.ColumnPuts(spec))
    ensures var cols := Keys(Pg.RequiredColumns(spec));
            var e := |spec.entities|;
            && |cols| == 4 + e + |spec.features|
            && cols[0] == "event_timestamp" && cols[1] == "created_timestamp"
            && cols[2 + e] == "ingestion_id" && cols[3 + e] == "job_id"
            && (forall j :: 0 <= j < e ==> cols[2 + j] == spec.entities[j].name)
            && (forall j :: 0 <= j < |spec.features| ==> cols[4 + e + j] == spec.features[j].name)
  {
    PutAllDistinct(Pg.ColumnPuts(spec));
    PutKeys(spec);
  }

  /** The value a slot should carry, read off the name of its column. */
  function ValueByName(c: string, row: FeatureRow, jobName: string, nowMillis: int, fm: map<string, Value>): Param
  {
    if c == "event_timestamp" then TimestampParam(row.eventTimestamp.seconds * 1000)
    else if c == "created_timestamp" then TimestampParam(nowMillis)
    else if c == "ingestion_id" then StringParam(row.ingestionId)
    else if c == "job_id" then StringParam(jobName)
    else BindValue(if c in fm then fm[c] else ValNotSet)
  }

  /** With no repeated column name the PostgreSQL insert has one `?` per
      slot, and every slot carries the value its column names. */
  lemma SlotsMatchInsertColumns(row: FeatureRow, spec: FeatureSetSpec, jobName: string, nowMillis: int)
    requires DistinctKeys(Pg.ColumnPuts(spec))
    requires SetParameters(row, spec, jobName, nowMillis).Ok?
    ensures var cols := Keys(Pg.RequiredColumns(spec));
            var p := SetParameters(row, spec, jobName, nowMillis).value;
            && |cols| == |p|
            && forall j :: 0 <= j < |p| ==>
                 p[j] == ValueByName(cols[j], row, jobName, nowMillis, FieldMap(row.fields).value)
  {
    InsertColumnNames(spec);
    var p := SetParameters(row, spec, jobName, nowMillis).value;
    var e := |spec.entities|;
    forall j | 0 <= j < |p|
      ensures p[j] == ValueByName(Keys(Pg.RequiredColumns(spec))[j], row, jobName, nowMillis, FieldMap(row.fields).value)
    {
      if 2 <= j < 2 + e {
        EntitySlotMatches(row, spec, jobName, nowMillis, j);
      } else if 4 + e <= j {
        FeatureSlotMatches(row, spec, jobName, nowMillis, j);
      } else {
        FixedSlotMatches(row, spec, jobName, nowMillis, j);
      }
    }
  }

  lemma FixedSlotMatches(row: FeatureRow, spec: FeatureSetSpec, jobName: string, nowMillis: int, j: nat)
    requires DistinctKeys(Pg.ColumnPuts(spec))
    requires SetParameters(row, spec, jobName, nowMillis).Ok?
    requires j < 2 || j == 2 + |spec.entities| || j == 3 + |spec.entities|
    ensures j < |Keys(Pg.RequiredColumns(spec))|
      && SetParameters(row, spec, jobName, nowMillis).value[j]
         == ValueByName(Keys(Pg.RequiredColumns(spec))[j], row, jobName, nowMillis, FieldMap(row.fields).value)
  {
    InsertColumnNames(spec);
    SetParametersSlots(row, spec, jobName, nowMillis);
  }

  lemma EntitySlotMatches(row: FeatureRow, spec: FeatureSetSpec, jobName: string, nowMillis: int, j: nat)
    requires DistinctKeys(Pg.ColumnPuts(spec))
    requires SetParameters(row, spec, jobName, nowMillis).Ok?
    requires 2 <= j < 2 + |spec.entities|
    ensures j < |Keys(Pg.RequiredColumns(spec))|
      && SetParameters(row, spec, jobName, nowMillis).value[j]
         == ValueByName(Keys(Pg.RequiredColumns(spec))[j], row, jobName, nowMillis, FieldMap(row.fields).value)
  {
    InsertColumnNames(spec);
    var i := j - 2;
    var name := spec.entities[i].name;
    assert Keys(Pg.RequiredColumns(spec))[2 + i] == name;
    assert NotFixedName(name) by {
      FixedNamesAvoided(spec, j);
      PutNames(spec);
    }
    SetParametersSlots(row, spec, jobName, nowMillis);
    assert SetParameters(row, spec, jobName, nowMillis).value[2 + i] == BindValue(FieldMap(row.fields).value[name]);
  }

  lemma FeatureSlotMatches(row: FeatureRow, spec: FeatureSetSpec, jobName: string, nowMillis: int, j: nat)
    requires DistinctKeys(Pg.ColumnPuts(spec))
    requires SetParameters(row, spec, jobName, nowMillis).Ok?
    requires 4 + |spec.entities| <= j < 4 + |spec.entities| + |spec.features|
    ensures j < |Keys(Pg.RequiredColumns(spec))|
      && SetParameters(row, spec, jobName, nowMillis).value[j]
         == ValueByName(Keys(Pg.RequiredColumns(spec))[j], row, jobName, nowMillis, FieldMap(row.fields).value)
  {
    var name := spec.features[j - 4 - |spec.entities|].name;
    var fm := FieldMap(row.fields).value;
    FeatureColumnName(spec, j);
    FeatureSlotValue(row, spec, jobName, nowMillis, j);
    OtherNameValue(SetParameters(row, spec, jobName, nowMillis).value[j], name, row, jobName, nowMillis, fm);
  }

  /** The insert's `j`-th column, past the fixed and entity columns, is a
      feature's name, and not one of the fixed names. */
  lemma FeatureColumnName(spec: FeatureSetSpec, j: nat)
    requires DistinctKeys(Pg.ColumnPuts(spec))
    requires 4 + |spec.entities| <= j < 4 + |spec.entities| + |spec.features|
    ensures var name := spec.features[j - 4 - |spec.entities|].name;
      j < |Keys(Pg.RequiredColumns(spec))| && Keys(Pg.RequiredColumns(spec))[j] == name && NotFixedName(name)
  {
    InsertColumnNames(spec);
    FixedNamesAvoided(spec, j);
    PutNames(spec);
  }

  /** The `j`-th slot, past the fixed and entity slots, carries the
      feature's field. */
  lemma FeatureSlotValue(row: FeatureRow, spec: FeatureSetSpec, jobName: string, nowMillis: int, j: nat)
    requires SetParameters(row, spec, jobName, nowMillis).Ok?
    requires 4 + |spec.entities| <= j < 4 + |spec.entities| + |spec.features|
    ensures var name := spec.features[j - 4 - |spec.entities|].name;
      var fm := FieldMap(row.fields).value;
      var p := SetParameters(row, spec, jobName, nowMillis).value;
      j < |p| && p[j] == BindValue(if name in fm then fm[name] else ValNotSet)
  {
    SetParametersSlots(row, spec, jobName, nowMillis);
    assert j == 4 + |spec.entities| + (j - 4 - |spec.entities|);
  }

  /** A column other than the four fixed ones is read from the row's
      fields. */
  lemma OtherNameValue(v: Param, c: string, row: FeatureRow, jobName: string, nowMillis: int, fm: map<string, Value>)
    requires NotFixedName(c)
    requires v == BindValue(if c in fm then fm[c] else ValNotSet)
    ensures v == ValueByName(c, row, jobName, nowMillis, fm)
  {
  }

  /** Entity and feature names differ from the four fixed column names. */
  predicate NotFixedName(c: string)
  {
    c != "event_timestamp" && c != "created_timestamp" && c != "ingestion_id" && c != "job_id"
  }

  lemma FixedNamesAvoided(spec: FeatureSetSpec, j: nat)
    requires DistinctKeys(Pg.ColumnPuts(spec))
    requires 2 <= j < 2 + |spec.entities| || 4 + |spec.entities| <= j < 4 + |spec.entities| + |spec.features|
    ensures NotFixedName(Pg.ColumnPuts(spec)[j].0)
  {
    PutNames(spec);
  }
}
