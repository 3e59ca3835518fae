/** SQL text for historical retrieval from a relational store: the query
    infos projected from feature-set requests, the staging table for the
    entity rows, the statement that loads one entity file into it and the
    timestamp-bound query. The point-in-time and join queries come from
    template files and are parameters of the retriever instead. */
module QueryTemplater {
  import opened Wrappers
  import opened Strings
  import opened Sorting
  import opened OrderedMap
  import opened FeastTypes

  /** A feature requested by the caller; only carried along. */
  datatype FeatureReference = FeatureReference(project: string, featureSet: string, name: string)

  datatype FeatureSetRequest = FeatureSetRequest(spec: FeatureSetSpec, featureRefs: seq<FeatureReference>)

  /** What the query templates need about one requested feature set. `table`
      is the feature set's table; `joinedTable` is set once its point-in-time
      table has been materialised. */
  datatype FeatureSetQueryInfo = FeatureSetQueryInfo(
    project: string,
    name: string,
    maxAgeSeconds: int,
    entities: seq<string>,
    features: seq<FeatureReference>,
    table: string,
    joinedTable: Option<string>)

  // ---- Query infos ----

  function InfoOf(req: FeatureSetRequest, tableOf: (string, string) -> string): FeatureSetQueryInfo
  {
    var spec := req.spec;
    FeatureSetQueryInfo(spec.project, spec.name, spec.maxAge.seconds, EntityNames(spec),
                        req.featureRefs, tableOf(spec.project, spec.name), None)
  }

  /** One info per request, in request order. `tableOf` is the feature-set
      table naming, which is not part of this model. */
  function FeatureSetInfos(reqs: seq<FeatureSetRequest>, tableOf: (string, string) -> string): (r: seq<FeatureSetQueryInfo>)
    ensures |r| == |reqs|
    ensures forall i :: 0 <= i < |reqs| ==>
      && r[i].project == reqs[i].spec.project
      && r[i].name == reqs[i].spec.name
      && r[i].maxAgeSeconds == reqs[i].spec.maxAge.seconds
      && r[i].entities == EntityNames(reqs[i].spec)
      && r[i].features == reqs[i].featureRefs
      && r[i].joinedTable.None?
  {
    seq(|reqs|, i requires 0 <= i < |reqs| => InfoOf(reqs[i], tableOf))
  }

  /** Only the whole seconds of the maximum age reach the info: two requests
      whose specifications differ only in the nanoseconds of the maximum age
      give the same infos. */
  lemma InfosDropNanos(reqs: seq<FeatureSetRequest>, reqs': seq<FeatureSetRequest>, tableOf: (string, string) -> string)
    requires |reqs| == |reqs'|
    requires forall i :: 0 <= i < |reqs| ==>
      && reqs'[i].featureRefs == reqs[i].featureRefs
      && reqs'[i].spec == reqs[i].spec.(maxAge := Duration(reqs[i].spec.maxAge.seconds, reqs'[i].spec.maxAge.nanos))
    ensures FeatureSetInfos(reqs, tableOf) == FeatureSetInfos(reqs', tableOf)
  {
    var a := FeatureSetInfos(reqs, tableOf);
    var b := FeatureSetInfos(reqs', tableOf);
    forall i | 0 <= i < |reqs| ensures a[i] == b[i] {
      assert EntityNames(reqs[i].spec) == EntityNames(reqs'[i].spec);
    }
  }

  // ---- Timestamp bounds ----

  const BoundsPrefix := "SELECT max(event_timestamp) as max, min(event_timestamp) as min from "

  /** The query for the latest and earliest event timestamps of `table`. */
  function TimestampLimitQuery(table: string): (r: string)
    ensures StripPrefix(r, BoundsPrefix) == Some(table)
  {
    StripPrefixConcat(BoundsPrefix, table);
    BoundsPrefix + table
  }

  // ---- Staging table ----

  /** An entity column of the staging table, qualified by the table of the
      feature set that contributed it. */
  datatype QualifiedColumn = QualifiedColumn(table: string, entity: string)

  /** `table.entity`. */
  function ColumnText(c: QualifiedColumn): string
  {
    c.table + "." + c.entity
  }

  function EntityOf(c: QualifiedColumn): string
  {
    c.entity
  }

  function InfoColumns(info: FeatureSetQueryInfo): (r: seq<QualifiedColumn>)
    ensures |r| == |info.entities|
    ensures forall i :: 0 <= i < |r| ==> r[i] == QualifiedColumn(info.table, info.entities[i])
  {
    seq(|info.entities|, i requires 0 <= i < |info.entities| => QualifiedColumn(info.table, info.entities[i]))
  }

  /** Every entity of every info qualified by that info's table, in loop
      order. */
  function Candidates(infos: seq<FeatureSetQueryInfo>): seq<QualifiedColumn>
  {
    if |infos| == 0 then []
    else Candidates(infos[..|infos| - 1]) + InfoColumns(infos[|infos| - 1])
  }

  /** The loop over the candidates that keeps a column only when its entity
      has not been seen yet. */
  function FirstPerEntity(cols: seq<QualifiedColumn>): seq<QualifiedColumn>
  {
    if |cols| == 0 then []
    else
      var kept := FirstPerEntity(cols[..|cols| - 1]);
      var c := cols[|cols| - 1];
      if c.entity in KeysOf(kept, EntityOf) then kept else kept + [c]
  }

  /** The de-duplicated entity columns, before sorting. */
  function EntityColumns(infos: seq<FeatureSetQueryInfo>): seq<QualifiedColumn>
  {
    FirstPerEntity(Candidates(infos))
  }

  lemma {:induction false} KeysOfSnoc(cols: seq<QualifiedColumn>, c: QualifiedColumn)
    ensures KeysOf(cols + [c], EntityOf) == KeysOf(cols, EntityOf) + [c.entity]
  {
    var a := KeysOf(cols + [c], EntityOf);
    var b := KeysOf(cols, EntityOf) + [c.entity];
    assert |a| == |b|;
    forall i | 0 <= i < |a| ensures a[i] == b[i] {
      if i < |cols| { assert (cols + [c])[i] == cols[i]; }
    }
  }

  /** Each entity is kept once, in the order of its first appearance among
      the candidates. */
  lemma {:induction false} FirstPerEntityOrder(cols: seq<QualifiedColumn>)
    ensures FirstOccurrenceOrder(KeysOf(cols, EntityOf), KeysOf(FirstPerEntity(cols), EntityOf))
  {
    if |cols| > 0 {
      var init := cols[..|cols| - 1];
      var c := cols[|cols| - 1];
      var kept := FirstPerEntity(init);
      var ks := KeysOf(init, EntityOf);
      var rs := KeysOf(kept, EntityOf);
      assert KeysOf(cols, EntityOf) == ks + [c.entity] by {
        assert init + [c] == cols;
        KeysOfSnoc(init, c);
      }
      assert KeysOf(FirstPerEntity(cols), EntityOf) == if c.entity in rs then rs else rs + [c.entity] by {
        if c.entity !in rs {
          KeysOfSnoc(kept, c);
        }
      }
      FirstPerEntityOrder(init);
      FirstOccurrenceStep(ks, c.entity, rs);
    }
  }


  /** Each kept column is the first candidate with its entity, so it carries
      the table of the first feature set that lists the entity. */
  lemma {:induction false} FirstPerEntityTables(cols: seq<QualifiedColumn>)
    ensures forall c :: c in FirstPerEntity(cols) ==>
      c.entity in KeysOf(cols, EntityOf) && c == cols[FirstIndex(KeysOf(cols, EntityOf), c.entity)]
  {
    if |cols| > 0 {
      var init := cols[..|cols| - 1];
      var last := cols[|cols| - 1];
      var kept := FirstPerEntity(init);
      FirstPerEntityTables(init);
      FirstPerEntityOrder(init);
      KeysOfSnoc(init, last);
      assert init + [last] == cols;
      var ks := KeysOf(cols, EntityOf);
      forall c | c in FirstPerEntity(cols)
        ensures c.entity in ks && c == cols[FirstIndex(ks, c.entity)]
      {
        if c in kept {
          FirstIndexPrefix(KeysOf(init, EntityOf), [last.entity], c.entity);
        } else {
          assert c == last;
          assert last.entity !in KeysOf(init, EntityOf);
          assert ks[|cols| - 1] == last.entity;
        }
      }
    }
  }

  // ---- Sorting the staging columns ----

  /** True for a non-empty string made of dots only: Java's
      `split("\\.")` returns an empty array for it. */
  predicate AllDots(s: string)
  {
    |s| > 0 && forall i :: 0 <= i < |s| ==> s[i] == '.'
  }

  /** `s.split("\\.")[0]` where the array is not empty: the text before the
      first dot, or all of `s` when it has none. */
  function DotHead(s: string): string
  {
    match CutAt(s, '.')
    case Some(p) => p.0
    case None => s
  }

  /** The sort key of the source: the qualifier of the column text. */
  function QualifierKey(c: QualifiedColumn): string
  {
    DotHead(ColumnText(c))
  }

  /** For a table name without dots the sort key is the table name. */
  lemma QualifierKeyIsTable(c: QualifiedColumn)
    requires '.' !in c.table
    ensures QualifierKey(c) == c.table
  {
    CutAtJoin(c.table, '.', c.entity);
  }

  /** The sort as the source writes it: a stable sort of the columns by table
      qualifier. The comparator is called only for two or more columns, and
      then on every column, so a column whose text is all dots makes the sort
      fail. */
  function SortByQualifier(cols: seq<QualifiedColumn>): (r: Result<seq<QualifiedColumn>, Error>)
    ensures r.Err? <==> |cols| >= 2 && exists i :: 0 <= i < |cols| && AllDots(ColumnText(cols[i]))
    ensures r.Ok? ==> multiset(r.value) == multiset(cols) && SortedBy(r.value, QualifierKey)
  {
    if |cols| >= 2 && exists i :: 0 <= i < |cols| && AllDots(ColumnText(cols[i])) then
      Err(EmptySplitResult)
    else
      SortByPermutes(cols, QualifierKey);
      SortByIsSorted(cols, QualifierKey);
      Ok(SortBy(cols, QualifierKey))
  }

  /** The sort the staging table needs: by entity name, the order in which
      the entity file lists its columns. It cannot fail. */
  function SortByEntity(cols: seq<QualifiedColumn>): (r: seq<QualifiedColumn>)
    ensures multiset(r) == multiset(cols)
    ensures SortedBy(r, EntityOf)
    ensures KeysOf(r, EntityOf) == SortStrings(KeysOf(cols, EntityOf))
  {
    SortByPermutes(cols, EntityOf);
    SortByIsSorted(cols, EntityOf);
    KeysOfSortBy(cols, EntityOf);
    SortBy(cols, EntityOf)
  }

  /** Stability of the source's sort: the columns contributed under one
      table qualifier keep their relative order. */
  lemma QualifierSortStable(cols: seq<QualifiedColumn>, k: string)
    requires SortByQualifier(cols).Ok?
    ensures FilterKey(SortByQualifier(cols).value, QualifierKey, k) == FilterKey(cols, QualifierKey, k)
  {
    SortByStable(cols, QualifierKey, k);
  }

  // ---- The staging statement ----

  /** `CREATE TABLE "dest" AS (SELECT select FROM from WHERE 1 = 2); ALTER
      TABLE "dest" ADD COLUMN event_timestamp TIMESTAMP, ADD COLUMN
      row_number SERIAL;` */
  function StagingSql(dest: string, select: string, from: string): string
  {
    "CREATE TABLE \"" + dest + "\" AS (SELECT " + select + " FROM " + from + " WHERE 1 = 2"
      + "); ALTER TABLE \"" + dest + StagingTail
  }

  /** The staging statement for the given column texts and tables, joined by
      ", " and " CROSS JOIN ". */
  function StagingText(dest: string, columns: seq<string>, tables: seq<string>): string
  {
    StagingSql(dest, Join(columns, ", "), Join(tables, " CROSS JOIN "))
  }

  function ColumnTexts(cols: seq<QualifiedColumn>): (r: seq<string>)
    ensures |r| == |cols|
    ensures forall i :: 0 <= i < |cols| ==> r[i] == ColumnText(cols[i])
  {
    seq(|cols|, i requires 0 <= i < |cols| => ColumnText(cols[i]))
  }

  /** Every info's table, in request order, repeats included. */
  function Tables(infos: seq<FeatureSetQueryInfo>): (r: seq<string>)
    ensures |r| == |infos|
    ensures forall i :: 0 <= i < |infos| ==> r[i] == infos[i].table
  {
    seq(|infos|, i requires 0 <= i < |infos| => infos[i].table)
  }

  /** The staging statement as the source builds it, with the columns sorted
      by table qualifier. */
  function EntityTableRowCountQuery(dest: string, infos: seq<FeatureSetQueryInfo>): (r: Result<string, Error>)
    ensures r.Err? <==> SortByQualifier(EntityColumns(infos)).Err?
  {
    var sorted :- SortByQualifier(EntityColumns(infos));
    Ok(StagingText(dest, ColumnTexts(sorted), Tables(infos)))
  }

  /** The corrected staging statement: the columns sorted by entity name,
      the order the CSV files are written in. */
  function StagingTableQuery(dest: string, infos: seq<FeatureSetQueryInfo>): string
  {
    StagingText(dest, ColumnTexts(StagingColumns(infos)), Tables(infos))
  }

  function StagingColumns(infos: seq<FeatureSetQueryInfo>): seq<QualifiedColumn>
  {
    SortByEntity(EntityColumns(infos))
  }

  /** The entity names of the staging table, in column order. */
  function StagingEntityNames(infos: seq<FeatureSetQueryInfo>): seq<string>
  {
    KeysOf(StagingColumns(infos), EntityOf)
  }

  /** The staging table holds each entity of the requested feature sets once,
      in ascending name order, qualified by the table of the first feature set
      that lists it. */
  lemma StagingColumnsShape(infos: seq<FeatureSetQueryInfo>)
    ensures Sorted(StagingEntityNames(infos))
    ensures Distinct(StagingEntityNames(infos))
    ensures forall e :: e in StagingEntityNames(infos) <==> e in KeysOf(Candidates(infos), EntityOf)
    ensures forall c :: c in StagingColumns(infos) ==>
      c == Candidates(infos)[FirstIndex(KeysOf(Candidates(infos), EntityOf), c.entity)]
  {
    var cols := Candidates(infos);
    var kept := EntityColumns(infos);
    var names := StagingEntityNames(infos);
    FirstPerEntityOrder(cols);
    FirstPerEntityTables(cols);
    assert multiset(names) == multiset(KeysOf(kept, EntityOf));
    forall e ensures e in names <==> e in KeysOf(kept, EntityOf) {
      assert e in names <==> e in multiset(names);
    }
    DistinctByMultiset(KeysOf(kept, EntityOf), names);
    forall c | c in StagingColumns(infos) ensures c in kept {
      assert c in multiset(StagingColumns(infos));
    }
  }

  /** A rearrangement of a sequence without repeats has no repeats. */
  lemma DistinctByMultiset(a: seq<string>, b: seq<string>)
    requires Distinct(a) && multiset(a) == multiset(b)
    ensures Distinct(b)
  {
    forall x | x in multiset(a) ensures multiset(a)[x] == 1 {
      DistinctCount(a, x);
    }
    forall i, j | 0 <= i < j < |b| ensures b[i] != b[j] {
      if b[i] == b[j] {
        RepeatCounts(b, i, j);
      }
    }
  }

  /** An element at two positions occurs at least twice. */
  lemma RepeatCounts(b: seq<string>, i: int, j: int)
    requires 0 <= i < j < |b| && b[i] == b[j]
    ensures multiset(b)[b[i]] >= 2
  {
    assert b == b[..j] + [b[j]] + b[j + 1..];
    assert b[..j] == b[..i] + [b[i]] + b[i + 1..j];
  }

  // ---- Reading the staging statement back ----

  const StagingTail := "\" ADD COLUMN event_timestamp TIMESTAMP, ADD COLUMN row_number SERIAL;"

  /** Splits the select list (", "-separated) from the from list
      (" CROSS JOIN "-separated). */
  function ParseSelectFrom(s: string): Option<(seq<string>, seq<string>)>
  {
    var pieces := Split(s, ", ");
    var last :- CutAt(pieces[|pieces| - 1], ' ');
    var from :- StripPrefix(last.1, "FROM ");
    Some((pieces[..|pieces| - 1] + [last.0], Split(from, " CROSS JOIN ")))
  }

  /** Reads a staging statement back into the destination table and the
      text between `SELECT ` and ` WHERE`. The second statement must name the
      same destination. */
  function ParseStagingSql(sql: string): Option<(string, string)>
  {
    var a :- StripPrefix(sql, "CREATE TABLE \"");
    var p :- Cut(a, "\" AS (SELECT ");
    var q :- Cut(p.1, "); ALTER TABLE \"");
    var body :- StripSuffix(q.0, " WHERE 1 = 2");
    var dest2 :- StripSuffix(q.1, StagingTail);
    if dest2 != p.0 then None else Some((p.0, body))
  }

  /** Reads a staging statement back into the destination table, the select
      list and the from list. */
  function ParseStaging(sql: string): Option<(string, seq<string>, seq<string>)>
  {
    var t :- ParseStagingSql(sql);
    var sf :- ParseSelectFrom(t.1);
    Some((t.0, sf.0, sf.1))
  }

  /** A name the statements can carry unquoted and read back: no blank,
      comma, parenthesis, double quote or dot. */
  predicate PlainIdent(s: string)
  {
    ' ' !in s && ',' !in s && '(' !in s && ')' !in s && '"' !in s && ';' !in s && '.' !in s
  }

  lemma SelectFromParses(columns: seq<string>, tables: seq<string>)
    requires |columns| > 0 && |tables| > 0
    requires forall i :: 0 <= i < |columns| ==> ',' !in columns[i] && ' ' !in columns[i]
    requires forall i :: 0 <= i < |tables| ==> PlainIdent(tables[i])
    ensures ParseSelectFrom(Join(columns, ", ") + " FROM " + Join(tables, " CROSS JOIN "))
         == Some((columns, tables))
  {
    var from := Join(tables, " CROSS JOIN ");
    var rest := "FROM " + from;
    var n := |columns|;
    var last := columns[n - 1];
    var pieces := SelectPieces(columns, rest);
    var s := Join(columns, ", ") + " FROM " + from;
    assert Split(s, ", ") == pieces by {
      SelectPiecesJoin(columns, tables);
      SelectPiecesSplit(columns, tables);
    }
    assert pieces[|pieces| - 1] == last + [' '] + rest;
    CutAtJoin(last, ' ', rest);
    StripPrefixConcat("FROM ", from);
    SplitJoin(tables, " CROSS JOIN ");
    assert pieces[..|pieces| - 1] + [last] == columns;
  }

  /** The select list with the from clause glued to its last column. */
  function SelectPieces(columns: seq<string>, rest: string): seq<string>
    requires |columns| > 0
  {
    columns[..|columns| - 1] + [columns[|columns| - 1] + [' '] + rest]
  }

  lemma SelectPiecesJoin(columns: seq<string>, tables: seq<string>)
    requires |columns| > 0
    ensures Join(SelectPieces(columns, "FROM " + Join(tables, " CROSS JOIN ")), ", ")
         == Join(columns, ", ") + " FROM " + Join(tables, " CROSS JOIN ")
  {
    var from := Join(tables, " CROSS JOIN ");
    var last := columns[|columns| - 1];
    var t := " FROM " + from;
    assert SelectPieces(columns, "FROM " + from) == columns[..|columns| - 1] + [last + t] by {
      assert [' '] + ("FROM " + from) == t;
      assert last + [' '] + ("FROM " + from) == last + t;
    }
    JoinExtendLast(columns, ", ", t);
  }

  lemma SelectPiecesSplit(columns: seq<string>, tables: seq<string>)
    requires |columns| > 0
    requires forall i :: 0 <= i < |columns| ==> ',' !in columns[i]
    requires forall i :: 0 <= i < |tables| ==> PlainIdent(tables[i])
    ensures Split(Join(SelectPieces(columns, "FROM " + Join(tables, " CROSS JOIN ")), ", "), ", ")
         == SelectPieces(columns, "FROM " + Join(tables, " CROSS JOIN "))
  {
    SelectPiecesAvoid(columns, tables);
    SplitJoin(SelectPieces(columns, "FROM " + Join(tables, " CROSS JOIN ")), ", ");
  }

  lemma SelectPiecesAvoid(columns: seq<string>, tables: seq<string>)
    requires |columns| > 0
    requires forall i :: 0 <= i < |columns| ==> ',' !in columns[i]
    requires forall i :: 0 <= i < |tables| ==> PlainIdent(tables[i])
    ensures forall i :: 0 <= i < |columns| ==>
      ", "[0] !in SelectPieces(columns, "FROM " + Join(tables, " CROSS JOIN "))[i]
  {
    var from := Join(tables, " CROSS JOIN ");
    var rest := "FROM " + from;
    var pieces := SelectPieces(columns, rest);
    var n := |columns|;
    FromAvoids(tables);
    assert ',' !in rest;
    assert ',' !in pieces[n - 1] by {
      assert pieces[n - 1] == columns[n - 1] + [' '] + rest;
    }
    forall i | 0 <= i < n ensures ", "[0] !in pieces[i] {
      if i < n - 1 { assert pieces[i] == columns[i]; }
    }
  }

  /** The from list has no comma and no closing parenthesis. */
  lemma FromAvoids(tables: seq<string>)
    requires forall i :: 0 <= i < |tables| ==> PlainIdent(tables[i])
    ensures ',' !in Join(tables, " CROSS JOIN ") && ')' !in Join(tables, " CROSS JOIN ")
  {
    JoinAvoids(tables, " CROSS JOIN ", ',');
    JoinAvoids(tables, " CROSS JOIN ", ')');
  }

  /** The staging statement regrouped the way `ParseStagingSql` reads it. */
  function StagingShape(dest: string, body: string): string
  {
    "CREATE TABLE \"" + (dest + "\" AS (SELECT "
      + (body + " WHERE 1 = 2" + "); ALTER TABLE \"" + (dest + StagingTail)))
  }

  lemma StagingSqlShape(dest: string, select: string, from: string)
    ensures StagingSql(dest, select, from) == StagingShape(dest, select + " FROM " + from)
  {
    Reassociate("CREATE TABLE \"", dest, "\" AS (SELECT ", select, " FROM ", from, " WHERE 1 = 2",
                "); ALTER TABLE \"", StagingTail);
  }

  lemma Reassociate(p1: string, d: string, p2: string, s: string, p3: string, f: string, p4: string,
                    p5: string, t: string)
    ensures p1 + d + p2 + s + p3 + f + p4 + p5 + d + t
         == p1 + (d + p2 + ((s + p3 + f) + p4 + p5 + (d + t)))
  {
  }


  lemma StagingShapeParses(dest: string, body: string)
    requires '"' !in dest && ')' !in body
    ensures ParseStagingSql(StagingShape(dest, body)) == Some((dest, body))
  {
    var tail := dest + StagingTail;
    var b := body + " WHERE 1 = 2" + "); ALTER TABLE \"" + tail;
    StripPrefixConcat("CREATE TABLE \"", dest + "\" AS (SELECT " + b);
    CutJoin(dest, "\" AS (SELECT ", b);
    assert ')' !in body + " WHERE 1 = 2";
    CutJoin(body + " WHERE 1 = 2", "); ALTER TABLE \"", tail);
    StripSuffixConcat(body, " WHERE 1 = 2");
    StripSuffixConcat(dest, StagingTail);
  }

  lemma StagingSqlParses(dest: string, select: string, from: string)
    requires '"' !in dest && ')' !in select && ')' !in from
    ensures ParseStagingSql(StagingSql(dest, select, from)) == Some((dest, select + " FROM " + from))
  {
    StagingSqlShape(dest, select, from);
    StagingShapeParses(dest, select + " FROM " + from);
  }

  /** The staging statement creates `dest` from exactly the given columns
      over exactly the given tables, selecting no row, and then adds the
      event-timestamp and row-number columns to the same table. */
  lemma StagingTextParses(dest: string, columns: seq<string>, tables: seq<string>)
    requires '"' !in dest
    requires |columns| > 0 && |tables| > 0
    requires forall i :: 0 <= i < |columns| ==> ',' !in columns[i] && ' ' !in columns[i] && ')' !in columns[i]
    requires forall i :: 0 <= i < |tables| ==> PlainIdent(tables[i])
    ensures ParseStaging(StagingText(dest, columns, tables)) == Some((dest, columns, tables))
  {
    JoinAvoids(columns, ", ", ')');
    FromAvoids(tables);
    StagingSqlParses(dest, Join(columns, ", "), Join(tables, " CROSS JOIN "));
    SelectFromParses(columns, tables);
  }

  /** Table and entity names the staging statement can carry and read back;
      entity names are not empty. */
  predicate PlainInfos(infos: seq<FeatureSetQueryInfo>)
  {
    && (forall i :: 0 <= i < |infos| ==> PlainIdent(infos[i].table))
    && (forall i, j :: 0 <= i < |infos| && 0 <= j < |infos[i].entities| ==>
          |infos[i].entities[j]| > 0 && PlainIdent(infos[i].entities[j]))
  }

  lemma {:induction false} CandidatesPlain(infos: seq<FeatureSetQueryInfo>)
    requires PlainInfos(infos)
    ensures forall c :: c in Candidates(infos) ==> PlainIdent(c.table) && |c.entity| > 0 && PlainIdent(c.entity)
  {
    if |infos| > 0 {
      var init := infos[..|infos| - 1];
      assert PlainInfos(init) by {
        forall i | 0 <= i < |init| ensures init[i] == infos[i] { }
      }
      CandidatesPlain(init);
    }
  }

  lemma {:induction false} CandidatesNonEmpty(infos: seq<FeatureSetQueryInfo>, k: int)
    requires 0 <= k < |infos| && |infos[k].entities| > 0
    ensures |Candidates(infos)| > 0
  {
    if k < |infos| - 1 {
      var init := infos[..|infos| - 1];
      assert init[k] == infos[k];
      CandidatesNonEmpty(init, k);
    }
  }

  lemma {:induction false} FirstPerEntityNonEmpty(cols: seq<QualifiedColumn>)
    requires |cols| > 0
    ensures |FirstPerEntity(cols)| > 0
  {
    if |cols| > 1 {
      FirstPerEntityNonEmpty(cols[..|cols| - 1]);
    }
  }

  /** A column of plain names: its text has no separator and is not all
      dots. */
  lemma ColumnTextPlain(c: QualifiedColumn)
    requires PlainIdent(c.table) && |c.entity| > 0 && PlainIdent(c.entity)
    ensures ',' !in ColumnText(c) && ' ' !in ColumnText(c) && ')' !in ColumnText(c)
    ensures !AllDots(ColumnText(c))
  {
    var t := ColumnText(c);
    assert t[|t| - 1] == c.entity[|c.entity| - 1];
  }

  lemma EntityColumnsPlain(infos: seq<FeatureSetQueryInfo>, k: int)
    requires PlainInfos(infos)
    requires 0 <= k < |infos| && |infos[k].entities| > 0
    ensures |EntityColumns(infos)| > 0
    ensures forall c :: c in EntityColumns(infos) ==> PlainIdent(c.table) && |c.entity| > 0 && PlainIdent(c.entity)
  {
    var cands := Candidates(infos);
    CandidatesPlain(infos);
    CandidatesNonEmpty(infos, k);
    FirstPerEntityNonEmpty(cands);
    FirstPerEntityTables(cands);
  }

  /** The entity columns of plain infos, in the source's order: their texts
      carry no separator, and at least one exists when some info lists an
      entity. */
  lemma SortedColumnsPlain(infos: seq<FeatureSetQueryInfo>, k: int)
    requires PlainInfos(infos)
    requires 0 <= k < |infos| && |infos[k].entities| > 0
    ensures SortByQualifier(EntityColumns(infos)).Ok?
    ensures var cols := SortByQualifier(EntityColumns(infos)).value;
      |cols| > 0 && forall i :: 0 <= i < |cols| ==> ',' !in ColumnText(cols[i]) && ' ' !in ColumnText(cols[i]) && ')' !in ColumnText(cols[i])
  {
    var kept := EntityColumns(infos);
    EntityColumnsPlain(infos, k);
    assert !exists i :: 0 <= i < |kept| && AllDots(ColumnText(kept[i])) by {
      forall i | 0 <= i < |kept| ensures !AllDots(ColumnText(kept[i])) {
        ColumnTextPlain(kept[i]);
      }
    }
    var cols := SortByQualifier(kept).value;
    forall i | 0 <= i < |cols|
      ensures ',' !in ColumnText(cols[i]) && ' ' !in ColumnText(cols[i]) && ')' !in ColumnText(cols[i])
    {
      assert cols[i] in multiset(kept);
      ColumnTextPlain(cols[i]);
    }
  }

  /** The staging statement as the source builds it creates `dest` selecting
      no row from exactly the entity columns in qualifier order, over every
      info's table in request order (repeats included), and then adds the
      event-timestamp and row-number columns. */
  lemma EntityTableRowCountQueryParses(dest: string, infos: seq<FeatureSetQueryInfo>, k: int)
    requires '"' !in dest && PlainInfos(infos)
    requires 0 <= k < |infos| && |infos[k].entities| > 0
    ensures EntityTableRowCountQuery(dest, infos).Ok?
    ensures ParseStaging(EntityTableRowCountQuery(dest, infos).value)
      == Some((dest, ColumnTexts(SortByQualifier(EntityColumns(infos)).value), Tables(infos)))
  {
    SortedColumnsPlain(infos, k);
    var texts := ColumnTexts(SortByQualifier(EntityColumns(infos)).value);
    var tables := Tables(infos);
    assert forall i :: 0 <= i < |tables| ==> PlainIdent(tables[i]);
    StagingTextParses(dest, texts, tables);
  }

  // ---- Loading one entity file ----

  /** The five statements of one load, without their terminating ';'. */
  function LoadStatements(dest: string, temp: string, file: string): seq<string>
  {
    [ "CREATE TEMP TABLE " + temp + " AS (SELECT * FROM " + dest + ")",
      "ALTER TABLE " + temp + " DROP COLUMN row_number",
      "COPY " + temp + " FROM '" + file + "' DELIMITER E'\t' CSV HEADER",
      "INSERT INTO " + dest + " SELECT * FROM " + temp,
      "DROP TABLE " + temp ]
  }

  /** Loads a tab-separated entity file into `dest` through a temporary copy
      of it without the row-number column: the five statements, each ended by
      ';'. */
  function LoadEntityQuery(dest: string, temp: string, file: string): string
  {
    Terminated(LoadStatements(dest, temp, file), ";")
  }

  /** The load reads back as the five statements in this order: copy the
      destination's shape into the temporary table, drop its row number, copy
      the file into it, append it to the destination, drop it. */
  lemma LoadEntityQuerySplits(dest: string, temp: string, file: string)
    requires ';' !in dest && ';' !in temp && ';' !in file
    ensures Split(LoadEntityQuery(dest, temp, file), ";") == LoadStatements(dest, temp, file) + [""]
  {
    var st := LoadStatements(dest, temp, file);
    forall i | 0 <= i < |st| ensures ";"[0] !in st[i] { }
    SplitTerminated(st, ";");
  }
}
