/** The Python SDK's staging of entity data (`feast.loaders.file`): a data
    frame is written to a local Avro or CSV file, with its `datetime` column
    temporarily renamed to `event_timestamp` and, for CSV, its columns in the
    order PostgreSQL's `COPY` expects; the file is then pushed to the staging
    location and its URI returned. File contents, the clock, UUIDs, URL
    parsing and the Cloud Storage client are parameters. */
module FileLoader {
  import opened Wrappers
  import opened Strings
  import opened Sorting
  import opened FeastTypes
  import opened OrderedMap

  const EventTimestamp := "event_timestamp"
  const Datetime := "datetime"

  // ---- File names ----

  /** `_get_file_name`: `stamp` stands for the formatted clock reading and
      the first eight characters of a fresh UUID. */
  function FileName(stamp: string, format: DataFormat): (r: Result<string, Error>)
    ensures r.Err? <==> format == OtherFormat
    ensures r.Err? ==> r.error == UnsupportedDataFormat
    ensures format == Avro ==> r.Ok? && StripSuffix(r.value, ".avro") == Some(stamp)
    ensures format == Csv ==> r.Ok? && StripSuffix(r.value, ".csv") == Some(stamp)
  {
    match format
    case Avro => StripSuffixConcat(stamp, ".avro"); Ok(stamp + ".avro")
    case Csv => StripSuffixConcat(stamp, ".csv"); Ok(stamp + ".csv")
    case OtherFormat => Err(UnsupportedDataFormat)
  }

  /** The format a staged file name announces by its extension. */
  function FormatOfName(name: string): DataFormat
  {
    if StripSuffix(name, ".avro").Some? then Avro
    else if StripSuffix(name, ".csv").Some? then Csv
    else OtherFormat
  }

  /** The extension of a generated file name gives back its format. */
  lemma FileNameFormat(stamp: string, format: DataFormat)
    requires format != OtherFormat
    ensures FormatOfName(FileName(stamp, format).value) == format
  {
    if format == Csv {
      var name := FileName(stamp, format).value;
      assert name == stamp + ".csv";
      if |name| >= 5 {
        assert name[|name| - 5..][4] == 'v';
      }
    }
  }

  // ---- Column renaming ----

  /** Every column called `from` renamed to `to`, the others kept. */
  function Rename(cols: seq<string>, from: string, to: string): (r: seq<string>)
    ensures |r| == |cols|
    ensures forall i :: 0 <= i < |cols| ==> r[i] == (if cols[i] == from then to else cols[i])
  {
    seq(|cols|, i requires 0 <= i < |cols| => if cols[i] == from then to else cols[i])
  }

  /** The rename before writing: `datetime` becomes `event_timestamp`. */
  function ToStaging(cols: seq<string>): (r: seq<string>)
    ensures Datetime !in r
    ensures EventTimestamp in r <==> EventTimestamp in cols || Datetime in cols
  {
    var r := Rename(cols, Datetime, EventTimestamp);
    assert forall i :: 0 <= i < |cols| && cols[i] == Datetime ==> r[i] == EventTimestamp;
    r
  }

  /** The rename in the `finally` block: `event_timestamp` becomes `datetime`. */
  function Revert(cols: seq<string>): (r: seq<string>)
    ensures EventTimestamp !in r
  {
    Rename(cols, EventTimestamp, Datetime)
  }

  /** The frame's column names survive the export exactly when it had no
      column called `event_timestamp` of its own: such a column comes back as
      `datetime`. */
  lemma RenameRoundTrip(cols: seq<string>)
    ensures Revert(ToStaging(cols)) == cols <==> EventTimestamp !in cols
  {
    var back := Revert(ToStaging(cols));
    if EventTimestamp !in cols {
      forall i | 0 <= i < |cols| ensures back[i] == cols[i] { }
    }
  }

  // ---- CSV column order ----

  /** The CSV column order: the columns sorted, the first `event_timestamp`
      taken out and put last. `list.index` raises when there is none. */
  function CsvColumns(cols: seq<string>): (r: Result<seq<string>, Error>)
    ensures r.Ok? <==> EventTimestamp in cols
    ensures r.Err? ==> r.error == MissingEventTimestampColumn
    ensures r.Ok? ==> multiset(r.value) == multiset(cols)
    ensures r.Ok? ==> |r.value| > 0 && r.value[|r.value| - 1] == EventTimestamp
    ensures r.Ok? ==> Sorted(r.value[..|r.value| - 1])
  {
    if EventTimestamp !in cols then Err(MissingEventTimestampColumn)
    else
      var sorted := SortStrings(cols);
      assert EventTimestamp in multiset(sorted);
      RemoveFirstSorted(sorted, EventTimestamp);
      var r := RemoveFirst(sorted, EventTimestamp) + [EventTimestamp];
      assert r[..|r| - 1] == RemoveFirst(sorted, EventTimestamp);
      Ok(r)
  }

  /** The CSV order is the only arrangement of the columns with a sorted
      body followed by `event_timestamp`. */
  lemma CsvColumnsUnique(cols: seq<string>, s: seq<string>)
    requires EventTimestamp in cols
    requires multiset(s) == multiset(cols)
    requires |s| > 0 && s[|s| - 1] == EventTimestamp && Sorted(s[..|s| - 1])
    ensures CsvColumns(cols) == Ok(s)
  {
    var r := CsvColumns(cols).value;
    var sp := s[..|s| - 1];
    var rp := r[..|r| - 1];
    LastSplit(s);
    LastSplit(r);
    SortedUnique(sp, rp);
  }

  lemma LastSplit(s: seq<string>)
    requires |s| > 0
    ensures s == s[..|s| - 1] + [s[|s| - 1]]
    ensures multiset(s[..|s| - 1]) == multiset(s) - multiset{s[|s| - 1]}
  {
    assert s == s[..|s| - 1] + [s[|s| - 1]];
  }

  /** `df[labels]`: every requested label selects each column that carries
      it, so a label the frame repeats is selected as often as it occurs. */
  function SelectLabels(labels: seq<string>, cols: seq<string>): (r: seq<string>)
    ensures forall n :: n in r <==> n in labels && n in cols
  {
    if |labels| == 0 then []
    else
      var here := Repeat(labels[0], multiset(cols)[labels[0]]);
      assert forall n :: n in here <==> n == labels[0] && n in cols;
      here + SelectLabels(labels[1..], cols)
  }

  /** Selecting labels that each name exactly one column gives the labels
      back. */
  lemma {:induction false} SelectDistinct(labels: seq<string>, cols: seq<string>)
    requires Distinct(cols)
    requires forall i :: 0 <= i < |labels| ==> labels[i] in cols
    ensures SelectLabels(labels, cols) == labels
  {
    if |labels| > 0 {
      DistinctCount(cols, labels[0]);
      SelectDistinct(labels[1..], cols);
      assert labels == [labels[0]] + labels[1..];
    }
  }

  /** The selection ends with the columns of its last label. */
  lemma {:induction false} SelectLast(labels: seq<string>, cols: seq<string>)
    requires |labels| > 0 && labels[|labels| - 1] in cols
    ensures var r := SelectLabels(labels, cols);
      |r| > 0 && r[|r| - 1] == labels[|labels| - 1]
  {
    if |labels| > 1 {
      SelectLast(labels[1..], cols);
    } else {
      assert multiset(cols)[labels[0]] > 0;
    }
  }

  /** The selection by the CSV order names each column of the frame, ends
      with `event_timestamp`, and is the CSV order itself when no label
      repeats. */
  lemma CsvSelectionShape(staged: seq<string>, order: seq<string>)
    requires CsvColumns(staged) == Ok(order)
    ensures var r := SelectLabels(order, staged);
      && (forall n :: n in r <==> n in staged)
      && |r| > 0 && r[|r| - 1] == EventTimestamp
      && (Distinct(staged) ==> r == order)
  {
    forall i | 0 <= i < |order| ensures order[i] in staged {
      assert order[i] in multiset(order);
    }
    assert forall n :: n in order <==> n in multiset(staged);
    SelectLast(order, staged);
    if Distinct(staged) {
      SelectDistinct(order, staged);
    }
  }

  /** The columns the CSV branch writes: the frame indexed by the CSV order
      of its labels. */
  function CsvSelection(staged: seq<string>): (r: Result<seq<string>, Error>)
    ensures r.Ok? <==> EventTimestamp in staged
    ensures r.Err? ==> r.error == MissingEventTimestampColumn
    ensures r.Ok? ==> |r.value| > 0 && r.value[|r.value| - 1] == EventTimestamp
    ensures r.Ok? ==> forall n :: n in r.value <==> n in staged
    ensures r.Ok? && Distinct(staged) ==> CsvColumns(staged) == r && multiset(r.value) == multiset(staged)
  {
    var order :- CsvColumns(staged);
    CsvSelectionShape(staged, order);
    Ok(SelectLabels(order, staged))
  }

  lemma SelectRepeated(x: string)
    ensures SelectLabels([x, x], [x, x]) == [x, x, x, x]
  {
    assert multiset([x, x])[x] == 2;
    assert Repeat(x, 2) == [x, x];
    assert [x, x][1..] == [x];
    assert SelectLabels([x], [x, x]) == [x, x];
  }

  /** A frame with both a `datetime` and an `event_timestamp` column has two
      `event_timestamp` labels after the rename; each of the two requested
      `event_timestamp` labels selects both columns, so the CSV file gets
      four timestamp columns. */
  lemma RepeatedTimestampWidensCsv()
    ensures CsvSelection(ToStaging([Datetime, EventTimestamp]))
      == Ok([EventTimestamp, EventTimestamp, EventTimestamp, EventTimestamp])
  {
    var staged := [EventTimestamp, EventTimestamp];
    assert ToStaging([Datetime, EventTimestamp]) == staged;
    assert Sorted(staged[..1]);
    CsvColumnsUnique(staged, staged);
    SelectRepeated(EventTimestamp);
  }

  // ---- Writing the frame locally ----

  datatype LocalExport = LocalExport(dirPath: string, fileName: string, destPath: string, written: seq<string>)

  /** The outcome of `export_dataframe_to_local` and the frame's column
      names once it returns or raises. */
  datatype FrameExport = FrameExport(outcome: Result<LocalExport, Error>, columnsAfter: seq<string>)

  /** The last column written is `event_timestamp`. */
  predicate TimestampLast(written: seq<string>)
  {
    |written| > 0 && written[|written| - 1] == EventTimestamp
  }

  /** The columns written for the renamed frame `staged`: all of them for
      Avro, the CSV selection for CSV. */
  function WrittenColumns(staged: seq<string>, format: DataFormat): (r: Result<seq<string>, Error>)
    requires format != OtherFormat
    ensures r.Ok? <==> format == Avro || EventTimestamp in staged
    ensures r.Err? ==> r.error == MissingEventTimestampColumn
    ensures r.Ok? ==> forall n :: n in r.value <==> n in staged
    ensures r.Ok? && (format == Avro || Distinct(staged)) ==> multiset(r.value) == multiset(staged)
    ensures r.Ok? && format == Csv ==> TimestampLast(r.value)
    ensures r.Ok? && format == Csv && Distinct(staged) ==> CsvColumns(staged) == r
  {
    if format == Avro then Ok(staged) else CsvSelection(staged)
  }

  /** `export_dataframe_to_local` on a frame with columns `cols`. Without a
      directory a fresh temporary one, `tempDir`, is used. The file name is
      chosen before the rename, so an unknown format leaves the frame as it
      was; after the rename the columns are reverted whatever happens. */
  function ExportDataFrameToLocal(cols: seq<string>, dirPath: Option<string>, tempDir: string,
                                  format: DataFormat, stamp: string): (r: FrameExport)
    ensures r.outcome.Ok? <==>
      format == Avro || (format == Csv && (EventTimestamp in cols || Datetime in cols))
    ensures r.outcome.Err? ==>
      r.outcome.error == (if format == OtherFormat then UnsupportedDataFormat else MissingEventTimestampColumn)
    ensures r.columnsAfter == cols <==> format == OtherFormat || EventTimestamp !in cols
    ensures r.outcome.Ok? ==>
      var x := r.outcome.value;
      x.dirPath == (if dirPath.Some? then dirPath.value else tempDir)
      && Ok(x.fileName) == FileName(stamp, format)
      && x.destPath == x.dirPath + "/" + x.fileName
      && (forall n :: n in x.written <==> n in ToStaging(cols))
      && (format == Avro || Distinct(ToStaging(cols)) ==> multiset(x.written) == multiset(ToStaging(cols)))
      && (format == Csv ==> TimestampLast(x.written))
      && (format == Csv && Distinct(ToStaging(cols)) ==> CsvColumns(ToStaging(cols)) == Ok(x.written))
  {
    var dir := if dirPath.Some? then dirPath.value else tempDir;
    match FileName(stamp, format)
    case Err(e) => FrameExport(Err(e), cols)
    case Ok(name) =>
      var staged := ToStaging(cols);
      var after := Revert(staged);
      RenameRoundTrip(cols);
      match WrittenColumns(staged, format)
      case Err(e) => FrameExport(Err(e), after)
      case Ok(w) => FrameExport(Ok(LocalExport(dir, name, dir + "/" + name, w)), after)
  }

  // ---- Paths and URIs ----

  /** `os.path.basename`: the text after the last '/'. */
  function Basename(p: string): (r: string)
    ensures '/' !in r
    ensures |r| <= |p| && p[|p| - |r|..] == r
    ensures |r| < |p| ==> p[|p| - |r| - 1] == '/'
  {
    if |p| == 0 || p[|p| - 1] == '/' then ""
    else
      var r := Basename(p[..|p| - 1]) + [p[|p| - 1]];
      assert p[..|p| - 1][|p| - |r|..] == p[|p| - |r|..|p| - 1];
      r
  }

  /** `staging_location_uri.rstrip("/") + "/" + file_name`. */
  function StagedUri(staging: string, name: string): (r: string)
    ensures StripSuffix(r, "/" + name).Some?
    ensures var base := StripSuffix(r, "/" + name).value;
      base <= staging && (|base| == 0 || base[|base| - 1] != '/')
      && forall i :: |base| <= i < |staging| ==> staging[i] == '/'
  {
    var base := TrimTrailing(staging, '/');
    StripSuffixConcat(base, "/" + name);
    assert base + "/" + name == base + ("/" + name);
    base + "/" + name
  }

  /** Any number of trailing slashes on the staging location give the same
      URI. */
  lemma {:induction false} StagedUriSlashes(staging: string, name: string)
    ensures StagedUri(staging + "/", name) == StagedUri(staging, name)
  {
    assert (staging + "/")[..|staging|] == staging;
  }

  /** The last segment of a staged URI is the file name. */
  lemma StagedUriBasename(staging: string, name: string)
    requires '/' !in name
    ensures Basename(StagedUri(staging, name)) == name
  {
    var u := StagedUri(staging, name);
    var b := Basename(u);
    var base := TrimTrailing(staging, '/');
    BasenameAfterSlash(base, name);
  }

  lemma {:induction false} BasenameAfterSlash(a: string, name: string)
    requires '/' !in name
    ensures Basename(a + "/" + name) == name
  {
    var p := a + "/" + name;
    if |name| == 0 {
      assert p[|p| - 1] == '/';
    } else {
      var init := name[..|name| - 1];
      assert p[..|p| - 1] == a + "/" + init;
      BasenameAfterSlash(a, init);
      assert name == init + [name[|name| - 1]];
    }
  }

  /** Python `str.strip(c)`: `c` removed from both ends. */
  function Strip(s: string, c: char): (r: string)
    ensures |r| == 0 || (r[0] != c && r[|r| - 1] != c)
    decreases |s|
  {
    var t := TrimTrailing(s, c);
    if |t| > 0 && t[0] == c then Strip(t[1..], c) else t
  }

  // ---- Staging ----

  /** What `urlparse` yields that the loader uses. */
  datatype Uri = Uri(scheme: string, netloc: string, hostname: string, path: string)

  /** A data frame (its column names) or a path string. */
  datatype Source = FrameSource(columns: seq<string>) | PathSource(path: string)

  /** The loader's surroundings: URL parsing, the temporary directory
      `mkdtemp` returns, the clock-and-UUID file-name stem, `os.path.abspath`
      of a joined net location and path, and the files of a bucket a
      wildcard path matches. */
  datatype LoaderEnv = LoaderEnv(
    parse: string -> Uri,
    tempDir: string,
    stamp: string,
    absPath: (string, string) -> string,
    matches: string -> seq<string>)

  /** Calls on the storage around the loader. */
  datatype Effect =
    | Upload(localPath: string, bucket: string, remotePath: string)
    | RemoveTree(dir: string)

  datatype Staged = Staged(effects: seq<Effect>, outcome: Result<seq<string>, Error>)

  /** A source the loader writes or copies itself, as opposed to a Cloud
      Storage path it passes through. */
  predicate IsLocal(env: LoaderEnv, source: Source)
  {
    source.FrameSource? || env.parse(source.path).scheme == "" || env.parse(source.path).scheme == "file"
  }

  /** The object name a `gs` staging location uploads to: the location's
      path with '/' stripped from both ends, then "/", then the file name. */
  function BlobName(uri: Uri, fileName: string): string
  {
    Strip(uri.path, '/') + "/" + fileName
  }

  /** Pushing a local file to the staging location: uploaded for `gs` into
      the location's bucket under `BlobName`, then the cleanup; left in
      place for `file`; refused for any other scheme. */
  function Push(uri: Uri, staging: string, fileName: string, sourcePath: string, cleanup: seq<Effect>): (r: Staged)
    ensures r.outcome.Ok? <==> uri.scheme == "gs" || uri.scheme == "file"
    ensures r.outcome.Err? ==> r.outcome.error == UnsupportedStagingScheme(staging) && r.effects == []
    ensures r.outcome.Ok? ==> r.outcome.value == [StagedUri(staging, fileName)]
    ensures uri.scheme == "gs" ==> r.effects == [Upload(sourcePath, uri.hostname, BlobName(uri, fileName))] + cleanup
    ensures uri.scheme != "gs" ==> r.effects == []
  {
    if uri.scheme == "gs" then
      Staged([Upload(sourcePath, uri.hostname, BlobName(uri, fileName))] + cleanup,
             Ok([StagedUri(staging, fileName)]))
    else if uri.scheme == "file" then
      Staged([], Ok([StagedUri(staging, fileName)]))
    else
      Staged([], Err(UnsupportedStagingScheme(staging)))
  }

  /** `export_source_to_staging_location`. */
  function ExportSourceToStaging(env: LoaderEnv, source: Source, staging: string, format: DataFormat): (r: Staged)
    ensures !IsLocal(env, source) && env.parse(source.path).scheme == "gs" ==>
      r.effects == [] && r.outcome == Ok(if '*' in source.path then env.matches(source.path) else [source.path])
    ensures !IsLocal(env, source) && env.parse(source.path).scheme != "gs" ==>
      r == Staged([], Err(UnsupportedSource(source.path)))
    ensures IsLocal(env, source) && env.parse(staging).scheme != "gs" && env.parse(staging).scheme != "file" ==>
      r.outcome.Err? && r.effects == []
    ensures |r.effects| > 0 ==> env.parse(staging).scheme == "gs" && r.outcome.Ok?
    ensures source.PathSource? && IsLocal(env, source) && env.parse(staging).scheme == "gs" ==>
      var src := env.parse(source.path);
      r.effects == [Upload(env.absPath(src.netloc, src.path), env.parse(staging).hostname,
                           BlobName(env.parse(staging), Basename(source.path)))]
    ensures source.FrameSource? && env.parse(staging).scheme == "gs" && r.outcome.Ok? ==>
      FileName(env.stamp, format).Ok? &&
      var name := FileName(env.stamp, format).value;
      r.effects == [Upload(env.tempDir + "/" + name, env.parse(staging).hostname, BlobName(env.parse(staging), name))]
                   + (if |env.tempDir| > 4 then [RemoveTree(env.tempDir)] else [])
    ensures r.outcome.Ok? && source.FrameSource? ==>
      format != OtherFormat && r.outcome.value == [StagedUri(staging, FileName(env.stamp, format).value)]
    ensures r.outcome.Ok? && source.PathSource? && IsLocal(env, source) ==>
      r.outcome.value == [StagedUri(staging, Basename(source.path))]
  {
    var uri := env.parse(staging);
    match source
    case FrameSource(cols) =>
      var local := ExportDataFrameToLocal(cols, if uri.scheme == "file" then Some(uri.path) else None,
                                          env.tempDir, format, env.stamp);
      if local.outcome.Err? then Staged([], Err(local.outcome.error))
      else
        var x := local.outcome.value;
        Push(uri, staging, x.fileName, x.destPath, if |x.dirPath| > 4 then [RemoveTree(x.dirPath)] else [])
    case PathSource(p) =>
      var src := env.parse(p);
      if src.scheme == "" || src.scheme == "file" then
        Push(uri, staging, Basename(p), env.absPath(src.netloc, src.path), [])
      else if src.scheme == "gs" then
        Staged([], Ok(if '*' in p then env.matches(p) else [p]))
      else
        Staged([], Err(UnsupportedSource(p)))
  }

  /** A Cloud Storage path without a wildcard is handed back untouched, and
      the staging location is not looked at. */
  lemma GsSourcePassesThrough(env: LoaderEnv, p: string, staging: string, staging': string, format: DataFormat)
    requires env.parse(p).scheme == "gs" && '*' !in p
    ensures ExportSourceToStaging(env, PathSource(p), staging, format) == Staged([], Ok([p]))
    ensures ExportSourceToStaging(env, PathSource(p), staging', format) == Staged([], Ok([p]))
  {
  }

  // ---- Where a Cloud Storage upload lands ----

  /** `uri` is what `urlparse` gives for the staging location
      `gs://<bucket><path>`: a non-empty bucket without '/', and a path that
      is empty or starts with exactly one '/'. */
  predicate GsParsed(staging: string, uri: Uri)
  {
    && uri.scheme == "gs" && |uri.hostname| > 0 && '/' !in uri.hostname
    && staging == "gs://" + uri.hostname + uri.path
    && (uri.path == "" || (uri.path[0] == '/' && (|uri.path| == 1 || uri.path[1] != '/')))
  }

  /** The object the returned URI of a `gs` staging location names: the
      stripped path, then "/", then the file name, or the file name alone at
      the bucket's root. */
  function CorrectedBlobName(uri: Uri, fileName: string): string
  {
    var dir := Strip(uri.path, '/');
    if dir == "" then fileName else dir + "/" + fileName
  }

  /** The returned URI is `gs://<bucket>/` followed by the corrected object
      name, for every staging location. */
  lemma CorrectedBlobNameMatchesUri(staging: string, uri: Uri, fileName: string)
    requires GsParsed(staging, uri)
    ensures StagedUri(staging, fileName) == "gs://" + uri.hostname + "/" + CorrectedBlobName(uri, fileName)
  {
    if |uri.path| <= 1 {
      RootLocation(staging, uri);
    } else {
      var t := BelowRootLocation(staging, uri);
      assert "gs://" + uri.hostname + "/" + t + "/" + fileName
          == "gs://" + uri.hostname + "/" + (t + "/" + fileName);
    }
  }

  /** Below the bucket's root the upload goes to the object the returned
      URI names. */
  lemma BlobNameBelowRoot(staging: string, uri: Uri, fileName: string)
    requires GsParsed(staging, uri) && |uri.path| > 1
    ensures BlobName(uri, fileName) == CorrectedBlobName(uri, fileName)
    ensures StagedUri(staging, fileName) == "gs://" + uri.hostname + "/" + BlobName(uri, fileName)
  {
    CorrectedBlobNameMatchesUri(staging, uri, fileName);
    var t := BelowRootLocation(staging, uri);
  }

  /** At the bucket's root (`gs://b` or `gs://b/`) the upload goes to the
      object "/<file>", while the returned URI names the object "<file>". */
  lemma BlobNameAtBucketRoot(staging: string, uri: Uri, fileName: string)
    requires GsParsed(staging, uri) && |uri.path| <= 1
    ensures BlobName(uri, fileName) == "/" + fileName
    ensures StagedUri(staging, fileName) == "gs://" + uri.hostname + "/" + fileName
    ensures BlobName(uri, fileName) != CorrectedBlobName(uri, fileName)
  {
    RootLocation(staging, uri);
    assert |BlobName(uri, fileName)| != |CorrectedBlobName(uri, fileName)|;
  }

  /** A root location trims to `gs://<bucket>` and strips to nothing. */
  lemma RootLocation(staging: string, uri: Uri)
    requires GsParsed(staging, uri) && |uri.path| <= 1
    ensures TrimTrailing(staging, '/') == "gs://" + uri.hostname
    ensures Strip(uri.path, '/') == ""
  {
    var h := uri.hostname;
    var head := "gs://" + h;
    assert head[|head| - 1] == h[|h| - 1] && h[|h| - 1] in h;
    TrimAllTrailing(head, uri.path);
    if |uri.path| == 1 {
      assert TrimTrailing(uri.path[..0], '/') == "";
    }
  }

  /** A location below the root trims to `gs://<bucket>/<t>` and strips to
      `<t>`, where `t` is the path after its '/' without trailing '/'. */
  lemma BelowRootLocation(staging: string, uri: Uri) returns (t: string)
    requires GsParsed(staging, uri) && |uri.path| > 1
    ensures TrimTrailing(staging, '/') == "gs://" + uri.hostname + "/" + t
    ensures Strip(uri.path, '/') == t
  {
    var head := "gs://" + uri.hostname;
    var q := uri.path[1..];
    t := TrimTrailing(q, '/');
    assert |t| > 0 by {
      assert q[0] != '/';
    }
    assert uri.path == "/" + q;
    assert staging == (head + "/") + q;
    TrimTrailingKeepsHead(head + "/", q);
    TrimTrailingKeepsHead("/", q);
    assert ("/" + t)[1..] == t;
    StripPlain(t);
  }

  /** Trailing `c`s after a head not ending in `c` all go. */
  lemma {:induction false} TrimAllTrailing(head: string, tail: string)
    requires |head| > 0 && head[|head| - 1] != '/'
    requires forall i :: 0 <= i < |tail| ==> tail[i] == '/'
    ensures TrimTrailing(head + tail, '/') == head
  {
    if |tail| > 0 {
      assert (head + tail)[..|head + tail| - 1] == head + tail[..|tail| - 1];
      TrimAllTrailing(head, tail[..|tail| - 1]);
    } else {
      assert head + tail == head;
    }
  }

  /** Trimming stays inside the tail when something of it is left. */
  lemma {:induction false} TrimTrailingKeepsHead(head: string, tail: string)
    requires |TrimTrailing(tail, '/')| > 0
    ensures TrimTrailing(head + tail, '/') == head + TrimTrailing(tail, '/')
  {
    if |tail| > 0 && tail[|tail| - 1] == '/' {
      assert (head + tail)[..|head + tail| - 1] == head + tail[..|tail| - 1];
      TrimTrailingKeepsHead(head, tail[..|tail| - 1]);
    }
  }

  /** A string with no '/' at either end is its own strip. */
  lemma StripPlain(t: string)
    requires |t| > 0 && t[0] != '/' && t[|t| - 1] != '/'
    ensures Strip(t, '/') == t
  {
  }

  /** A frame staged as CSV is written with `event_timestamp` last, after
      the other columns in sorted order when no renamed name repeats, and its
      URI names a `.csv` file. */
  lemma CsvFrameStaged(env: LoaderEnv, cols: seq<string>, staging: string)
    requires ExportSourceToStaging(env, FrameSource(cols), staging, Csv).outcome.Ok?
    ensures var uri := env.parse(staging);
      var x := ExportDataFrameToLocal(cols, if uri.scheme == "file" then Some(uri.path) else None,
                                      env.tempDir, Csv, env.stamp).outcome;
      && x.Ok? && FormatOfName(x.value.fileName) == Csv
      && TimestampLast(x.value.written)
      && (Distinct(ToStaging(cols)) ==> CsvColumns(ToStaging(cols)) == Ok(x.value.written))
  {
    FileNameFormat(env.stamp, Csv);
  }
}
