/** The entity file and the staging table must agree column by column: the
    load statement copies the staged CSV file into a copy of the staging
    table positionally, after its `row_number` column is dropped. The Python
    loader writes the entity columns in ascending name order followed by
    `event_timestamp`; this module relates that order to the staging table
    the retriever creates, as the source sorts it and as corrected. */
module StagingOrder {
  import opened Wrappers
  import opened Strings
  import opened Sorting
  import opened FeastTypes
  import opened QueryTemplater
  import opened FileLoader

  /** The columns a staged file is copied into, in order: the staging
      table's entity columns, then `event_timestamp` (`row_number` is
      dropped before the copy). */
  function CopyTarget(entityNames: seq<string>): seq<string>
  {
    entityNames + [EventTimestamp]
  }

  /** The corrected staging table matches the CSV file: for an entity frame
      holding exactly the staging table's entity columns and one timestamp
      column (`datetime` or `event_timestamp`), the file's columns are the
      copy target, position by position. */
  lemma EntityOrderMatchesCsv(infos: seq<FeatureSetQueryInfo>, frame: seq<string>)
    requires multiset(ToStaging(frame)) == multiset(StagingEntityNames(infos)) + multiset{EventTimestamp}
    ensures CsvColumns(ToStaging(frame)) == Ok(CopyTarget(StagingEntityNames(infos)))
  {
    var names := StagingEntityNames(infos);
    StagingColumnsShape(infos);
    var target := CopyTarget(names);
    assert target[..|target| - 1] == names;
    assert multiset(target) == multiset(names) + multiset{EventTimestamp};
    assert EventTimestamp in multiset(ToStaging(frame));
    CsvColumnsUnique(ToStaging(frame), target);
  }

  /** One feature set on table `t` whose entities are listed as `b`, `a`. */
  function UnsortedInfo(): FeatureSetQueryInfo
  {
    FeatureSetQueryInfo("project", "driver", 0, ["b", "a"], [], "t", None)
  }

  lemma UnsortedInfoColumns()
    ensures EntityColumns([UnsortedInfo()]) == [QualifiedColumn("t", "b"), QualifiedColumn("t", "a")]
  {
    var info := UnsortedInfo();
    var tb := QualifiedColumn("t", "b");
    var ta := QualifiedColumn("t", "a");
    var ic := InfoColumns(info);
    assert ic[0] == tb && ic[1] == ta;
    assert ic == [tb, ta];
    assert [info][..0] == [];
    assert Candidates([info]) == Candidates([]) + InfoColumns(info);
    var cands := Candidates([info]);
    assert cands == [tb, ta];
    assert cands[..1] == [tb];
    assert [tb][..0] == [];
    assert FirstPerEntity([tb]) == [tb];
    assert KeysOf([tb], EntityOf) == ["b"];
  }

  /** Both columns carry the qualifier `t`, so the stable sort keeps them. */
  lemma UnsortedInfoQualifierSort()
    ensures SortByQualifier([QualifiedColumn("t", "b"), QualifiedColumn("t", "a")])
      == Ok([QualifiedColumn("t", "b"), QualifiedColumn("t", "a")])
  {
    var tb := QualifiedColumn("t", "b");
    var ta := QualifiedColumn("t", "a");
    var cols := [tb, ta];
    QualifierKeyIsTable(tb);
    QualifierKeyIsTable(ta);
    assert !AllDots(ColumnText(tb)) by { assert ColumnText(tb)[0] == 't'; }
    assert !AllDots(ColumnText(ta)) by { assert ColumnText(ta)[0] == 't'; }
    assert cols[1..] == [ta];
    assert [ta][1..] == [];
    assert SortBy([ta], QualifierKey) == [ta];
    LessEqRefl("t");
    assert SortBy(cols, QualifierKey) == [tb, ta];
  }

  lemma UnsortedFrameStaged()
    ensures ToStaging(["b", "a", Datetime]) == ["b", "a", EventTimestamp]
  {
  }

  /** The CSV file of a frame with columns `b`, `a`, `datetime`. */
  lemma UnsortedFrameCsv()
    ensures CsvColumns(ToStaging(["b", "a", Datetime])) == Ok(["a", "b", EventTimestamp])
  {
    var staged := ["b", "a", EventTimestamp];
    var csv := ["a", "b", EventTimestamp];
    UnsortedFrameStaged();
    assert Sorted(csv[..2]) by {
      assert csv[..2] == ["a", "b"];
      assert LessEq("a", "b");
    }
    assert multiset(csv) == multiset(staged);
    CsvColumnsUnique(staged, csv);
  }

  /** The source's sort of the example's entity columns. */
  lemma UnsortedInfoSorted()
    ensures SortByQualifier(EntityColumns([UnsortedInfo()]))
      == Ok([QualifiedColumn("t", "b"), QualifiedColumn("t", "a")])
  {
    UnsortedInfoColumns();
    UnsortedInfoQualifierSort();
  }

  lemma KeysOfPair(x: QualifiedColumn, y: QualifiedColumn)
    ensures KeysOf([x, y], EntityOf) == [x.entity, y.entity]
  {
    assert [x, y][1..] == [y];
  }

  /** The staging entity columns the source's order gives for the example:
      `b`, then `a`. */
  lemma QualifierOrderLayout()
    ensures SortByQualifier(EntityColumns([UnsortedInfo()])).Ok?
    ensures KeysOf(SortByQualifier(EntityColumns([UnsortedInfo()])).value, EntityOf) == ["b", "a"]
  {
    UnsortedInfoSorted();
    KeysOfPair(QualifiedColumn("t", "b"), QualifiedColumn("t", "a"));
  }

  /** The source's order misaligns the copy: both columns share the table
      qualifier `t`, so the stable sort keeps them as `b`, `a`, while the CSV
      file written for a frame with columns `b`, `a`, `datetime` lists `a`,
      `b`, `event_timestamp`. The value of `b` lands in column `a` and the
      other way round. */
  lemma QualifierOrderMisalignsCsv()
    ensures var sorted := SortByQualifier(EntityColumns([UnsortedInfo()]));
      var csv := CsvColumns(ToStaging(["b", "a", Datetime]));
      sorted.Ok? && csv.Ok? && csv.value != CopyTarget(KeysOf(sorted.value, EntityOf))
  {
    var sorted := SortByQualifier(EntityColumns([UnsortedInfo()]));
    var csv := CsvColumns(ToStaging(["b", "a", Datetime]));
    assert sorted.Ok? && KeysOf(sorted.value, EntityOf)[0] == "b" by {
      QualifierOrderLayout();
    }
    assert CopyTarget(KeysOf(sorted.value, EntityOf))[0] == "b";
    assert csv.Ok? && csv.value[0] == "a" by {
      UnsortedFrameCsv();
    }
  }
}
