/** `FeatureRow.getKey` of the SQLite serving store: the key of a feature row
    is its feature-set reference together with the row's entity fields, one
    per entity of the feature set, in entity-name order. */
module FeatureRowKey {
  import opened Wrappers
  import opened Strings
  import opened Sorting
  import opened FeastTypes

  /** `RedisKey`: the feature-set reference and the entity fields. */
  datatype RedisKey = RedisKey(featureSet: string, entities: seq<Field>)

  /** Reference definition: the first field of a row carrying a name. */
  function FirstField(fields: seq<Field>, name: string): Option<Field>
  {
    if |fields| == 0 then None
    else if fields[0].name == name then Some(fields[0])
    else FirstField(fields[1..], name)
  }

  /** Position `i` holds the first field called `name`. */
  predicate FirstWith(fields: seq<Field>, i: int, name: string)
  {
    0 <= i < |fields| && fields[i].name == name
    && forall k :: 0 <= k < i ==> fields[k].name != name
  }

  lemma {:induction false} FirstFieldIsFirst(fields: seq<Field>, name: string)
    ensures FirstField(fields, name).Some? <==> exists i :: 0 <= i < |fields| && fields[i].name == name
    ensures FirstField(fields, name).Some? ==>
      exists i :: FirstWith(fields, i, name) && fields[i] == FirstField(fields, name).value
  {
    if |fields| > 0 {
      if fields[0].name == name {
        assert FirstWith(fields, 0, name);
      } else {
        var tail := fields[1..];
        FirstFieldIsFirst(tail, name);
        if FirstField(tail, name).Some? {
          var i :| FirstWith(tail, i, name) && tail[i] == FirstField(tail, name).value;
          assert FirstWith(fields, i + 1, name);
        } else {
          forall i | 0 <= i < |fields| ensures fields[i].name != name {
            if i > 0 { assert fields[i] == tail[i - 1]; }
          }
        }
      }
    }
  }

  lemma {:induction false} FirstFieldSnoc(init: seq<Field>, last: Field, name: string)
    ensures FirstField(init + [last], name) ==
      if FirstField(init, name).Some? then FirstField(init, name)
      else if last.name == name then Some(last)
      else None
  {
    if |init| == 0 {
      assert init + [last] == [last];
      assert [last][1..] == [];
    } else {
      assert (init + [last])[1..] == init[1..] + [last];
      FirstFieldSnoc(init[1..], last, name);
    }
  }

  /** The `entityFields` map filled by the loop over the row's fields: a field
      whose name is an entity name is stored with `putIfAbsent`. */
  function EntityFields(fields: seq<Field>, names: seq<string>): map<string, Field>
  {
    if |fields| == 0 then map[]
    else
      var m := EntityFields(fields[..|fields| - 1], names);
      var f := fields[|fields| - 1];
      if f.name in names && f.name !in m then m[f.name := Field(f.name, f.value)] else m
  }

  /** The map keeps, for each entity name, the first field carrying it. */
  lemma {:induction false} EntityFieldsFirst(fields: seq<Field>, names: seq<string>, name: string)
    ensures name in EntityFields(fields, names) <==> name in names && FirstField(fields, name).Some?
    ensures name in EntityFields(fields, names) ==>
      EntityFields(fields, names)[name] == FirstField(fields, name).value
  {
    if |fields| > 0 {
      var init := fields[..|fields| - 1];
      var last := fields[|fields| - 1];
      EntityFieldsFirst(init, names, name);
      assert init + [last] == fields;
      FirstFieldSnoc(init, last, name);
    }
  }

  /** A stored entity field is the row's first field with its name. */
  lemma EntityFieldAt(fields: seq<Field>, names: seq<string>, n: string)
    requires n in EntityFields(fields, names)
    ensures EntityFields(fields, names)[n].name == n
    ensures exists j :: FirstWith(fields, j, n) && fields[j] == EntityFields(fields, names)[n]
  {
    EntityFieldsFirst(fields, names, n);
    FirstFieldIsFirst(fields, n);
  }

  /** The entity names of a feature set, sorted. */
  function SortedEntityNames(spec: FeatureSetSpec): (r: seq<string>)
    ensures Sorted(r)
    ensures multiset(r) == multiset(EntityNames(spec))
  {
    SortStrings(EntityNames(spec))
  }

  /** The loop of `addEntities` calls: a name missing from the map adds a
      null entity, which the protobuf builder rejects. */
  function AddEntities(names: seq<string>, m: map<string, Field>): (r: Result<seq<Field>, Error>)
    ensures r.Ok? <==> forall i :: 0 <= i < |names| ==> names[i] in m
    ensures r.Ok? ==> |r.value| == |names| && forall i :: 0 <= i < |names| ==> r.value[i] == m[names[i]]
    ensures r.Err? ==> exists i :: (0 <= i < |names| && names[i] !in m
      && r.error == MissingEntityValue(names[i]) && forall k :: 0 <= k < i ==> names[k] in m)
  {
    if |names| == 0 then Ok([])
    else if names[0] !in m then Err(MissingEntityValue(names[0]))
    else
      var rest := AddEntities(names[1..], m);
      if rest.Err? then
        assert forall k :: 1 <= k < |names| ==> names[k] == names[1..][k - 1];
        Err(rest.error)
      else Ok([m[names[0]]] + rest.value)
  }

  /** `getKey`: an unknown feature-set reference fails when the specification
      of the missing feature set is read. */
  function GetKey(row: FeatureRow, featureSets: map<string, FeatureSet>): (r: Result<RedisKey, Error>)
    ensures row.featureSet !in featureSets <==> r == Err(UnknownFeatureSet(row.featureSet))
    ensures r.Ok? ==> r.value.featureSet == row.featureSet
  {
    if row.featureSet !in featureSets then Err(UnknownFeatureSet(row.featureSet))
    else
      var names := SortedEntityNames(featureSets[row.featureSet].spec);
      var entities :- AddEntities(names, EntityFields(row.fields, names));
      Ok(RedisKey(row.featureSet, entities))
  }

  /** A name is among the sorted entity names exactly when some entity of
      the feature set carries it. */
  lemma SortedEntityNamesMembers(spec: FeatureSetSpec, n: string)
    ensures n in SortedEntityNames(spec) <==> exists e :: e in spec.entities && e.name == n
  {
    var names := SortedEntityNames(spec);
    if n in names {
      assert n in multiset(EntityNames(spec));
      var k :| 0 <= k < |spec.entities| && EntityNames(spec)[k] == n;
      assert spec.entities[k] in spec.entities;
    }
    if e :| e in spec.entities && e.name == n {
      var k :| 0 <= k < |spec.entities| && spec.entities[k] == e;
      assert EntityNames(spec)[k] == n;
      assert n in multiset(names);
    }
  }

  /** The key exists exactly when every entity of the feature set has a
      field in the row. */
  lemma {:induction false} GetKeyDefined(row: FeatureRow, featureSets: map<string, FeatureSet>)
    requires row.featureSet in featureSets
    ensures var spec := featureSets[row.featureSet].spec;
      GetKey(row, featureSets).Ok? <==>
        forall e :: e in spec.entities ==> exists i :: 0 <= i < |row.fields| && row.fields[i].name == e.name
  {
    var spec := featureSets[row.featureSet].spec;
    var names := SortedEntityNames(spec);
    var m := EntityFields(row.fields, names);
    forall n | n in names
      ensures n in m <==> exists i :: 0 <= i < |row.fields| && row.fields[i].name == n
    {
      EntityFieldsFirst(row.fields, names, n);
      FirstFieldIsFirst(row.fields, n);
    }
    forall e | e in spec.entities
      ensures e.name in names
    {
      SortedEntityNamesMembers(spec, e.name);
    }
    forall n | n in names
      ensures exists e :: e in spec.entities && e.name == n
    {
      SortedEntityNamesMembers(spec, n);
    }
  }

  /** The entities of a successful key are the values `addEntities` found. */
  lemma GetKeyValue(row: FeatureRow, featureSets: map<string, FeatureSet>)
    requires GetKey(row, featureSets).Ok?
    ensures var names := SortedEntityNames(featureSets[row.featureSet].spec);
      var m := EntityFields(row.fields, names);
      AddEntities(names, m).Ok? && GetKey(row, featureSets).value.entities == AddEntities(names, m).value
  {
  }

  lemma GetKeyNames(row: FeatureRow, featureSets: map<string, FeatureSet>)
    requires GetKey(row, featureSets).Ok?
    ensures KeysOf(GetKey(row, featureSets).value.entities, (f: Field) => f.name)
         == SortedEntityNames(featureSets[row.featureSet].spec)
  {
    var names := SortedEntityNames(featureSets[row.featureSet].spec);
    var m := EntityFields(row.fields, names);
    GetKeyValue(row, featureSets);
    var ents := AddEntities(names, m).value;
    var ks := KeysOf(ents, (f: Field) => f.name);
    forall i | 0 <= i < |ents| ensures ks[i] == names[i] {
      EntityFieldAt(row.fields, names, names[i]);
    }
  }

  lemma GetKeyFirstFields(row: FeatureRow, featureSets: map<string, FeatureSet>)
    requires GetKey(row, featureSets).Ok?
    ensures var ents := GetKey(row, featureSets).value.entities;
      forall i :: 0 <= i < |ents| ==>
        exists j :: FirstWith(row.fields, j, ents[i].name) && row.fields[j] == ents[i]
  {
    var names := SortedEntityNames(featureSets[row.featureSet].spec);
    var m := EntityFields(row.fields, names);
    GetKeyValue(row, featureSets);
    var ents := AddEntities(names, m).value;
    forall i | 0 <= i < |ents|
      ensures exists j :: FirstWith(row.fields, j, ents[i].name) && row.fields[j] == ents[i]
    {
      EntityFieldAt(row.fields, names, names[i]);
    }
  }

  /** The entities of a key are named by the feature set's entity names in
      sorted order, and each is the row's first field with its name. */
  lemma GetKeyEntities(row: FeatureRow, featureSets: map<string, FeatureSet>)
    requires GetKey(row, featureSets).Ok?
    ensures var spec := featureSets[row.featureSet].spec;
      var ents := GetKey(row, featureSets).value.entities;
      Sorted(KeysOf(ents, (f: Field) => f.name))
      && multiset(KeysOf(ents, (f: Field) => f.name)) == multiset(EntityNames(spec))
    ensures var ents := GetKey(row, featureSets).value.entities;
      forall i :: 0 <= i < |ents| ==>
        exists j :: FirstWith(row.fields, j, ents[i].name) && row.fields[j] == ents[i]
  {
    GetKeyNames(row, featureSets);
    GetKeyFirstFields(row, featureSets);
  }

  /** The key does not depend on the order in which the feature set lists
      its entities. */
  lemma GetKeyIgnoresEntityOrder(row: FeatureRow, a: map<string, FeatureSet>, b: map<string, FeatureSet>)
    requires row.featureSet in a && row.featureSet in b
    requires multiset(EntityNames(a[row.featureSet].spec)) == multiset(EntityNames(b[row.featureSet].spec))
    ensures GetKey(row, a) == GetKey(row, b)
  {
    SortedUnique(SortedEntityNames(a[row.featureSet].spec), SortedEntityNames(b[row.featureSet].spec));
  }

  /** Two rows of the same feature set whose first field for every entity
      agree have the same key: later duplicates and non-entity fields play no
      part. */
  lemma GetKeyDependsOnFirstEntityFields(row1: FeatureRow, row2: FeatureRow, featureSets: map<string, FeatureSet>)
    requires row1.featureSet == row2.featureSet
    requires row1.featureSet in featureSets ==>
      forall e :: e in featureSets[row1.featureSet].spec.entities ==>
        FirstField(row1.fields, e.name) == FirstField(row2.fields, e.name)
    ensures GetKey(row1, featureSets) == GetKey(row2, featureSets)
  {
    if row1.featureSet in featureSets {
      var spec := featureSets[row1.featureSet].spec;
      var names := SortedEntityNames(spec);
      var m1 := EntityFields(row1.fields, names);
      var m2 := EntityFields(row2.fields, names);
      forall n
        ensures n in m1 <==> n in m2
        ensures n in m1 ==> m1[n] == m2[n]
      {
        EntityFieldsFirst(row1.fields, names, n);
        EntityFieldsFirst(row2.fields, names, n);
        SortedEntityNamesMembers(spec, n);
      }
      assert m1 == m2;
    }
  }

  lemma {:induction false} FirstFieldSkips(a: seq<Field>, f: Field, b: seq<Field>, name: string)
    requires f.name != name
    ensures FirstField(a + [f] + b, name) == FirstField(a + b, name)
  {
    if |a| == 0 {
      assert a + [f] + b == [f] + b;
      assert ([f] + b)[1..] == b;
      assert a + b == b;
    } else {
      assert (a + [f] + b)[1..] == a[1..] + [f] + b;
      assert (a + b)[1..] == a[1..] + b;
      FirstFieldSkips(a[1..], f, b, name);
    }
  }

  /** A field whose name is not an entity name of the row's feature set
      leaves the key as it is, wherever it stands in the row. */
  lemma GetKeyIgnoresOtherField(row: FeatureRow, a: seq<Field>, f: Field, b: seq<Field>,
                                featureSets: map<string, FeatureSet>)
    requires row.fields == a + b
    requires row.featureSet in featureSets ==>
      forall e :: e in featureSets[row.featureSet].spec.entities ==> e.name != f.name
    ensures GetKey(row.(fields := a + [f] + b), featureSets) == GetKey(row, featureSets)
  {
    var row2 := row.(fields := a + [f] + b);
    if row.featureSet in featureSets {
      forall e | e in featureSets[row.featureSet].spec.entities
        ensures FirstField(row2.fields, e.name) == FirstField(row.fields, e.name)
      {
        FirstFieldSkips(a, f, b, e.name);
      }
    }
    GetKeyDependsOnFirstEntityFields(row2, row, featureSets);
  }
}
