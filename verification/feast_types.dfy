/** The data the connector works on: the value-type enum of feature
    definitions, the tagged values carried by feature rows, feature-set
    specifications and the feature rows themselves, plus the errors the
    connector raises. */
module FeastTypes {

  /** `ValueType.Enum`: the seven scalar kinds, their list variants, the
      invalid zero value and any enum number this model does not name. */
  datatype ValueType =
    | Invalid
    | Bytes | String | Int32 | Int64 | Double | Float | Bool
    | BytesList | StringList | Int32List | Int64List | DoubleList | FloatList | BoolList
    | Unrecognized(number: int)
  {
    predicate IsScalar() {
      Bytes? || String? || Int32? || Int64? || Double? || Float? || Bool?
    }

    predicate IsList() {
      BytesList? || StringList? || Int32List? || Int64List? || DoubleList? || FloatList? || BoolList?
    }
  }

  /** A floating-point value kept abstract: only its bit pattern is carried. */
  datatype FloatBits = FloatBits(bits: nat)

  /** The payload of a list value; the element encodings are kept abstract. */
  datatype ListVal =
    | BytesListVal(bytesItems: seq<seq<bv8>>)
    | StringListVal(stringItems: seq<string>)
    | Int32ListVal(int32Items: seq<int>)
    | Int64ListVal(int64Items: seq<int>)
    | FloatListVal(floatItems: seq<FloatBits>)
    | DoubleListVal(doubleItems: seq<FloatBits>)
    | BoolListVal(boolItems: seq<bool>)

  /** `Value` with its `ValCase`: one of the scalar or list cases, or nothing
      set (the default instance). */
  datatype Value =
    | BytesVal(bytes: seq<bv8>)
    | StringVal(str: string)
    | Int32Val(i32: int)
    | Int64Val(i64: int)
    | FloatVal(f32: FloatBits)
    | DoubleVal(f64: FloatBits)
    | BoolVal(b: bool)
    | ListValue(list: ListVal)
    | ValNotSet

  datatype Field = Field(name: string, value: Value)

  /** A protobuf `Timestamp`: whole seconds since the epoch and nanoseconds. */
  datatype Timestamp = Timestamp(seconds: int, nanos: int)

  /** A protobuf `Duration`. */
  datatype Duration = Duration(seconds: int, nanos: int)

  datatype EntitySpec = EntitySpec(name: string, valueType: ValueType)

  datatype FeatureSpec = FeatureSpec(name: string, valueType: ValueType)

  datatype FeatureSetSpec = FeatureSetSpec(
    project: string,
    name: string,
    entities: seq<EntitySpec>,
    features: seq<FeatureSpec>,
    maxAge: Duration)

  datatype FeatureSet = FeatureSet(spec: FeatureSetSpec)

  /** A feature row tagged with the reference of its feature set. */
  datatype FeatureRow = FeatureRow(
    featureSet: string,
    fields: seq<Field>,
    eventTimestamp: Timestamp,
    ingestionId: string)

  function EntityNames(spec: FeatureSetSpec): (r: seq<string>)
    ensures |r| == |spec.entities|
    ensures forall i :: 0 <= i < |r| ==> r[i] == spec.entities[i].name
  {
    seq(|spec.entities|, i requires 0 <= i < |spec.entities| => spec.entities[i].name)
  }

  /** `DataFormat` of the serving API: the file format of entity sources,
      staged files and retrieval results. */
  datatype DataFormat = Avro | Csv | OtherFormat

  /** Why an operation of the connector fails (the exception it throws). */
  datatype Error =
    | UnsupportedDriverClass  // the message does not name the class
    | UnexpectedColumns(table: string, columns: set<string>)
    | EmptyTableName(featureSetRef: string)
    | TableLookupFailed(table: string)
    | ConnectionFailed(url: string, className: string)
    | StatementFailed(statement: string)
    | UnsupportedEntityFormat
    | MissingTimestampBound(bound: string)
    | UnparsableLocation(location: string)
    | DuplicateFieldName(name: string)
    | MissingEntityValue(name: string)
    | UnknownFeatureSet(featureSetRef: string)
    | UnsubscribedFeatureSet(featureSetRef: string)
    | EmptySplitResult
    | MissingEventTimestampColumn
    | UnsupportedDataFormat
    | UnsupportedSource(source: string)
    | UnsupportedStagingScheme(location: string)
    | NoFeatureSets
}
