/** The Park Observer protocol document as the compiler reads it.

    A key the compiler reads with plain indexing and no fallback (meta-name,
    meta-version, version, name, features, an attribute's name and type, a
    dialog's sections, a section's elements, every csv entry) is a plain field:
    a document without it makes the source raise KeyError before it does
    anything of interest, so such documents are not represented. A key the
    compiler tests for, or reads inside `try`, is an `Option`. */
module Protocols {
  import opened Wrappers

  /** The sentinel value of `meta-name`. */
  const ProtocolSentinel := "NPS-Protocol-Specification"

  /** The largest `meta-version` the compiler accepts. */
  const MaxMetaVersion := 2.0

  /** An element's `bind` value: a JSON string, or any other JSON value (on
      which string methods raise AttributeError). */
  datatype Bind = Text(text: string) | NotText

  /** A dialog element (`QRadioElement`, `QEntryElement`, ...). */
  datatype Element = Element(
    kind: Option<string>,           // "type"
    title: Option<string>,          // "title"
    bind: Option<Bind>,             // "bind", e.g. "selected:species"
    items: Option<seq<string>>)     // "items" of a radio element

  datatype Section = Section(title: Option<string>, elements: seq<Element>)

  datatype Dialog = Dialog(sections: seq<Section>)

  /** A protocol attribute: a column of the owner's table. */
  datatype Attribute = Attribute(name: string, typeCode: int, required: Option<bool>)

  /** The mission block or one feature block: both have the same shape, and
      the mission usually has no `name`. */
  datatype Owner = Owner(
    name: Option<string>,
    attributes: Option<seq<Attribute>>,
    dialog: Option<Dialog>)

  /** `field_names` and the parallel `field_types` of one csv block. */
  datatype CsvFields = CsvFields(names: seq<string>, types: seq<string>)

  /** A csv block naming one of the fixed tables. */
  datatype CsvTable = CsvTable(name: string, fields: CsvFields)

  /** The `csv` block: `gps_points`, `track_logs`, the `obs_*` part of
      `features` (the observations table) and its `feature_*` part (the fixed
      columns of every feature table). */
  datatype Csv = Csv(
    gpsPoints: CsvTable,
    trackLogs: CsvTable,
    observations: CsvTable,
    featureFields: CsvFields)

  datatype Protocol = Protocol(
    metaName: string,
    metaVersion: real,
    version: real,
    name: string,
    mission: Option<Owner>,
    features: seq<Owner>,
    csv: Option<Csv>)

  /** The exceptions the compiler can raise on a representable document. */
  datatype Error =
    | UnknownAttributeType(code: int)   // KeyError from the type table
    | MissingKey(key: string)           // KeyError on an element or feature
    | NotAString(key: string)           // AttributeError on a non-string bind
    | IndexOutOfRange(table: string)    // IndexError: fewer field_types than field_names

  /** The mission (when present) followed by the features, in document order:
      the order both extractors visit the owners in. */
  function Owners(p: Protocol): (os: seq<Owner>)
    ensures |os| == |p.features| + (if p.mission.Some? then 1 else 0)
    ensures p.mission.Some? ==> os[0] == p.mission.value && os[1..] == p.features
    ensures p.mission.None? ==> os == p.features
  {
    (if p.mission.Some? then [p.mission.value] else []) + p.features
  }

  /** Every element of a dialog, section by section. */
  function AllElements(sections: seq<Section>): (es: seq<Element>)
    ensures forall s, e :: s in sections && e in s.elements ==> e in es
    ensures forall e :: e in es ==> exists s :: s in sections && e in s.elements
    decreases |sections|
  {
    if sections == [] then []
    else sections[0].elements + AllElements(sections[1..])
  }
}
