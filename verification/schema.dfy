/** The geodatabase builders (`build_domains`, the four `build_*_table_version1`
    functions, `build_relationships` and `build_database_version1`): each is a
    Step, the operations it performs on the store and the exception, if any,
    that stops it. */
module Schema {
  import opened Wrappers
  import opened Text
  import opened Dicts
  import opened Protocols
  import opened Aliases
  import opened Domains
  import opened Attributes
  import opened Store

  /** The link fields that join the tables. */
  const TrackLogLink := "TrackLog_ID"
  const GpsPointLink := "GpsPoint_ID"
  const ObservationLink := "Observation_ID"

  /** The observations table as `build_relationships` names it: fixed, not
      taken from the csv block. */
  const ObservationsName := "Observations"

  /** The origin key of every relationship. */
  const ObjectId := "OBJECTID"

  const BooleanDescription := "Yes/No values"

  // ---- Fields -------------------------------------------------------------

  /** A link field: LONG, with neither alias nor domain. */
  function LinkField(name: string): Field {
    Field(name, "LONG", "", "")
  }

  /** The field of an attribute column. Its nullability is dropped: the source
      passes "" for it, so `required` never reaches the store. */
  function ColumnField(c: Column): (f: Field)
    ensures f.name == c.name && f.fieldType == c.fieldType && f.alias == c.alias && f.domain == c.domain
  {
    Field(c.name, c.fieldType, c.alias, c.domain)
  }

  /** The attribute columns of a table, one AddField each, in order. */
  function ColumnOps(table: string, cols: seq<Column>): (ops: seq<Op>)
    ensures |ops| == |cols|
    ensures forall i :: 0 <= i < |cols| ==> ops[i] == AddField(table, ColumnField(cols[i]))
  {
    seq(|cols|, i requires 0 <= i < |cols| => AddField(table, ColumnField(cols[i])))
  }

  /** The "standard attributes" loop of a table built from a csv block: field
      `i` is named by `names[i]`, typed by `types[i]`, and aliased by its name
      with underscores shown as spaces. When there are fewer types than names,
      `types[i]` raises IndexError once the types run out. */
  function StandardFields(table: string, f: CsvFields): (s: Step)
    ensures s.failure.None? <==> |f.names| <= |f.types|
    ensures s.failure.Some? ==> s.failure.value == IndexOutOfRange(table) && |s.ops| == |f.types|
    ensures s.failure.None? ==> |s.ops| == |f.names|
    ensures forall i :: 0 <= i < |s.ops| ==>
      s.ops[i] == AddField(table, Field(f.names[i], f.types[i], Underscores(f.names[i]), ""))
  {
    var n := if |f.names| <= |f.types| then |f.names| else |f.types|;
    var ops := seq(n, i requires 0 <= i < n => AddField(table, Field(f.names[i], f.types[i], Underscores(f.names[i]), "")));
    if |f.names| <= |f.types| then Done(ops) else Fail(ops, IndexOutOfRange(table))
  }

  // ---- Tables -------------------------------------------------------------

  /** `build_gpspoints_table_version1`: a point feature class with the csv
      fields and the link to its track log. */
  function GpsPointsTable(csv: Csv): Step {
    var t := csv.gpsPoints.name;
    Done([CreateTable(t, Point, SpatialReference)])
      .Then(StandardFields(t, csv.gpsPoints.fields))
      .Then(Done([AddField(t, LinkField(TrackLogLink))]))
  }

  /** `build_tracklog_table_version1`: a polyline feature class with the
      mission's attribute columns, then the csv fields. */
  function TrackLogTable(csv: Csv, cols: seq<Column>): Step {
    var t := csv.trackLogs.name;
    Done([CreateTable(t, Polyline, SpatialReference)] + ColumnOps(t, cols))
      .Then(StandardFields(t, csv.trackLogs.fields))
  }

  /** `build_observations_table_version1`: a point feature class with the csv
      fields and the link to its GPS point. */
  function ObservationsTable(csv: Csv): Step {
    var t := csv.observations.name;
    Done([CreateTable(t, Point, SpatialReference)])
      .Then(StandardFields(t, csv.observations.fields))
      .Then(Done([AddField(t, LinkField(GpsPointLink))]))
  }

  /** `build_feature_table_version1` for the validated table name `t`: a point
      feature class with the feature's attribute columns, the csv feature
      fields, and links to its GPS point and its observation. */
  function FeatureTable(csv: Csv, t: string, cols: seq<Column>): Step {
    Done([CreateTable(t, Point, SpatialReference)] + ColumnOps(t, cols))
      .Then(StandardFields(t, csv.featureFields))
      .Then(Done([AddField(t, LinkField(GpsPointLink)), AddField(t, LinkField(ObservationLink))]))
  }

  // ---- Domains ------------------------------------------------------------

  /** The domain created for the coded attribute `name`. */
  function CodesDomain(name: string): string {
    name + "Codes"
  }

  /** One coded-value domain: item `i` of the list is the label of code `i`. */
  function CodedDomainOps(name: string, items: seq<string>): (ops: seq<Op>)
    ensures |ops| == 1 + |items|
    ensures ops[0] == CreateDomain(CodesDomain(name), "Valid values for " + name)
    ensures forall i :: 0 <= i < |items| ==> ops[1 + i] == AddCodedValue(CodesDomain(name), i, items[i])
  {
    [CreateDomain(CodesDomain(name), "Valid values for " + name)]
      + seq(|items|, i requires 0 <= i < |items| => AddCodedValue(CodesDomain(name), i, items[i]))
  }

  /** The coded-value domains of `keys`, in that order. */
  function CodedDomainsOps(d: DomainMap, keys: seq<string>): seq<Op>
    requires forall k :: k in keys ==> k in d.values
    decreases |keys|
  {
    if keys == [] then []
    else CodedDomainOps(keys[0], d.values[keys[0]]) + CodedDomainsOps(d, keys[1..])
  }

  /** `build_domains`: the Boolean domain (0 "No", 1 "Yes"), then one
      coded-value domain per extracted attribute name, in the dictionary's
      order. */
  function DomainOps(d: DomainMap): seq<Op>
    requires d.Valid()
  {
    [ CreateDomain(BooleanDomain, BooleanDescription),
      AddCodedValue(BooleanDomain, 0, "No"),
      AddCodedValue(BooleanDomain, 1, "Yes") ]
    + CodedDomainsOps(d, d.keys)
  }

  // ---- Relationships ------------------------------------------------------

  /** The two relationships of a feature table `f`: to its GPS point and to
      its observation. */
  function FeatureRelationships(csv: Csv, f: string): seq<Op> {
    [ CreateRelationship(Relationship(csv.gpsPoints.name, f, f + "_to_GpsPoint", Simple,
        f, "GpsPoint", OneToOne, ObjectId, GpsPointLink)),
      CreateRelationship(Relationship(ObservationsName, f, f + "_to_Observation", Simple,
        f, "Observation", OneToOne, ObjectId, ObservationLink)) ]
  }

  /** The loop of `build_relationships` over the features from `i` on; a
      feature without `name` raises KeyError. */
  function FeatureRelationshipsFrom(csv: Csv, features: seq<Owner>, i: nat, store: Store, db: Workspace): Step
    decreases |features| - i
  {
    if i >= |features| then Done([])
    else match features[i].name
      case None => Fail([], MissingKey("name"))
      case Some(n) =>
        Done(FeatureRelationships(csv, store.validate(n, db)))
          .Then(FeatureRelationshipsFrom(csv, features, i + 1, store, db))
  }

  /** `build_relationships`: the track log owns its GPS points (composite,
      one to many); each GPS point has one observation; each feature row has
      one GPS point and one observation. */
  function Relationships(csv: Csv, features: seq<Owner>, store: Store, db: Workspace): Step {
    Done([ CreateRelationship(Relationship(csv.trackLogs.name, csv.gpsPoints.name, "GpsPoints_to_TrackLog",
             Composite, "GpsPoints", "TrackLog", OneToMany, ObjectId, TrackLogLink)),
           CreateRelationship(Relationship(csv.gpsPoints.name, ObservationsName, "Observations_to_GpsPoint",
             Simple, "Observations", "GpsPoints", OneToOne, ObjectId, GpsPointLink)) ])
      .Then(FeatureRelationshipsFrom(csv, features, 0, store, db))
  }

  // ---- The database -------------------------------------------------------

  /** The loop of `build_database_version1` over the features from `i` on.
      The arguments are evaluated before the call: `feature["name"]` first
      (KeyError), then `get_attributes` (KeyError on an unknown type). */
  function FeatureTables(csv: Csv, features: seq<Owner>, i: nat, domains: DomainMap, aliases: AliasMap,
                         store: Store, db: Workspace): Step
    decreases |features| - i
  {
    if i >= |features| then Done([])
    else match features[i].name
      case None => Fail([], MissingKey("name"))
      case Some(n) =>
        match CompileAttributes(features[i], domains, aliases)
        case Failure(e) => Fail([], e)
        case Success(cols) =>
          FeatureTable(csv, store.validate(n, db), cols)
            .Then(FeatureTables(csv, features, i + 1, domains, aliases, store, db))
  }

  /** The mission columns exactly as `build_database_version1` obtains them:
      its `except KeyError` meant for a protocol without a mission also
      swallows the KeyError of a mission attribute with an unknown type, and
      the track log then silently gets no mission columns at all. */
  function MissionColumnsAsWritten(p: Protocol, domains: DomainMap, aliases: AliasMap): (cols: seq<Column>)
    ensures p.mission.None? ==> cols == []
    ensures p.mission.Some? && CompileAttributes(p.mission.value, domains, aliases).Failure? ==> cols == []
    ensures p.mission.Some? && CompileAttributes(p.mission.value, domains, aliases).Success? ==>
      cols == CompileAttributes(p.mission.value, domains, aliases).value
  {
    match p.mission
    case None => []
    case Some(m) =>
      match CompileAttributes(m, domains, aliases)
      case Failure(_) => []
      case Success(cols) => cols
  }

  /** The mission columns as intended: no columns without a mission, and an
      unknown attribute type raises as it does for a feature. */
  function MissionColumns(p: Protocol, domains: DomainMap, aliases: AliasMap): (r: Result<seq<Column>, Error>)
    ensures p.mission.None? ==> r == Success([])
    ensures r.Failure? <==> p.mission.Some? && CompileAttributes(p.mission.value, domains, aliases).Failure?
  {
    match p.mission
    case None => Success([])
    case Some(m) => CompileAttributes(m, domains, aliases)
  }

  /** The track log step as `build_database_version1` runs it: the table
      with the mission columns as written, so a mission attribute of unknown
      type leaves the track log without mission columns. */
  function TrackStep(p: Protocol, csv: Csv, d: DomainMap): Step {
    TrackLogTable(csv, MissionColumnsAsWritten(p, d, ExtractAliases(p)))
  }

  /** The track log step as intended: an unknown mission attribute type
      raises before the table is created. */
  function TrackStepIntended(p: Protocol, csv: Csv, d: DomainMap): Step {
    match MissionColumns(p, d, ExtractAliases(p))
    case Failure(e) => Fail([], e)
    case Success(cols) => TrackLogTable(csv, cols)
  }

  /** Everything after the domains are known. */
  function BuildTables(p: Protocol, csv: Csv, domains: DomainMap, store: Store, db: Workspace): Step
    requires domains.Valid()
  {
    var aliases := ExtractAliases(p);
    Done(DomainOps(domains))
      .Then(GpsPointsTable(csv))
      .Then(TrackStep(p, csv, domains))
      .Then(ObservationsTable(csv))
      .Then(FeatureTables(csv, p.features, 0, domains, aliases, store, db))
      .Then(Relationships(csv, p.features, store, db))
  }

  /** `build_database_version1`: the geodatabase `name` in `folder`, then the
      domains, the GPS point, track log, observation and feature tables, and
      the relationships. The domains are extracted after the geodatabase is
      created, so a malformed dialog leaves an empty geodatabase behind. */
  function BuildDatabase(p: Protocol, csv: Csv, folder: string, name: string, store: Store): Step {
    Done([CreateDatabase(folder, name)]).Then(
      match ExtractDomains(p)
      case Failure(e) => Fail([], e)
      case Success(domains) => BuildTables(p, csv, domains, store, Database(folder, name)))
  }
}
