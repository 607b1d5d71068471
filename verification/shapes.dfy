/** The columns of each table in the order the builders add them. */
module TableShapes {
  import opened Wrappers
  import opened Protocols
  import opened Attributes
  import opened Store
  import opened Schema
  import opened Domains
  import opened Aliases

  /** The names of the fields a log of AddField operations adds, in order. */
  function FieldNames(ops: seq<Op>): (names: seq<string>)
    ensures |names| == |ops|
  {
    seq(|ops|, i requires 0 <= i < |ops| => if ops[i].AddField? then ops[i].field.name else "")
  }

  lemma FieldNamesAppend(a: seq<Op>, b: seq<Op>)
    ensures FieldNames(a + b) == FieldNames(a) + FieldNames(b)
  {
    assert forall i :: 0 <= i < |a + b| ==> (a + b)[i] == if i < |a| then a[i] else b[i - |a|];
  }

  /** The names of a list of columns. */
  function ColumnNames(cols: seq<Column>): (names: seq<string>)
    ensures |names| == |cols| && forall i :: 0 <= i < |cols| ==> names[i] == cols[i].name
  {
    seq(|cols|, i requires 0 <= i < |cols| => cols[i].name)
  }

  lemma ColumnOpsNames(t: string, cols: seq<Column>)
    ensures FieldNames(ColumnOps(t, cols)) == ColumnNames(cols)
  {
  }

  lemma StandardFieldsNames(t: string, f: CsvFields)
    requires |f.names| <= |f.types|
    ensures FieldNames(StandardFields(t, f).ops) == f.names
  {
  }

  /** The GPS points table: a point feature class in WGS 84 whose columns are
      the csv field names, then TrackLog_ID. */
  lemma GpsPointsShape(csv: Csv)
    requires GpsPointsTable(csv).failure.None?
    ensures var ops := GpsPointsTable(csv).ops;
      && |ops| >= 1 && ops[0] == CreateTable(csv.gpsPoints.name, Point, SpatialReference)
      && FieldNames(ops[1..]) == csv.gpsPoints.fields.names + [TrackLogLink]
  {
    var t := csv.gpsPoints.name;
    var std := StandardFields(t, csv.gpsPoints.fields);
    var link := [AddField(t, LinkField(TrackLogLink))];
    assert GpsPointsTable(csv).ops[1..] == std.ops + link;
    StandardFieldsNames(t, csv.gpsPoints.fields);
    FieldNamesAppend(std.ops, link);
  }

  /** The track log table: a polyline feature class in WGS 84 whose columns
      are the mission's attribute columns, then the csv field names. */
  lemma TrackLogShape(csv: Csv, cols: seq<Column>)
    requires TrackLogTable(csv, cols).failure.None?
    ensures var ops := TrackLogTable(csv, cols).ops;
      && |ops| >= 1 && ops[0] == CreateTable(csv.trackLogs.name, Polyline, SpatialReference)
      && FieldNames(ops[1..]) == ColumnNames(cols) + csv.trackLogs.fields.names
  {
    var t := csv.trackLogs.name;
    var std := StandardFields(t, csv.trackLogs.fields);
    assert TrackLogTable(csv, cols).ops[1..] == ColumnOps(t, cols) + std.ops;
    ColumnOpsNames(t, cols);
    StandardFieldsNames(t, csv.trackLogs.fields);
    FieldNamesAppend(ColumnOps(t, cols), std.ops);
  }

  /** The observations table: a point feature class in WGS 84 whose columns
      are the csv field names, then GpsPoint_ID. */
  lemma ObservationsShape(csv: Csv)
    requires ObservationsTable(csv).failure.None?
    ensures var ops := ObservationsTable(csv).ops;
      && |ops| >= 1 && ops[0] == CreateTable(csv.observations.name, Point, SpatialReference)
      && FieldNames(ops[1..]) == csv.observations.fields.names + [GpsPointLink]
  {
    var t := csv.observations.name;
    var std := StandardFields(t, csv.observations.fields);
    var link := [AddField(t, LinkField(GpsPointLink))];
    assert ObservationsTable(csv).ops[1..] == std.ops + link;
    StandardFieldsNames(t, csv.observations.fields);
    FieldNamesAppend(std.ops, link);
  }

  /** A feature table: a point feature class in WGS 84 whose columns are the
      feature's attribute columns, the csv feature fields, then GpsPoint_ID
      and Observation_ID. */
  lemma FeatureShape(csv: Csv, t: string, cols: seq<Column>)
    requires FeatureTable(csv, t, cols).failure.None?
    ensures var ops := FeatureTable(csv, t, cols).ops;
      && |ops| >= 1 && ops[0] == CreateTable(t, Point, SpatialReference)
      && FieldNames(ops[1..]) == ColumnNames(cols) + csv.featureFields.names + [GpsPointLink, ObservationLink]
  {
    var std := StandardFields(t, csv.featureFields);
    var links := [AddField(t, LinkField(GpsPointLink)), AddField(t, LinkField(ObservationLink))];
    assert FeatureTable(csv, t, cols).ops[1..] == ColumnOps(t, cols) + std.ops + links;
    ColumnOpsNames(t, cols);
    StandardFieldsNames(t, csv.featureFields);
    FieldNamesAppend(ColumnOps(t, cols), std.ops);
    FieldNamesAppend(ColumnOps(t, cols) + std.ops, links);
  }

  /** A feature's attribute columns are named after its attributes, in
      order. */
  lemma FeatureColumnNames(o: Owner, domains: DomainMap, aliases: AliasMap)
    requires CompileAttributes(o, domains, aliases).Success?
    ensures ColumnNames(CompileAttributes(o, domains, aliases).value) ==
      seq(|o.attributes.GetOr([])|, i requires 0 <= i < |o.attributes.GetOr([])| => o.attributes.GetOr([])[i].name)
  {
  }
}
