/** What `build_database_version1` builds as a whole: when it raises, what a
    successful build creates, and why the geodatabase it leaves is
    consistent. */
module BuildLemmas {
  import opened Wrappers
  import opened Dicts
  import opened Protocols
  import opened Aliases
  import opened Domains
  import opened Attributes
  import opened Store
  import opened Schema
  import opened SchemaLemmas

  /** A chain of six steps raises exactly when one of them does. */
  lemma ThenChainSucceeds(a: Step, b: Step, c: Step, d: Step, e: Step, f: Step)
    ensures a.Then(b).Then(c).Then(d).Then(e).Then(f).failure.None? <==>
      a.failure.None? && b.failure.None? && c.failure.None? && d.failure.None? && e.failure.None? && f.failure.None?
  {
  }

  /** The relationship loop raises exactly when a feature has no name. */
  lemma RelationshipsSucceed(csv: Csv, features: seq<Owner>, store: Store, db: Workspace)
    ensures Relationships(csv, features, store, db).failure.None? <==>
      forall j :: 0 <= j < |features| ==> features[j].name.Some?
  {
    RelationshipsSteps(csv, features, store, db);
    FeatureRelationshipsFacts(csv, features, 0, store, db);
  }

  /** The track log step raises exactly when the track log csv block lacks
      field types; the mission never makes it raise. */
  lemma TrackStepSucceeds(p: Protocol, csv: Csv, d: DomainMap)
    ensures TrackStep(p, csv, d).failure.None? <==> FieldsFit(csv.trackLogs.fields)
  {
    MissionColumnsUse(p, d, ExtractAliases(p));
    TrackLogTableOps(csv, MissionColumnsAsWritten(p, d, ExtractAliases(p)), KnownDomains(d));
  }

  /** The GPS points and observations tables are created without raising
      exactly when their csv blocks have enough field types. */
  lemma FixedTablesSucceed(csv: Csv)
    ensures GpsPointsTable(csv).failure.None? <==> FieldsFit(csv.gpsPoints.fields)
    ensures ObservationsTable(csv).failure.None? <==> FieldsFit(csv.observations.fields)
  {
    GpsPointsTableOps(csv, {});
    ObservationsTableOps(csv, {});
  }

  /** Everything that must hold of the tables part of a build, once the
      domains `d` are known. */
  predicate TablesBuildable(p: Protocol, csv: Csv, d: DomainMap) {
    && FieldsFit(csv.gpsPoints.fields) && FieldsFit(csv.trackLogs.fields) && FieldsFit(csv.observations.fields)
    && (|p.features| > 0 ==> FieldsFit(csv.featureFields))
    && forall j :: 0 <= j < |p.features| ==> FeatureOk(p.features[j], d, ExtractAliases(p))
  }

  /** The tables, domains and relationships are built without raising exactly
      when the tables part is buildable. */
  lemma BuildTablesSucceed(p: Protocol, csv: Csv, d: DomainMap, store: Store, db: Workspace)
    requires d.Valid()
    ensures BuildTables(p, csv, d, store, db).failure.None? <==> TablesBuildable(p, csv, d)
  {
    if TablesBuildable(p, csv, d) {
      BuildableTablesSucceed(p, csv, d, store, db);
    } else {
      UnbuildableTablesFail(p, csv, d, store, db);
    }
  }

  /** One direction: a buildable tables part does not raise. */
  lemma BuildableTablesSucceed(p: Protocol, csv: Csv, d: DomainMap, store: Store, db: Workspace)
    requires d.Valid() && TablesBuildable(p, csv, d)
    ensures BuildTables(p, csv, d, store, db).failure.None?
  {
    var aliases := ExtractAliases(p);
    FixedTablesSucceed(csv);
    TrackStepSucceeds(p, csv, d);
    FeatureTablesSuccess(csv, p.features, 0, d, aliases, store, db);
    FeaturesNamed(p.features, d, aliases);
    RelationshipsSucceed(csv, p.features, store, db);
    ThenChainSucceeds(Done(DomainOps(d)), GpsPointsTable(csv), TrackStep(p, csv, d), ObservationsTable(csv),
      FeatureTables(csv, p.features, 0, d, aliases, store, db), Relationships(csv, p.features, store, db));
  }

  /** The other direction: a tables part that is not buildable raises. */
  lemma UnbuildableTablesFail(p: Protocol, csv: Csv, d: DomainMap, store: Store, db: Workspace)
    requires d.Valid() && !TablesBuildable(p, csv, d)
    ensures BuildTables(p, csv, d, store, db).failure.Some?
  {
    var aliases := ExtractAliases(p);
    FixedTablesSucceed(csv);
    TrackStepSucceeds(p, csv, d);
    FeatureTablesSuccess(csv, p.features, 0, d, aliases, store, db);
    ThenChainSucceeds(Done(DomainOps(d)), GpsPointsTable(csv), TrackStep(p, csv, d), ObservationsTable(csv),
      FeatureTables(csv, p.features, 0, d, aliases, store, db), Relationships(csv, p.features, store, db));
  }

  /** Features that compile are named. */
  lemma FeaturesNamed(features: seq<Owner>, d: DomainMap, aliases: AliasMap)
    requires forall j :: 0 <= j < |features| ==> FeatureOk(features[j], d, aliases)
    ensures forall j :: 0 <= j < |features| ==> features[j].name.Some?
  {
    forall j | 0 <= j < |features| ensures features[j].name.Some? {
      assert FeatureOk(features[j], d, aliases);
    }
  }

  /** Everything that must hold of a protocol and its csv block for the build
      to finish. */
  predicate Buildable(p: Protocol, csv: Csv) {
    && ExtractDomains(p).Success?
    && TablesBuildable(p, csv, ExtractDomains(p).value)
  }

  /** `build_database_version1` finishes exactly when the dialogs are well
      formed, every feature is named and has only known attribute types, and
      no csv block has fewer field types than field names (the feature fields
      only matter when there is a feature). The mission plays no part: an
      unknown mission attribute type only drops the mission columns. */
  lemma BuildSucceeds(p: Protocol, csv: Csv, folder: string, name: string, store: Store)
    ensures BuildDatabase(p, csv, folder, name, store).failure.None? <==> Buildable(p, csv)
  {
    if ExtractDomains(p).Success? {
      BuildTablesSucceed(p, csv, ExtractDomains(p).value, store, Database(folder, name));
    }
  }

  /** A malformed dialog makes the build raise right after it has created
      the geodatabase, which is left empty. */
  lemma BadDialogLeavesEmptyDatabase(p: Protocol, csv: Csv, folder: string, name: string, store: Store)
    requires ExtractDomains(p).Failure?
    ensures var s := BuildDatabase(p, csv, folder, name, store);
      s.ops == [CreateDatabase(folder, name)] && s.failure == Some(ExtractDomains(p).error)
  {
  }

  /** A build that finishes: its log is the geodatabase, the domains and
      tables, then the relationships. */
  lemma BuildLog(p: Protocol, csv: Csv, folder: string, name: string, store: Store)
    requires BuildDatabase(p, csv, folder, name, store).failure.None?
    ensures ExtractDomains(p).Success?
    ensures var d := ExtractDomains(p).value;
      var db := Database(folder, name);
      && TrackStep(p, csv, d).failure.None?
      && FeatureTables(csv, p.features, 0, d, ExtractAliases(p), store, db).failure.None?
      && Relationships(csv, p.features, store, db).failure.None?
      && BuildDatabase(p, csv, folder, name, store).ops ==
           [CreateDatabase(folder, name)] + TablesPart(p, csv, d, store, db) + Relationships(csv, p.features, store, db).ops
  {
    BuildParts(p, csv, folder, name, store);
    var d := ExtractDomains(p).value;
    BuildTablesParts(p, csv, d, store, Database(folder, name));
  }

  /** The tables of a finished build, in creation order: GPS points, track
      logs, observations, then one per feature under its validated name. */
  lemma BuildTablesCreated(p: Protocol, csv: Csv, folder: string, name: string, store: Store)
    requires BuildDatabase(p, csv, folder, name, store).failure.None?
    ensures TablesOf(BuildDatabase(p, csv, folder, name, store).ops) ==
      [csv.gpsPoints.name, csv.trackLogs.name, csv.observations.name] + FeatureNames(p.features, store, Database(folder, name))
  {
    BuildLog(p, csv, folder, name, store);
    var d := ExtractDomains(p).value;
    var db := Database(folder, name);
    var tp := TablesPart(p, csv, d, store, db);
    var rels := Relationships(csv, p.features, store, db).ops;
    TablesPartCreate(p, csv, d, store, db);
    RelationshipsSteps(csv, p.features, store, db);
    RelationshipsOnly(rels);
    OfAppend([CreateDatabase(folder, name)], tp);
    OfAppend([CreateDatabase(folder, name)] + tp, rels);
  }

  /** The domains of a finished build: the Boolean domain and one per
      attribute name that has a coded-value list, and nothing else. */
  lemma BuildDomainsCreated(p: Protocol, csv: Csv, folder: string, name: string, store: Store)
    requires BuildDatabase(p, csv, folder, name, store).failure.None?
    ensures ExtractDomains(p).Success?
    ensures (set x | x in DomainsOf(BuildDatabase(p, csv, folder, name, store).ops)) == KnownDomains(ExtractDomains(p).value)
  {
    BuildLog(p, csv, folder, name, store);
    var d := ExtractDomains(p).value;
    var db := Database(folder, name);
    var tp := TablesPart(p, csv, d, store, db);
    var rels := Relationships(csv, p.features, store, db).ops;
    TablesPartCreate(p, csv, d, store, db);
    DomainOpsCreate(d);
    RelationshipsSteps(csv, p.features, store, db);
    RelationshipsOnly(rels);
    OfAppend([CreateDatabase(folder, name)], tp);
    OfAppend([CreateDatabase(folder, name)] + tp, rels);
  }

  /** The relationship from the track logs to their GPS points. */
  function TrackRelationship(csv: Csv): Relationship {
    FixedRelationships(csv)[0].rel
  }

  /** The relationship from the GPS points to their observations. */
  function PointRelationship(csv: Csv): Relationship {
    FixedRelationships(csv)[1].rel
  }

  /** The operations of `build_relationships`, when no feature lacks a
      name: the two fixed relationships, then two per feature. */
  lemma RelationshipOps(csv: Csv, features: seq<Owner>, store: Store, db: Workspace)
    requires Relationships(csv, features, store, db).failure.None?
    ensures var ops := Relationships(csv, features, store, db).ops;
      var names := FeatureNames(features, store, db);
      && (forall k :: 0 <= k < |ops| ==> ops[k].CreateRelationship?)
      && |ops| == 2 + 2 * |features|
      && ops[0].rel == TrackRelationship(csv) && ops[1].rel == PointRelationship(csv)
      && forall j :: 0 <= j < |features| ==>
           ops[2 + 2 * j].rel == GpsRelationship(csv, names[j]) && ops[3 + 2 * j].rel == ObservationRelationship(csv, names[j])
  {
    var ops := Relationships(csv, features, store, db).ops;
    var rest := FeatureRelationshipsFrom(csv, features, 0, store, db);
    RelationshipsSteps(csv, features, store, db);
    FeatureRelationshipsFacts(csv, features, 0, store, db);
    forall j | 0 <= j < |features|
      ensures ops[2 + 2 * j].rel == GpsRelationship(csv, FeatureNames(features, store, db)[j])
      ensures ops[3 + 2 * j].rel == ObservationRelationship(csv, FeatureNames(features, store, db)[j])
    {
      assert ops[2 + 2 * j] == rest.ops[2 * j];
      assert ops[3 + 2 * j] == rest.ops[2 * j + 1];
    }
  }

  /** The relationship classes `build_relationships` creates, when no
      feature lacks a name. */
  lemma RelationshipsCreated(csv: Csv, features: seq<Owner>, store: Store, db: Workspace)
    requires Relationships(csv, features, store, db).failure.None?
    ensures var ops := Relationships(csv, features, store, db).ops;
      var rels := RelationshipsOf(ops);
      var names := FeatureNames(features, store, db);
      && TablesOf(ops) == [] && DomainsOf(ops) == []
      && |rels| == 2 + 2 * |features|
      && rels[0] == TrackRelationship(csv) && rels[1] == PointRelationship(csv)
      && forall j :: 0 <= j < |features| ==>
           rels[2 + 2 * j] == GpsRelationship(csv, names[j]) && rels[3 + 2 * j] == ObservationRelationship(csv, names[j])
  {
    RelationshipOps(csv, features, store, db);
    RelationshipsOnly(Relationships(csv, features, store, db).ops);
  }

  /** What three logs create, when only the last creates relationships and
      it creates no table or domain. */
  lemma ThreeLogs(a: seq<Op>, b: seq<Op>, c: seq<Op>)
    requires RelationshipsOf(a) == [] && RelationshipsOf(b) == []
    requires TablesOf(c) == [] && DomainsOf(c) == []
    ensures RelationshipsOf(a + b + c) == RelationshipsOf(c)
    ensures TablesOf(a + b + c) == TablesOf(a + b) && DomainsOf(a + b + c) == DomainsOf(a + b)
  {
    OfAppend(a, b);
    OfAppend(a + b, c);
  }

  /** The relationship classes of a finished build: the track log owns its
      GPS points (composite, one to many on TrackLog_ID); each GPS point has
      one observation; and every feature table has one GPS point and one
      observation (simple, one to one), feature by feature. */
  lemma BuildRelationshipsCreated(p: Protocol, csv: Csv, folder: string, name: string, store: Store)
    requires BuildDatabase(p, csv, folder, name, store).failure.None?
    ensures var rels := RelationshipsOf(BuildDatabase(p, csv, folder, name, store).ops);
      var names := FeatureNames(p.features, store, Database(folder, name));
      && |rels| == 2 + 2 * |p.features|
      && rels[0] == TrackRelationship(csv) && rels[1] == PointRelationship(csv)
      && forall j :: 0 <= j < |p.features| ==>
           rels[2 + 2 * j] == GpsRelationship(csv, names[j]) && rels[3 + 2 * j] == ObservationRelationship(csv, names[j])
  {
    BuildRelationshipsLog(p, csv, folder, name, store);
    RelationshipsCreated(csv, p.features, store, Database(folder, name));
  }

  /** The relationship classes of a finished build are those of its
      relationship loop. */
  lemma BuildRelationshipsLog(p: Protocol, csv: Csv, folder: string, name: string, store: Store)
    requires BuildDatabase(p, csv, folder, name, store).failure.None?
    ensures Relationships(csv, p.features, store, Database(folder, name)).failure.None?
    ensures RelationshipsOf(BuildDatabase(p, csv, folder, name, store).ops) ==
      RelationshipsOf(Relationships(csv, p.features, store, Database(folder, name)).ops)
  {
    BuildLog(p, csv, folder, name, store);
    var d := ExtractDomains(p).value;
    var db := Database(folder, name);
    var rels := Relationships(csv, p.features, store, db).ops;
    TablesPartNoRelationships(p, csv, d, store, db);
    RelationshipsCreateNoTables(csv, p.features, store, db);
    RelationshipsAfter([CreateDatabase(folder, name)], TablesPart(p, csv, d, store, db), rels,
      BuildDatabase(p, csv, folder, name, store).ops);
  }

  /** The tables part of a build creates no relationship class. */
  lemma TablesPartNoRelationships(p: Protocol, csv: Csv, d: DomainMap, store: Store, db: Workspace)
    requires d.Valid() && TrackStep(p, csv, d).failure.None?
    requires FeatureTables(csv, p.features, 0, d, ExtractAliases(p), store, db).failure.None?
    ensures RelationshipsOf(TablesPart(p, csv, d, store, db)) == []
  {
    TablesPartCreate(p, csv, d, store, db);
  }

  /** The relationship classes of a log whose last part alone creates them. */
  lemma RelationshipsAfter(head: seq<Op>, middle: seq<Op>, rels: seq<Op>, ops: seq<Op>)
    requires ops == head + middle + rels
    requires |head| == 1 && head[0].CreateDatabase? && RelationshipsOf(middle) == []
    requires TablesOf(rels) == [] && DomainsOf(rels) == []
    ensures RelationshipsOf(ops) == RelationshipsOf(rels)
  {
    assert RelationshipsOf(head) == [];
    ThreeLogs(head, middle, rels);
  }

  /** The kinds of relationship classes laid out as `build_relationships`
      lays them out. */
  lemma LaidOutKinds(csv: Csv, rels: seq<Relationship>, names: seq<string>)
    requires |rels| == 2 + 2 * |names|
    requires rels[0] == TrackRelationship(csv) && rels[1] == PointRelationship(csv)
    requires forall j :: 0 <= j < |names| ==>
      rels[2 + 2 * j] == GpsRelationship(csv, names[j]) && rels[3 + 2 * j] == ObservationRelationship(csv, names[j])
    ensures rels[0].kind == Composite && rels[0].cardinality == OneToMany && rels[0].foreignKey == TrackLogLink
    ensures rels[1].foreignKey == GpsPointLink
    ensures forall k :: 1 <= k < |rels| ==> rels[k].kind == Simple && rels[k].cardinality == OneToOne
    ensures forall k :: 2 <= k < |rels| ==> rels[k].foreignKey == (if k % 2 == 0 then GpsPointLink else ObservationLink)
    ensures forall k :: 0 <= k < |rels| ==> rels[k].primaryKey == ObjectId
  {
    forall k | 2 <= k < |rels|
      ensures rels[k].kind == Simple && rels[k].cardinality == OneToOne && rels[k].primaryKey == ObjectId
      ensures rels[k].foreignKey == (if k % 2 == 0 then GpsPointLink else ObservationLink)
    {
      var j := (k - 2) / 2;
      if k % 2 == 0 {
        assert k == 2 + 2 * j;
        assert rels[k] == GpsRelationship(csv, names[j]);
      } else {
        assert k == 3 + 2 * j;
        assert rels[k] == ObservationRelationship(csv, names[j]);
      }
    }
  }

  /** Of the relationship classes of a finished build, exactly the first is
      composite and one to many, joined on TrackLog_ID; every other one is
      simple and one to one, the second and each feature's first joined on
      GpsPoint_ID and each feature's second on Observation_ID; all are keyed
      on the origin's OBJECTID. */
  lemma BuildRelationshipKinds(p: Protocol, csv: Csv, folder: string, name: string, store: Store)
    requires BuildDatabase(p, csv, folder, name, store).failure.None?
    ensures var rels := RelationshipsOf(BuildDatabase(p, csv, folder, name, store).ops);
      && |rels| == 2 + 2 * |p.features|
      && rels[0].kind == Composite && rels[0].cardinality == OneToMany && rels[0].foreignKey == TrackLogLink
      && rels[1].foreignKey == GpsPointLink
      && (forall k :: 1 <= k < |rels| ==> rels[k].kind == Simple && rels[k].cardinality == OneToOne)
      && (forall k :: 2 <= k < |rels| ==> rels[k].foreignKey == (if k % 2 == 0 then GpsPointLink else ObservationLink))
      && forall k :: 0 <= k < |rels| ==> rels[k].primaryKey == ObjectId
  {
    BuildRelationshipsCreated(p, csv, folder, name, store);
    LaidOutKinds(csv, RelationshipsOf(BuildDatabase(p, csv, folder, name, store).ops),
      FeatureNames(p.features, store, Database(folder, name)));
  }

  /** Relationship operations laid out as `build_relationships` lays them
      out all refer to existing tables when the tables they join exist. */
  lemma LaidOutRelationshipsRefer(c: Catalog, csv: Csv, ops: seq<Op>, names: seq<string>)
    requires forall k :: 0 <= k < |ops| ==> ops[k].CreateRelationship?
    requires |ops| == 2 + 2 * |names|
    requires ops[0].rel == TrackRelationship(csv) && ops[1].rel == PointRelationship(csv)
    requires forall j :: 0 <= j < |names| ==>
      ops[2 + 2 * j].rel == GpsRelationship(csv, names[j]) && ops[3 + 2 * j].rel == ObservationRelationship(csv, names[j])
    requires csv.gpsPoints.name in c.tables && csv.trackLogs.name in c.tables && ObservationsName in c.tables
    requires forall j :: 0 <= j < |names| ==> names[j] in c.tables
    ensures forall k :: 0 <= k < |ops| ==> Refers(c, ops[k])
  {
    forall k | 2 <= k < |ops| ensures Refers(c, ops[k]) {
      var j := (k - 2) / 2;
      var r := ops[k].rel;
      if k % 2 == 0 {
        assert k == 2 + 2 * j;
        assert r == GpsRelationship(csv, names[j]);
        assert r.origin == csv.gpsPoints.name && r.destination == names[j];
      } else {
        assert k == 3 + 2 * j;
        assert r == ObservationRelationship(csv, names[j]);
        assert r.origin == ObservationsName && r.destination == names[j];
      }
    }
  }

  /** The relationship log resolves against the tables of a finished build
      exactly when the observations table is among them. */
  lemma RelationshipsResolve(csv: Csv, features: seq<Owner>, store: Store, db: Workspace, c: Catalog)
    requires Relationships(csv, features, store, db).failure.None?
    requires c.tables == set t | t in [csv.gpsPoints.name, csv.trackLogs.name, csv.observations.name] + FeatureNames(features, store, db)
    ensures Resolves(c, Relationships(csv, features, store, db).ops) <==> ObservationsName in c.tables
  {
    RelationshipOps(csv, features, store, db);
    LaidOutRelationshipsResolve(c, csv, Relationships(csv, features, store, db).ops, FeatureNames(features, store, db));
  }

  /** The same, for any log laid out as the relationship builder lays it out. */
  lemma LaidOutRelationshipsResolve(c: Catalog, csv: Csv, ops: seq<Op>, names: seq<string>)
    requires forall k :: 0 <= k < |ops| ==> ops[k].CreateRelationship?
    requires |ops| == 2 + 2 * |names|
    requires ops[0].rel == TrackRelationship(csv) && ops[1].rel == PointRelationship(csv)
    requires forall j :: 0 <= j < |names| ==>
      ops[2 + 2 * j].rel == GpsRelationship(csv, names[j]) && ops[3 + 2 * j].rel == ObservationRelationship(csv, names[j])
    requires c.tables == set t | t in [csv.gpsPoints.name, csv.trackLogs.name, csv.observations.name] + names
    ensures Resolves(c, ops) <==> ObservationsName in c.tables
  {
    var all := [csv.gpsPoints.name, csv.trackLogs.name, csv.observations.name] + names;
    forall k | 0 <= k < |ops| ensures Passive(ops[k]) { }
    ResolvesPassive(c, ops);
    assert all[0] in c.tables && all[1] in c.tables;
    forall j | 0 <= j < |names| ensures names[j] in c.tables {
      assert all[3 + j] == names[j];
    }
    if ObservationsName in c.tables {
      LaidOutRelationshipsRefer(c, csv, ops, names);
    } else {
      assert !Refers(c, ops[1]);
    }
  }

  /** Three logs, the first a lone geodatabase creation and the second
      resolving from the empty geodatabase: the whole resolves exactly when
      the third does against the tables and domains the first two create. */
  lemma ResolvesThree(e: Catalog, a: seq<Op>, b: seq<Op>, c: seq<Op>)
    requires e == Catalog({}, {}) && |a| == 1 && a[0].CreateDatabase? && Resolves(e, b)
    ensures Resolves(e, a + b + c) <==> Resolves(ApplyAll(e, a + b), c)
    ensures ApplyAll(e, a + b).tables == set t | t in TablesOf(a + b)
  {
    ResolvesAppend(e, a, b);
    assert ApplyAll(e, a) == e;
    ResolvesAppend(e, a + b, c);
    ApplyAllSpec(e, a + b);
  }

  /** A finished build leaves a consistent geodatabase exactly when one of
      its tables is called "Observations": every field goes to a table
      created before it, with no domain or one created before it, every
      coded value to a domain created before it, and every relationship
      joins two tables created before it. The relationships name the
      observations table "Observations" whatever its csv block calls it. */
  lemma BuildResolves(p: Protocol, csv: Csv, folder: string, name: string, store: Store)
    requires BuildDatabase(p, csv, folder, name, store).failure.None?
    ensures var ops := BuildDatabase(p, csv, folder, name, store).ops;
      Resolves(Catalog({}, {}), ops) <==> ObservationsName in TablesOf(ops)
  {
    var d := ExtractDomains(p).value;
    var db := Database(folder, name);
    BuildTablesApplied(p, csv, folder, name, store);
    RelationshipsResolve(csv, p.features, store, db,
      ApplyAll(Catalog({}, {}), [CreateDatabase(folder, name)] + TablesPart(p, csv, d, store, db)));
  }

  /** A finished build resolves exactly when its relationships resolve against
      the catalog its tables part leaves, which holds the tables it creates. */
  lemma BuildTablesApplied(p: Protocol, csv: Csv, folder: string, name: string, store: Store)
    requires BuildDatabase(p, csv, folder, name, store).failure.None?
    ensures ExtractDomains(p).Success?
    ensures Relationships(csv, p.features, store, Database(folder, name)).failure.None?
    ensures Resolves(Catalog({}, {}), BuildDatabase(p, csv, folder, name, store).ops) <==>
      Resolves(ApplyAll(Catalog({}, {}), [CreateDatabase(folder, name)] + TablesPart(p, csv, ExtractDomains(p).value, store, Database(folder, name))),
               Relationships(csv, p.features, store, Database(folder, name)).ops)
    ensures ApplyAll(Catalog({}, {}), [CreateDatabase(folder, name)] + TablesPart(p, csv, ExtractDomains(p).value, store, Database(folder, name))).tables ==
      set t | t in [csv.gpsPoints.name, csv.trackLogs.name, csv.observations.name] + FeatureNames(p.features, store, Database(folder, name))
    ensures TablesOf(BuildDatabase(p, csv, folder, name, store).ops) ==
      [csv.gpsPoints.name, csv.trackLogs.name, csv.observations.name] + FeatureNames(p.features, store, Database(folder, name))
  {
    BuildLog(p, csv, folder, name, store);
    var d := ExtractDomains(p).value;
    var db := Database(folder, name);
    TablesPartResolve(p, csv, d, store, db);
    TablesPartCreate(p, csv, d, store, db);
    RelationshipsCreateNoTables(csv, p.features, store, db);
    LogApplied(BuildDatabase(p, csv, folder, name, store).ops, [CreateDatabase(folder, name)],
      TablesPart(p, csv, d, store, db), Relationships(csv, p.features, store, db).ops,
      [csv.gpsPoints.name, csv.trackLogs.name, csv.observations.name] + FeatureNames(p.features, store, db));
  }

  /** A log made of a database, a resolving part that creates `tables`, and a
      part that creates no table or domain. */
  lemma LogApplied(ops: seq<Op>, head: seq<Op>, tp: seq<Op>, rels: seq<Op>, tables: seq<string>)
    requires ops == head + tp + rels
    requires |head| == 1 && head[0].CreateDatabase?
    requires Resolves(Catalog({}, {}), tp) && RelationshipsOf(tp) == [] && TablesOf(tp) == tables
    requires TablesOf(rels) == [] && DomainsOf(rels) == []
    ensures Resolves(Catalog({}, {}), ops) <==> Resolves(ApplyAll(Catalog({}, {}), head + tp), rels)
    ensures ApplyAll(Catalog({}, {}), head + tp).tables == set t | t in tables
    ensures TablesOf(ops) == tables
  {
    assert RelationshipsOf(head) == [] && TablesOf(head) == [];
    ThreeLogs(head, tp, rels);
    TablesOfAppend(head, tp);
    ResolvesThree(Catalog({}, {}), head, tp, rels);
  }

  // ---- The mission columns ------------------------------------------------

  /** The as-written mission columns agree with the intended ones whenever
      the intended ones exist. */
  lemma MissionColumnsAgree(p: Protocol, domains: DomainMap, aliases: AliasMap)
    requires MissionColumns(p, domains, aliases).Success?
    ensures MissionColumnsAsWritten(p, domains, aliases) == MissionColumns(p, domains, aliases).value
  {
  }

  /** A mission with a text attribute and an attribute of the unknown type
      1100: as written, the track log gets no mission column at all, not even
      the text one, and nothing is raised; as intended, the build raises the
      KeyError of the unknown type. */
  lemma MissionColumnsDropped()
    ensures var m := Owner(None, Some([Attribute("observer", 700, None), Attribute("visibility", 1100, None)]), None);
      var p := Protocol(ProtocolSentinel, 1.0, 1.0, "Survey", Some(m), [], None);
      && MissionColumnsAsWritten(p, Empty(), Empty()) == []
      && MissionColumns(p, Empty(), Empty()) == Failure(UnknownAttributeType(1100))
  {
    var m := Owner(None, Some([Attribute("observer", 700, None), Attribute("visibility", 1100, None)]), None);
    MissionColumnsDroppedFor(Protocol(ProtocolSentinel, 1.0, 1.0, "Survey", Some(m), [], None), Empty(), Empty());
  }

  /** The same mission in a whole build: as written, the build finishes
      whenever the csv blocks have their field types, and the track log
      carries only its csv fields; as intended, the track log step raises. */
  lemma MissionDroppedBuildFinishes(csv: Csv, folder: string, name: string, store: Store)
    requires FieldsFit(csv.gpsPoints.fields) && FieldsFit(csv.trackLogs.fields) && FieldsFit(csv.observations.fields)
    ensures var m := Owner(None, Some([Attribute("observer", 700, None), Attribute("visibility", 1100, None)]), None);
      var p := Protocol(ProtocolSentinel, 1.0, 1.0, "Survey", Some(m), [], None);
      && ExtractDomains(p).Success?
      && BuildDatabase(p, csv, folder, name, store).failure.None?
      && TrackStep(p, csv, ExtractDomains(p).value) == TrackLogTable(csv, [])
      && TrackStepIntended(p, csv, ExtractDomains(p).value).failure == Some(UnknownAttributeType(1100))
  {
    var m := Owner(None, Some([Attribute("observer", 700, None), Attribute("visibility", 1100, None)]), None);
    var p := Protocol(ProtocolSentinel, 1.0, 1.0, "Survey", Some(m), [], None);
    ExtractDomainsSuccess(p);
    assert Owners(p) == [m];
    assert OwnerSucceeds(m);
    var d := ExtractDomains(p).value;
    MissionColumnsDroppedFor(p, d, ExtractAliases(p));
    BuildSucceeds(p, csv, folder, name, store);
  }

  /** The mission above drops its columns, and the intended columns raise,
      whatever the domains and aliases. */
  lemma MissionColumnsDroppedFor(p: Protocol, d: DomainMap, aliases: AliasMap)
    requires p.mission == Some(Owner(None, Some([Attribute("observer", 700, None), Attribute("visibility", 1100, None)]), None))
    ensures MissionColumnsAsWritten(p, d, aliases) == []
    ensures MissionColumns(p, d, aliases) == Failure(UnknownAttributeType(1100))
  {
    var m := p.mission.value;
    var attrs := m.attributes.value;
    assert TypeName(attrs[1].typeCode).None?;
    assert FirstUnknown(attrs, 1);
    var r := CompileAttributes(m, d, aliases);
    assert r.Failure?;
    var i :| FirstUnknown(attrs, i) && r.error == UnknownAttributeType(attrs[i].typeCode);
    assert i == 1;
  }

  /** The intended track log step agrees with the one the build runs
      whenever the mission's attribute types are known, and otherwise raises
      their KeyError before creating anything. */
  lemma TrackStepIntendedAgrees(p: Protocol, csv: Csv, d: DomainMap)
    ensures MissionColumns(p, d, ExtractAliases(p)).Success? ==> TrackStepIntended(p, csv, d) == TrackStep(p, csv, d)
    ensures MissionColumns(p, d, ExtractAliases(p)).Failure? ==>
      TrackStepIntended(p, csv, d) == Fail([], MissionColumns(p, d, ExtractAliases(p)).error)
  {
    if MissionColumns(p, d, ExtractAliases(p)).Success? {
      MissionColumnsAgree(p, d, ExtractAliases(p));
    }
  }
}
