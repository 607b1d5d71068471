/** What a database build creates, and why the resulting geodatabase is
    consistent: the tables it creates, the domains and their coded values,
    the relationships, and whether every operation finds the tables and
    domains it names. */
module SchemaLemmas {
  import opened Wrappers
  import opened Text
  import opened Dicts
  import opened Protocols
  import opened Aliases
  import opened Domains
  import opened Attributes
  import opened Store
  import opened Schema

  // ---- Logs of fields -----------------------------------------------------

  /** Every operation adds a field to table `t`, with no domain or one in `ds`. */
  predicate FieldsFor(t: string, ops: seq<Op>, ds: set<string>) {
    forall i :: 0 <= i < |ops| ==>
      ops[i].AddField? && ops[i].table == t && (ops[i].field.domain == "" || ops[i].field.domain in ds)
  }

  /** A table step: create table `t`, then add fields to it. */
  predicate TableOps(ops: seq<Op>, t: string, ds: set<string>) {
    |ops| >= 1 && ops[0].CreateTable? && ops[0].table == t && FieldsFor(t, ops[1..], ds)
  }

  lemma {:induction false} FieldsOnly(t: string, ops: seq<Op>, ds: set<string>)
    requires FieldsFor(t, ops, ds)
    ensures TablesOf(ops) == [] && DomainsOf(ops) == [] && RelationshipsOf(ops) == []
    decreases |ops|
  {
    if ops != [] {
      assert FieldsFor(t, ops[1..], ds) by {
        forall i | 0 <= i < |ops[1..]| ensures ops[1..][i] == ops[i + 1] { }
      }
      FieldsOnly(t, ops[1..], ds);
    }
  }

  lemma FieldsForAppend(t: string, a: seq<Op>, b: seq<Op>, ds: set<string>)
    requires FieldsFor(t, a, ds) && FieldsFor(t, b, ds)
    ensures FieldsFor(t, a + b, ds)
  {
    forall i | 0 <= i < |a + b| ensures (a + b)[i] == if i < |a| then a[i] else b[i - |a|] { }
  }

  /** A table step creates its table and nothing else, and it resolves once
      the domains its fields use exist. */
  lemma TableOpsFacts(ops: seq<Op>, t: string, ds: set<string>, c: Catalog)
    requires TableOps(ops, t, ds)
    ensures TablesOf(ops) == [t] && DomainsOf(ops) == [] && RelationshipsOf(ops) == []
    ensures ds <= c.domains ==> Resolves(c, ops)
  {
    var rest := ops[1..];
    assert ops == [ops[0]] + rest;
    FieldsOnly(t, rest, ds);
    OfAppend([ops[0]], rest);
    if ds <= c.domains {
      var c' := Apply(c, ops[0]);
      forall i | 0 <= i < |rest| ensures Passive(rest[i]) { }
      ResolvesPassive(c', rest);
    }
  }

  /** The domains the columns use. */
  predicate ColumnsUse(cols: seq<Column>, ds: set<string>) {
    forall i :: 0 <= i < |cols| ==> cols[i].domain == "" || cols[i].domain in ds
  }

  lemma StandardFieldsFor(t: string, f: CsvFields, ds: set<string>)
    ensures FieldsFor(t, StandardFields(t, f).ops, ds)
  {
  }

  lemma ColumnOpsFor(t: string, cols: seq<Column>, ds: set<string>)
    requires ColumnsUse(cols, ds)
    ensures FieldsFor(t, ColumnOps(t, cols), ds)
  {
  }

  // ---- The four table builders --------------------------------------------

  lemma GpsPointsTableOps(csv: Csv, ds: set<string>)
    ensures TableOps(GpsPointsTable(csv).ops, csv.gpsPoints.name, ds)
    ensures GpsPointsTable(csv).failure.None? <==> |csv.gpsPoints.fields.names| <= |csv.gpsPoints.fields.types|
  {
    var t := csv.gpsPoints.name;
    var std := StandardFields(t, csv.gpsPoints.fields);
    StandardFieldsFor(t, csv.gpsPoints.fields, ds);
    if std.failure.None? {
      FieldsForAppend(t, std.ops, [AddField(t, LinkField(TrackLogLink))], ds);
      assert GpsPointsTable(csv).ops[1..] == std.ops + [AddField(t, LinkField(TrackLogLink))];
    } else {
      assert GpsPointsTable(csv).ops[1..] == std.ops;
    }
  }

  lemma ObservationsTableOps(csv: Csv, ds: set<string>)
    ensures TableOps(ObservationsTable(csv).ops, csv.observations.name, ds)
    ensures ObservationsTable(csv).failure.None? <==> |csv.observations.fields.names| <= |csv.observations.fields.types|
  {
    var t := csv.observations.name;
    var std := StandardFields(t, csv.observations.fields);
    StandardFieldsFor(t, csv.observations.fields, ds);
    if std.failure.None? {
      FieldsForAppend(t, std.ops, [AddField(t, LinkField(GpsPointLink))], ds);
      assert ObservationsTable(csv).ops[1..] == std.ops + [AddField(t, LinkField(GpsPointLink))];
    } else {
      assert ObservationsTable(csv).ops[1..] == std.ops;
    }
  }

  lemma TrackLogTableOps(csv: Csv, cols: seq<Column>, ds: set<string>)
    requires ColumnsUse(cols, ds)
    ensures TableOps(TrackLogTable(csv, cols).ops, csv.trackLogs.name, ds)
    ensures TrackLogTable(csv, cols).failure.None? <==> |csv.trackLogs.fields.names| <= |csv.trackLogs.fields.types|
  {
    var t := csv.trackLogs.name;
    var std := StandardFields(t, csv.trackLogs.fields);
    StandardFieldsFor(t, csv.trackLogs.fields, ds);
    ColumnOpsFor(t, cols, ds);
    FieldsForAppend(t, ColumnOps(t, cols), std.ops, ds);
    assert TrackLogTable(csv, cols).ops[1..] == ColumnOps(t, cols) + std.ops;
  }

  lemma FeatureTableOps(csv: Csv, t: string, cols: seq<Column>, ds: set<string>)
    requires ColumnsUse(cols, ds)
    ensures TableOps(FeatureTable(csv, t, cols).ops, t, ds)
    ensures FeatureTable(csv, t, cols).failure.None? <==> |csv.featureFields.names| <= |csv.featureFields.types|
  {
    var links := [AddField(t, LinkField(GpsPointLink)), AddField(t, LinkField(ObservationLink))];
    StandardFieldsFor(t, csv.featureFields, ds);
    ColumnOpsFor(t, cols, ds);
    TableInThreeParts(FeatureTable(csv, t, cols), t, CreateTable(t, Point, SpatialReference), ColumnOps(t, cols),
      StandardFields(t, csv.featureFields), links, ds);
  }

  /** A table created with some fields, then a step of fields that may
      raise, then more fields. */
  lemma TableInThreeParts(s: Step, t: string, create: Op, a: seq<Op>, mid: Step, last: seq<Op>, ds: set<string>)
    requires s == Done([create] + a).Then(mid).Then(Done(last))
    requires create.CreateTable? && create.table == t
    requires FieldsFor(t, a, ds) && FieldsFor(t, mid.ops, ds) && FieldsFor(t, last, ds)
    ensures TableOps(s.ops, t, ds) && s.failure == mid.failure
  {
    FieldsForAppend(t, a, mid.ops, ds);
    if mid.failure.None? {
      FieldsForAppend(t, a + mid.ops, last, ds);
      assert s.ops[1..] == a + mid.ops + last;
    } else {
      assert s.ops[1..] == a + mid.ops;
    }
  }

  // ---- Domains ------------------------------------------------------------

  /** The domains `build_domains` creates for a domain dictionary. */
  function KnownDomains(d: DomainMap): (ds: set<string>)
    ensures BooleanDomain in ds
  {
    {BooleanDomain} + set k | k in d.values :: CodesDomain(k)
  }

  /** A Boolean or coded column refers to a domain `build_domains` creates. */
  lemma CompiledColumnsUse(o: Owner, domains: DomainMap, aliases: AliasMap)
    requires CompileAttributes(o, domains, aliases).Success?
    ensures ColumnsUse(CompileAttributes(o, domains, aliases).value, KnownDomains(domains))
  {
    var attrs := o.attributes.GetOr([]);
    var cols := CompileAttributes(o, domains, aliases).value;
    forall i | 0 <= i < |cols| ensures cols[i].domain == "" || cols[i].domain in KnownDomains(domains) {
      assert cols[i].domain == DomainRef(attrs[i], domains);
    }
  }

  /** The mission columns a build uses refer only to domains it creates. */
  lemma MissionColumnsUse(p: Protocol, domains: DomainMap, aliases: AliasMap)
    ensures ColumnsUse(MissionColumnsAsWritten(p, domains, aliases), KnownDomains(domains))
  {
    if p.mission.Some? && CompileAttributes(p.mission.value, domains, aliases).Success? {
      CompiledColumnsUse(p.mission.value, domains, aliases);
    }
  }

  /** The name of a coded-value domain ends in "Codes", so it is never the
      Boolean domain, and distinct attribute names give distinct domains. */
  lemma CodesDomainDistinct(k: string, k': string)
    ensures CodesDomain(k) != BooleanDomain
    ensures CodesDomain(k) == CodesDomain(k') ==> k == k'
  {
    var c := CodesDomain(k);
    assert c[|c| - 1] == 's';
    assert BooleanDomain[|BooleanDomain| - 1] == 'n';
    if c == CodesDomain(k') {
      assert |k| == |k'|;
      assert k == c[..|k|] == CodesDomain(k')[..|k'|] == k';
    }
  }

  /** The values of a list of coded values with consecutive codes. */
  function Numbered(items: seq<string>): (vs: seq<(int, string)>)
    ensures |vs| == |items| && forall i :: 0 <= i < |items| ==> vs[i] == (i, items[i])
  {
    seq(|items|, i requires 0 <= i < |items| => (i, items[i]))
  }

  lemma {:induction false} NumberedValues(ops: seq<Op>, dom: string, items: seq<string>, d: string)
    requires |ops| == |items|
    requires forall i :: 0 <= i < |ops| ==> ops[i] == AddCodedValue(dom, i, items[i])
    ensures CodedValuesOf(ops, d) == if d == dom then Numbered(items) else []
    decreases |ops|
  {
    if ops != [] {
      var n := |ops| - 1;
      NumberedValues(ops[..n], dom, items[..n], d);
      assert ops == ops[..n] + [ops[n]];
      CodedValuesAppend(ops[..n], [ops[n]], d);
      assert CodedValuesOf([ops[n]], d) == if d == dom then [(n, items[n])] else [];
      if d == dom {
        assert Numbered(items) == Numbered(items[..n]) + [(n, items[n])];
      }
    }
  }

  lemma CodedDomainFacts(name: string, items: seq<string>, c: Catalog, d: string)
    ensures var ops := CodedDomainOps(name, items);
      && DomainsOf(ops) == [CodesDomain(name)] && TablesOf(ops) == [] && RelationshipsOf(ops) == []
      && Resolves(c, ops)
      && CodedValuesOf(ops, d) == (if d == CodesDomain(name) then Numbered(items) else [])
  {
    var ops := CodedDomainOps(name, items);
    var rest := ops[1..];
    assert ops == [ops[0]] + rest;
    forall i | 0 <= i < |rest| ensures rest[i] == AddCodedValue(CodesDomain(name), i, items[i]) {
      assert rest[i] == ops[1 + i];
    }
    NumberedValues(rest, CodesDomain(name), items, d);
    CodedValuesAppend([ops[0]], rest, d);
    OfAppend([ops[0]], rest);
    NoneCreated(rest);
    var c' := Apply(c, ops[0]);
    forall i | 0 <= i < |rest| ensures Passive(rest[i]) && Refers(c', rest[i]) { }
    ResolvesPassive(c', rest);
  }

  /** A log of coded values only creates nothing. */
  lemma {:induction false} NoneCreated(ops: seq<Op>)
    requires forall i :: 0 <= i < |ops| ==> ops[i].AddCodedValue?
    ensures TablesOf(ops) == [] && DomainsOf(ops) == [] && RelationshipsOf(ops) == []
    decreases |ops|
  {
    if ops != [] {
      assert forall i :: 0 <= i < |ops[1..]| ==> ops[1..][i] == ops[i + 1];
      NoneCreated(ops[1..]);
    }
  }

  lemma CodedDomainsCreate(d: DomainMap, keys: seq<string>)
    requires forall k' :: k' in keys ==> k' in d.values
    ensures var ops := CodedDomainsOps(d, keys);
      && DomainsOf(ops) == seq(|keys|, i requires 0 <= i < |keys| => CodesDomain(keys[i]))
      && TablesOf(ops) == [] && RelationshipsOf(ops) == []
  {
    CodedDomainsNamed(d, keys);
    CodedDomainsOnlyDomains(d, keys);
  }

  lemma {:induction false} CodedDomainsNamed(d: DomainMap, keys: seq<string>)
    requires forall k' :: k' in keys ==> k' in d.values
    ensures DomainsOf(CodedDomainsOps(d, keys)) == seq(|keys|, i requires 0 <= i < |keys| => CodesDomain(keys[i]))
    decreases |keys|
  {
    if keys != [] {
      var head := CodedDomainOps(keys[0], d.values[keys[0]]);
      var tail := CodedDomainsOps(d, keys[1..]);
      assert CodedDomainsOps(d, keys) == head + tail;
      CodedDomainsNamed(d, keys[1..]);
      CodedDomainFacts(keys[0], d.values[keys[0]], Catalog({}, {}), "");
      DomainsOfAppend(head, tail);
      var rest := seq(|keys| - 1, i requires 0 <= i < |keys| - 1 => CodesDomain(keys[1..][i]));
      assert DomainsOf(tail) == rest;
      assert seq(|keys|, i requires 0 <= i < |keys| => CodesDomain(keys[i])) == [CodesDomain(keys[0])] + rest;
    }
  }

  lemma {:induction false} CodedDomainsOnlyDomains(d: DomainMap, keys: seq<string>)
    requires forall k' :: k' in keys ==> k' in d.values
    ensures TablesOf(CodedDomainsOps(d, keys)) == [] && RelationshipsOf(CodedDomainsOps(d, keys)) == []
    decreases |keys|
  {
    if keys != [] {
      var head := CodedDomainOps(keys[0], d.values[keys[0]]);
      var tail := CodedDomainsOps(d, keys[1..]);
      assert CodedDomainsOps(d, keys) == head + tail;
      CodedDomainsOnlyDomains(d, keys[1..]);
      CodedDomainFacts(keys[0], d.values[keys[0]], Catalog({}, {}), "");
      TablesOfAppend(head, tail);
      RelationshipsOfAppend(head, tail);
    }
  }

  lemma {:induction false} CodedDomainsResolve(d: DomainMap, keys: seq<string>, c: Catalog)
    requires forall k' :: k' in keys ==> k' in d.values
    ensures Resolves(c, CodedDomainsOps(d, keys))
    decreases |keys|
  {
    if keys != [] {
      var head := CodedDomainOps(keys[0], d.values[keys[0]]);
      var tail := CodedDomainsOps(d, keys[1..]);
      CodedDomainFacts(keys[0], d.values[keys[0]], c, "");
      CodedDomainsResolve(d, keys[1..], ApplyAll(c, head));
      ResolvesAppend(c, head, tail);
    }
  }

  lemma {:induction false} CodedDomainsValues(d: DomainMap, keys: seq<string>, k: string)
    requires forall k' :: k' in keys ==> k' in d.values
    requires forall i, j :: 0 <= i < j < |keys| ==> keys[i] != keys[j]
    ensures var ops := CodedDomainsOps(d, keys);
      && CodedValuesOf(ops, CodesDomain(k)) == (if k in keys then Numbered(d.values[k]) else [])
      && CodedValuesOf(ops, BooleanDomain) == []
    decreases |keys|
  {
    if keys != [] {
      var head := CodedDomainOps(keys[0], d.values[keys[0]]);
      var tail := CodedDomainsOps(d, keys[1..]);
      assert forall i, j :: 0 <= i < j < |keys[1..]| ==> keys[1..][i] == keys[i + 1] && keys[1..][j] == keys[j + 1];
      CodedDomainsValues(d, keys[1..], k);
      CodedDomainFacts(keys[0], d.values[keys[0]], Catalog({}, {}), CodesDomain(k));
      CodedDomainFacts(keys[0], d.values[keys[0]], Catalog({}, {}), BooleanDomain);
      CodesDomainDistinct(keys[0], k);
      CodesDomainDistinct(k, keys[0]);
      CodedValuesAppend(head, tail, CodesDomain(k));
      CodedValuesAppend(head, tail, BooleanDomain);
      if k == keys[0] {
        assert k !in keys[1..];
      } else {
        assert k in keys <==> k in keys[1..];
      }
    }
  }

  /** The operations that create the Boolean domain. */
  function BooleanOps(): seq<Op> {
    [ CreateDomain(BooleanDomain, BooleanDescription),
      AddCodedValue(BooleanDomain, 0, "No"),
      AddCodedValue(BooleanDomain, 1, "Yes") ]
  }

  lemma BooleanOpsCreate()
    ensures var ops := BooleanOps();
      DomainsOf(ops) == [BooleanDomain] && TablesOf(ops) == [] && RelationshipsOf(ops) == []
  {
    var ops := BooleanOps();
    assert ops == [ops[0]] + ops[1..];
    NoneCreated(ops[1..]);
    OfAppend([ops[0]], ops[1..]);
  }

  lemma BooleanOpsResolve(c: Catalog)
    ensures Resolves(c, BooleanOps())
  {
    var ops := BooleanOps();
    var rest := ops[1..];
    assert ops == [ops[0]] + rest;
    var c' := Apply(c, ops[0]);
    forall i | 0 <= i < |rest| ensures Passive(rest[i]) && Refers(c', rest[i]) { }
    ResolvesPassive(c', rest);
  }

  lemma BooleanOpsValues(dom: string)
    ensures CodedValuesOf(BooleanOps(), dom) == (if dom == BooleanDomain then [(0, "No"), (1, "Yes")] else [])
  {
    var ops := BooleanOps();
    assert ops == [ops[0]] + [ops[1]] + [ops[2]];
    CodedValuesAppend([ops[0]] + [ops[1]], [ops[2]], dom);
    CodedValuesAppend([ops[0]], [ops[1]], dom);
  }

  lemma DomainOpsCreated(d: DomainMap)
    requires d.Valid()
    ensures var ops := DomainOps(d);
      && DomainsOf(ops) == [BooleanDomain] + seq(|d.keys|, i requires 0 <= i < |d.keys| => CodesDomain(d.keys[i]))
      && TablesOf(ops) == [] && RelationshipsOf(ops) == []
  {
    var boolOps := BooleanOps();
    var coded := CodedDomainsOps(d, d.keys);
    assert DomainOps(d) == boolOps + coded;
    BooleanOpsCreate();
    CodedDomainsCreate(d, d.keys);
    OfAppend(boolOps, coded);
  }

  lemma DomainOpsResolve(d: DomainMap, c: Catalog)
    requires d.Valid()
    ensures Resolves(c, DomainOps(d))
  {
    var boolOps := BooleanOps();
    var coded := CodedDomainsOps(d, d.keys);
    assert DomainOps(d) == boolOps + coded;
    BooleanOpsResolve(c);
    CodedDomainsResolve(d, d.keys, ApplyAll(c, boolOps));
    ResolvesAppend(c, boolOps, coded);
  }

  lemma DomainOpsValues(d: DomainMap, k: string)
    requires d.Valid()
    ensures var ops := DomainOps(d);
      && CodedValuesOf(ops, BooleanDomain) == [(0, "No"), (1, "Yes")]
      && (k in d.values ==> CodedValuesOf(ops, CodesDomain(k)) == Numbered(d.values[k]))
  {
    var boolOps := BooleanOps();
    var coded := CodedDomainsOps(d, d.keys);
    assert DomainOps(d) == boolOps + coded;
    BooleanOpsValues(BooleanDomain);
    BooleanOpsValues(CodesDomain(k));
    CodesDomainDistinct(k, k);
    CodedDomainsValues(d, d.keys, k);
    CodedValuesAppend(boolOps, coded, BooleanDomain);
    CodedValuesAppend(boolOps, coded, CodesDomain(k));
  }

  /** `build_domains` creates the Boolean domain and then one domain per
      attribute name of the dictionary, in its order; every coded value goes
      to a domain created before it; the Boolean domain holds 0 "No" and
      1 "Yes"; and the domain of attribute `k` holds the items of its radio
      element, coded 0, 1, 2, ... in list order. */
  lemma DomainOpsFacts(d: DomainMap, c: Catalog, k: string)
    requires d.Valid()
    ensures var ops := DomainOps(d);
      && DomainsOf(ops) == [BooleanDomain] + seq(|d.keys|, i requires 0 <= i < |d.keys| => CodesDomain(d.keys[i]))
      && TablesOf(ops) == [] && RelationshipsOf(ops) == []
      && Resolves(c, ops)
      && CodedValuesOf(ops, BooleanDomain) == [(0, "No"), (1, "Yes")]
      && (k in d.values ==> CodedValuesOf(ops, CodesDomain(k)) == Numbered(d.values[k]))
  {
    DomainOpsCreated(d);
    DomainOpsResolve(d, c);
    DomainOpsValues(d, k);
  }

  /** The domains `build_domains` creates are exactly the known ones. */
  lemma DomainOpsCreate(d: DomainMap)
    requires d.Valid()
    ensures (set x | x in DomainsOf(DomainOps(d))) == KnownDomains(d)
  {
    DomainOpsCreated(d);
    var names := seq(|d.keys|, i requires 0 <= i < |d.keys| => CodesDomain(d.keys[i]));
    var ds := DomainsOf(DomainOps(d));
    assert ds == [BooleanDomain] + names;
    var fromKeys := set k | k in d.keys :: CodesDomain(k);
    var fromValues := set k | k in d.values :: CodesDomain(k);
    CodedSetOfKeys(d.keys, names);
    forall x | x in fromValues ensures x in fromKeys {
      var k :| k in d.values && x == CodesDomain(k);
    }
    forall x | x in fromKeys ensures x in fromValues {
      var k :| k in d.keys && x == CodesDomain(k);
    }
    SetOfCons(BooleanDomain, names);
    assert (set x | x in ds) == {BooleanDomain} + fromValues;
  }

  /** The domain names of a list of keys, as a set. */
  lemma CodedSetOfKeys(keys: seq<string>, names: seq<string>)
    requires |names| == |keys| && forall i :: 0 <= i < |keys| ==> names[i] == CodesDomain(keys[i])
    ensures (set x | x in names) == set k | k in keys :: CodesDomain(k)
  {
    forall x | x in names ensures x in set k | k in keys :: CodesDomain(k) {
      var i :| 0 <= i < |names| && names[i] == x;
      assert keys[i] in keys;
    }
    forall x | x in set k | k in keys :: CodesDomain(k) ensures x in names {
      var k :| k in keys && x == CodesDomain(k);
      var i :| 0 <= i < |keys| && keys[i] == k;
      assert names[i] == x;
    }
  }

  lemma SetOfCons(x: string, xs: seq<string>)
    ensures (set y | y in [x] + xs) == {x} + set y | y in xs
  {
  }

  // ---- The feature tables -------------------------------------------------

  /** The table name of each feature, validated in the new geodatabase. */
  function FeatureNames(features: seq<Owner>, store: Store, db: Workspace): (names: seq<string>)
    ensures |names| == |features|
  {
    seq(|features|, i requires 0 <= i < |features| => store.validate(features[i].name.GetOr(""), db))
  }

  /** A feature the loop can compile: it has a name and known attribute types. */
  predicate FeatureOk(f: Owner, domains: DomainMap, aliases: AliasMap) {
    f.name.Some? && CompileAttributes(f, domains, aliases).Success?
  }

  predicate FieldsFit(f: CsvFields) {
    |f.names| <= |f.types|
  }

  /** The feature loop raises exactly when a feature has no name or an unknown
      attribute type, or when there is a feature and the csv feature fields
      lack types. */
  lemma {:induction false} FeatureTablesSuccess(csv: Csv, features: seq<Owner>, i: nat, domains: DomainMap,
                                                aliases: AliasMap, store: Store, db: Workspace)
    ensures FeatureTables(csv, features, i, domains, aliases, store, db).failure.None? <==>
      (forall j :: i <= j < |features| ==> FeatureOk(features[j], domains, aliases))
      && (i < |features| ==> FieldsFit(csv.featureFields))
    decreases |features| - i
  {
    if i < |features| && FeatureOk(features[i], domains, aliases) {
      var cols := CompileAttributes(features[i], domains, aliases).value;
      var t := store.validate(features[i].name.value, db);
      CompiledColumnsUse(features[i], domains, aliases);
      FeatureTableOps(csv, t, cols, KnownDomains(domains));
      FeatureTablesSuccess(csv, features, i + 1, domains, aliases, store, db);
    }
  }

  lemma FeatureNamesStep(features: seq<Owner>, store: Store, db: Workspace, i: nat)
    requires i < |features| && features[i].name.Some?
    ensures FeatureNames(features, store, db)[i..] ==
      [store.validate(features[i].name.value, db)] + FeatureNames(features, store, db)[i + 1..]
  {
    var names := FeatureNames(features, store, db);
    assert features[i].name.GetOr("") == features[i].name.value;
    assert names[i] == store.validate(features[i].name.value, db);
  }

  /** The feature loop creates one table per feature, in order, and no
      domain or relationship. */
  lemma {:induction false} FeatureTablesCreate(csv: Csv, features: seq<Owner>, i: nat, domains: DomainMap,
                                               aliases: AliasMap, store: Store, db: Workspace)
    requires i <= |features|
    ensures var s := FeatureTables(csv, features, i, domains, aliases, store, db);
      && DomainsOf(s.ops) == [] && RelationshipsOf(s.ops) == []
      && (s.failure.None? ==> TablesOf(s.ops) == FeatureNames(features, store, db)[i..])
    decreases |features| - i
  {
    if i < |features| && FeatureOk(features[i], domains, aliases) {
      var cols := CompileAttributes(features[i], domains, aliases).value;
      var t := store.validate(features[i].name.value, db);
      var head := FeatureTable(csv, t, cols);
      var tail := FeatureTables(csv, features, i + 1, domains, aliases, store, db);
      assert FeatureTables(csv, features, i, domains, aliases, store, db) == head.Then(tail);
      CompiledColumnsUse(features[i], domains, aliases);
      FeatureTableOps(csv, t, cols, KnownDomains(domains));
      TableOpsFacts(head.ops, t, KnownDomains(domains), Catalog({}, {}));
      if head.failure.None? {
        FeatureTablesCreate(csv, features, i + 1, domains, aliases, store, db);
        OfAppend(head.ops, tail.ops);
        FeatureNamesStep(features, store, db, i);
      }
    }
  }

  /** Every field the feature loop adds goes to a table it has created, with
      a domain `build_domains` creates. */
  lemma {:induction false} FeatureTablesResolve(csv: Csv, features: seq<Owner>, i: nat, domains: DomainMap,
                                                aliases: AliasMap, store: Store, db: Workspace, c: Catalog)
    requires KnownDomains(domains) <= c.domains
    ensures Resolves(c, FeatureTables(csv, features, i, domains, aliases, store, db).ops)
    decreases |features| - i
  {
    if i < |features| && FeatureOk(features[i], domains, aliases) {
      var cols := CompileAttributes(features[i], domains, aliases).value;
      var t := store.validate(features[i].name.value, db);
      var head := FeatureTable(csv, t, cols);
      var tail := FeatureTables(csv, features, i + 1, domains, aliases, store, db);
      CompiledColumnsUse(features[i], domains, aliases);
      FeatureTableOps(csv, t, cols, KnownDomains(domains));
      TableOpsFacts(head.ops, t, KnownDomains(domains), c);
      if head.failure.None? {
        ApplyAllSpec(c, head.ops);
        FeatureTablesResolve(csv, features, i + 1, domains, aliases, store, db, ApplyAll(c, head.ops));
        ResolvesAppend(c, head.ops, tail.ops);
      }
    }
  }

  // ---- The relationships --------------------------------------------------

  /** The relationship from the GPS points table to feature table `f`. */
  function GpsRelationship(csv: Csv, f: string): Relationship {
    FeatureRelationships(csv, f)[0].rel
  }

  /** The relationship from the observations table to feature table `f`. */
  function ObservationRelationship(csv: Csv, f: string): Relationship {
    FeatureRelationships(csv, f)[1].rel
  }

  lemma {:induction false} RelationshipsOnly(ops: seq<Op>)
    requires forall k :: 0 <= k < |ops| ==> ops[k].CreateRelationship?
    ensures TablesOf(ops) == [] && DomainsOf(ops) == []
    ensures RelationshipsOf(ops) == seq(|ops|, k requires 0 <= k < |ops| => ops[k].rel)
    decreases |ops|
  {
    if ops != [] {
      assert forall k :: 0 <= k < |ops[1..]| ==> ops[1..][k] == ops[k + 1];
      RelationshipsOnly(ops[1..]);
    }
  }

  /** The relationship loop over the features from `i`: it raises only for a
      feature without a name, and otherwise relates each feature table to the
      GPS points and to the observations, in feature order. */
  lemma FeatureRelationshipsFacts(csv: Csv, features: seq<Owner>, i: nat, store: Store, db: Workspace)
    requires i <= |features|
    ensures var s := FeatureRelationshipsFrom(csv, features, i, store, db);
      && (forall k :: 0 <= k < |s.ops| ==> s.ops[k].CreateRelationship?)
      && (s.failure.None? <==> forall j :: i <= j < |features| ==> features[j].name.Some?)
      && (s.failure.None? ==> |s.ops| == 2 * (|features| - i))
      && (s.failure.None? ==> forall j :: 0 <= j < |features| - i ==>
            && s.ops[2 * j].rel == GpsRelationship(csv, FeatureNames(features, store, db)[i + j])
            && s.ops[2 * j + 1].rel == ObservationRelationship(csv, FeatureNames(features, store, db)[i + j]))
  {
    FeatureRelationshipsOnly(csv, features, i, store, db);
    FeatureRelationshipsSucceed(csv, features, i, store, db);
    if FeatureRelationshipsFrom(csv, features, i, store, db).failure.None? {
      FeatureRelationshipsLaidOut(csv, features, i, store, db);
    }
  }

  /** The feature loop creates relationship classes and nothing else. */
  lemma {:induction false} FeatureRelationshipsOnly(csv: Csv, features: seq<Owner>, i: nat, store: Store, db: Workspace)
    requires i <= |features|
    ensures forall k :: 0 <= k < |FeatureRelationshipsFrom(csv, features, i, store, db).ops| ==>
      FeatureRelationshipsFrom(csv, features, i, store, db).ops[k].CreateRelationship?
    decreases |features| - i
  {
    if i < |features| && features[i].name.Some? {
      var head := FeatureRelationships(csv, store.validate(features[i].name.value, db));
      var tail := FeatureRelationshipsFrom(csv, features, i + 1, store, db);
      FeatureRelationshipsOnly(csv, features, i + 1, store, db);
      var s := FeatureRelationshipsFrom(csv, features, i, store, db);
      assert s.ops == head + tail.ops;
      forall k | 2 <= k < |s.ops| ensures s.ops[k].CreateRelationship? {
        assert s.ops[k] == tail.ops[k - 2];
      }
    }
  }

  /** The feature loop raises exactly when a feature from `i` on has no name. */
  lemma {:induction false} FeatureRelationshipsSucceed(csv: Csv, features: seq<Owner>, i: nat, store: Store, db: Workspace)
    requires i <= |features|
    ensures FeatureRelationshipsFrom(csv, features, i, store, db).failure.None? <==>
      forall j :: i <= j < |features| ==> features[j].name.Some?
    decreases |features| - i
  {
    if i < |features| && features[i].name.Some? {
      FeatureRelationshipsSucceed(csv, features, i + 1, store, db);
    }
  }

  /** A finished feature loop lays out two relationship classes per feature,
      in feature order. */
  lemma {:induction false} FeatureRelationshipsLaidOut(csv: Csv, features: seq<Owner>, i: nat, store: Store, db: Workspace)
    requires i <= |features|
    requires FeatureRelationshipsFrom(csv, features, i, store, db).failure.None?
    ensures var s := FeatureRelationshipsFrom(csv, features, i, store, db);
      && |s.ops| == 2 * (|features| - i)
      && forall j :: 0 <= j < |features| - i ==>
           && s.ops[2 * j] == CreateRelationship(GpsRelationship(csv, FeatureNames(features, store, db)[i + j]))
           && s.ops[2 * j + 1] == CreateRelationship(ObservationRelationship(csv, FeatureNames(features, store, db)[i + j]))
    decreases |features| - i
  {
    if i < |features| {
      var t := store.validate(features[i].name.value, db);
      var head := FeatureRelationships(csv, t);
      var tail := FeatureRelationshipsFrom(csv, features, i + 1, store, db);
      FeatureRelationshipsLaidOut(csv, features, i + 1, store, db);
      var s := FeatureRelationshipsFrom(csv, features, i, store, db);
      assert s.ops == head + tail.ops;
      forall j | 0 <= j < |features| - i
        ensures s.ops[2 * j] == CreateRelationship(GpsRelationship(csv, FeatureNames(features, store, db)[i + j]))
        ensures s.ops[2 * j + 1] == CreateRelationship(ObservationRelationship(csv, FeatureNames(features, store, db)[i + j]))
      {
        if j == 0 {
          assert features[i].name.GetOr("") == features[i].name.value;
          assert FeatureNames(features, store, db)[i] == t;
        } else {
          assert s.ops[2 * j] == tail.ops[2 * (j - 1)];
          assert s.ops[2 * j + 1] == tail.ops[2 * (j - 1) + 1];
        }
      }
    }
  }

  // ---- The whole build ----------------------------------------------------

  /** Whatever happens, the geodatabase is created first. */
  lemma BuildCreatesDatabaseFirst(p: Protocol, csv: Csv, folder: string, name: string, store: Store)
    ensures var ops := BuildDatabase(p, csv, folder, name, store).ops;
      |ops| >= 1 && ops[0] == CreateDatabase(folder, name)
  {
  }

  /** A chain of six steps that does not raise is the concatenation of the
      six, none of which raises. */
  lemma ThenChain(a: Step, b: Step, c: Step, d: Step, e: Step, f: Step)
    requires a.Then(b).Then(c).Then(d).Then(e).Then(f).failure.None?
    ensures a.failure.None? && b.failure.None? && c.failure.None?
    ensures d.failure.None? && e.failure.None? && f.failure.None?
    ensures a.Then(b).Then(c).Then(d).Then(e).Then(f).ops == a.ops + b.ops + c.ops + d.ops + e.ops + f.ops
  {
  }

  lemma BuildTablesParts(p: Protocol, csv: Csv, d: DomainMap, store: Store, db: Workspace)
    requires d.Valid()
    requires BuildTables(p, csv, d, store, db).failure.None?
    ensures var aliases := ExtractAliases(p);
      && GpsPointsTable(csv).failure.None?
      && TrackStep(p, csv, d).failure.None?
      && ObservationsTable(csv).failure.None?
      && FeatureTables(csv, p.features, 0, d, aliases, store, db).failure.None?
      && Relationships(csv, p.features, store, db).failure.None?
      && BuildTables(p, csv, d, store, db).ops ==
           DomainOps(d) + GpsPointsTable(csv).ops + TrackStep(p, csv, d).ops + ObservationsTable(csv).ops
           + FeatureTables(csv, p.features, 0, d, aliases, store, db).ops
           + Relationships(csv, p.features, store, db).ops
  {
    var aliases := ExtractAliases(p);
    ThenChain(Done(DomainOps(d)), GpsPointsTable(csv), TrackStep(p, csv, d), ObservationsTable(csv),
      FeatureTables(csv, p.features, 0, d, aliases, store, db), Relationships(csv, p.features, store, db));
  }

  /** A build that does not raise: the domains were extracted, and its log is
      the geodatabase followed by the rest of the build. */
  lemma BuildParts(p: Protocol, csv: Csv, folder: string, name: string, store: Store)
    requires BuildDatabase(p, csv, folder, name, store).failure.None?
    ensures ExtractDomains(p).Success?
    ensures BuildTables(p, csv, ExtractDomains(p).value, store, Database(folder, name)).failure.None?
    ensures BuildDatabase(p, csv, folder, name, store).ops ==
      [CreateDatabase(folder, name)] + BuildTables(p, csv, ExtractDomains(p).value, store, Database(folder, name)).ops
  {
  }

  lemma TrackStepOps(p: Protocol, csv: Csv, d: DomainMap)
    ensures TableOps(TrackStep(p, csv, d).ops, csv.trackLogs.name, KnownDomains(d))
  {
    MissionColumnsUse(p, d, ExtractAliases(p));
    TrackLogTableOps(csv, MissionColumnsAsWritten(p, d, ExtractAliases(p)), KnownDomains(d));
  }

  /** The two fixed relationships of `build_relationships`. */
  function FixedRelationships(csv: Csv): seq<Op> {
    [ CreateRelationship(Relationship(csv.trackLogs.name, csv.gpsPoints.name, "GpsPoints_to_TrackLog",
        Composite, "GpsPoints", "TrackLog", OneToMany, ObjectId, TrackLogLink)),
      CreateRelationship(Relationship(csv.gpsPoints.name, ObservationsName, "Observations_to_GpsPoint",
        Simple, "Observations", "GpsPoints", OneToOne, ObjectId, GpsPointLink)) ]
  }

  lemma RelationshipsSteps(csv: Csv, features: seq<Owner>, store: Store, db: Workspace)
    ensures Relationships(csv, features, store, db).failure == FeatureRelationshipsFrom(csv, features, 0, store, db).failure
    ensures Relationships(csv, features, store, db).ops ==
      FixedRelationships(csv) + FeatureRelationshipsFrom(csv, features, 0, store, db).ops
    ensures forall k :: 0 <= k < |Relationships(csv, features, store, db).ops| ==>
      Relationships(csv, features, store, db).ops[k].CreateRelationship?
  {
    FeatureRelationshipsFacts(csv, features, 0, store, db);
  }

  /** The relationship loop creates no table and no domain. */
  lemma RelationshipsCreateNoTables(csv: Csv, features: seq<Owner>, store: Store, db: Workspace)
    ensures TablesOf(Relationships(csv, features, store, db).ops) == []
    ensures DomainsOf(Relationships(csv, features, store, db).ops) == []
  {
    RelationshipsSteps(csv, features, store, db);
    RelationshipsOnly(Relationships(csv, features, store, db).ops);
  }

  /** On success, the log of every part but the relationships. */
  function TablesPart(p: Protocol, csv: Csv, d: DomainMap, store: Store, db: Workspace): seq<Op>
    requires d.Valid()
  {
    DomainOps(d) + GpsPointsTable(csv).ops + TrackStep(p, csv, d).ops + ObservationsTable(csv).ops
      + FeatureTables(csv, p.features, 0, d, ExtractAliases(p), store, db).ops
  }

  /** Five logs, the first creating no table, the next three one table
      each, and the last the tables `names`. */
  lemma FivePartsTables(o1: seq<Op>, o2: seq<Op>, o3: seq<Op>, o4: seq<Op>, o5: seq<Op>,
                        t2: string, t3: string, t4: string, names: seq<string>)
    requires TablesOf(o1) == [] && TablesOf(o2) == [t2] && TablesOf(o3) == [t3] && TablesOf(o4) == [t4]
    requires TablesOf(o5) == names
    ensures TablesOf(o1 + o2 + o3 + o4 + o5) == [t2, t3, t4] + names
  {
    OfAppend(o1, o2);
    OfAppend(o1 + o2, o3);
    OfAppend(o1 + o2 + o3, o4);
    OfAppend(o1 + o2 + o3 + o4, o5);
  }

  /** Five logs of which only the first creates domains. */
  lemma FivePartsDomains(o1: seq<Op>, o2: seq<Op>, o3: seq<Op>, o4: seq<Op>, o5: seq<Op>)
    requires DomainsOf(o2) == [] && DomainsOf(o3) == [] && DomainsOf(o4) == [] && DomainsOf(o5) == []
    ensures DomainsOf(o1 + o2 + o3 + o4 + o5) == DomainsOf(o1)
  {
    OfAppend(o1, o2);
    OfAppend(o1 + o2, o3);
    OfAppend(o1 + o2 + o3, o4);
    OfAppend(o1 + o2 + o3 + o4, o5);
  }

  /** Five logs none of which creates a relationship. */
  lemma FivePartsRelationships(o1: seq<Op>, o2: seq<Op>, o3: seq<Op>, o4: seq<Op>, o5: seq<Op>)
    requires RelationshipsOf(o1) == [] && RelationshipsOf(o2) == [] && RelationshipsOf(o3) == []
    requires RelationshipsOf(o4) == [] && RelationshipsOf(o5) == []
    ensures RelationshipsOf(o1 + o2 + o3 + o4 + o5) == []
  {
    OfAppend(o1, o2);
    OfAppend(o1 + o2, o3);
    OfAppend(o1 + o2 + o3, o4);
    OfAppend(o1 + o2 + o3 + o4, o5);
  }

  /** Every part but the relationships creates the domains of `build_domains`,
      then the GPS point, track log, observation and feature tables in that
      order, and no relationship. */
  lemma TablesPartCreate(p: Protocol, csv: Csv, d: DomainMap, store: Store, db: Workspace)
    requires d.Valid() && TrackStep(p, csv, d).failure.None?
    requires FeatureTables(csv, p.features, 0, d, ExtractAliases(p), store, db).failure.None?
    ensures var ops := TablesPart(p, csv, d, store, db);
      && TablesOf(ops) == [csv.gpsPoints.name, csv.trackLogs.name, csv.observations.name] + FeatureNames(p.features, store, db)
      && DomainsOf(ops) == DomainsOf(DomainOps(d))
      && RelationshipsOf(ops) == []
  {
    var aliases := ExtractAliases(p);
    var ds := KnownDomains(d);
    DomainOpsFacts(d, Catalog({}, {}), "");
    GpsPointsTableOps(csv, ds);
    TrackStepOps(p, csv, d);
    ObservationsTableOps(csv, ds);
    FeatureTablesCreate(csv, p.features, 0, d, aliases, store, db);
    assert FeatureNames(p.features, store, db)[0..] == FeatureNames(p.features, store, db);
    TableOpsFacts(GpsPointsTable(csv).ops, csv.gpsPoints.name, ds, Catalog({}, {}));
    TableOpsFacts(TrackStep(p, csv, d).ops, csv.trackLogs.name, ds, Catalog({}, {}));
    TableOpsFacts(ObservationsTable(csv).ops, csv.observations.name, ds, Catalog({}, {}));
    var o1 := DomainOps(d);
    var o2 := GpsPointsTable(csv).ops;
    var o3 := TrackStep(p, csv, d).ops;
    var o4 := ObservationsTable(csv).ops;
    var o5 := FeatureTables(csv, p.features, 0, d, aliases, store, db).ops;
    FivePartsTables(o1, o2, o3, o4, o5, csv.gpsPoints.name, csv.trackLogs.name, csv.observations.name,
      FeatureNames(p.features, store, db));
    FivePartsDomains(o1, o2, o3, o4, o5);
    FivePartsRelationships(o1, o2, o3, o4, o5);
  }

  /** Five logs resolve one after the other when each resolves against what
      the ones before it created. */
  lemma ResolvesChain(c: Catalog, o1: seq<Op>, o2: seq<Op>, o3: seq<Op>, o4: seq<Op>, o5: seq<Op>)
    requires Resolves(c, o1)
    requires Resolves(ApplyAll(c, o1), o2)
    requires Resolves(ApplyAll(ApplyAll(c, o1), o2), o3)
    requires Resolves(ApplyAll(ApplyAll(ApplyAll(c, o1), o2), o3), o4)
    requires Resolves(ApplyAll(ApplyAll(ApplyAll(ApplyAll(c, o1), o2), o3), o4), o5)
    ensures Resolves(c, o1 + o2 + o3 + o4 + o5)
  {
    ResolvesThen(c, o1, o2);
    ResolvesThen(c, o1 + o2, o3);
    ResolvesThen(c, o1 + o2 + o3, o4);
    ResolvesThen(c, o1 + o2 + o3 + o4, o5);
  }

  /** A log that resolves, followed by one that resolves against what the
      first created. */
  lemma ResolvesThen(c: Catalog, a: seq<Op>, b: seq<Op>)
    requires Resolves(c, a) && Resolves(ApplyAll(c, a), b)
    ensures Resolves(c, a + b) && ApplyAll(c, a + b) == ApplyAll(ApplyAll(c, a), b)
  {
    ResolvesAppend(c, a, b);
    ApplyAllAppend(c, a, b);
  }

  /** Applying a log never removes a domain. */
  lemma DomainsGrow(c: Catalog, ops: seq<Op>)
    ensures c.domains <= ApplyAll(c, ops).domains
  {
    ApplyAllSpec(c, ops);
  }

  /** Each table step of a build resolves wherever the domains of
      `build_domains` exist. */
  lemma TableStepsResolve(p: Protocol, csv: Csv, d: DomainMap, store: Store, db: Workspace, c: Catalog)
    requires TrackStep(p, csv, d).failure.None? && KnownDomains(d) <= c.domains
    ensures Resolves(c, GpsPointsTable(csv).ops) && Resolves(c, TrackStep(p, csv, d).ops)
    ensures Resolves(c, ObservationsTable(csv).ops)
    ensures Resolves(c, FeatureTables(csv, p.features, 0, d, ExtractAliases(p), store, db).ops)
  {
    var ds := KnownDomains(d);
    GpsPointsTableOps(csv, ds);
    TrackStepOps(p, csv, d);
    ObservationsTableOps(csv, ds);
    TableOpsFacts(GpsPointsTable(csv).ops, csv.gpsPoints.name, ds, c);
    TableOpsFacts(TrackStep(p, csv, d).ops, csv.trackLogs.name, ds, c);
    TableOpsFacts(ObservationsTable(csv).ops, csv.observations.name, ds, c);
    FeatureTablesResolve(csv, p.features, 0, d, ExtractAliases(p), store, db, c);
  }

  /** Every part but the relationships resolves from an empty geodatabase:
      each field goes to a table already created, with no domain or one
      already created, and each coded value to a domain already created. */
  lemma TablesPartResolve(p: Protocol, csv: Csv, d: DomainMap, store: Store, db: Workspace)
    requires d.Valid() && TrackStep(p, csv, d).failure.None?
    ensures Resolves(Catalog({}, {}), TablesPart(p, csv, d, store, db))
  {
    var e := Catalog({}, {});
    var ds := KnownDomains(d);
    var o1 := DomainOps(d);
    var o2 := GpsPointsTable(csv).ops;
    var o3 := TrackStep(p, csv, d).ops;
    var o4 := ObservationsTable(csv).ops;
    var o5 := FeatureTables(csv, p.features, 0, d, ExtractAliases(p), store, db).ops;
    DomainOpsResolve(d, e);
    DomainOpsCreate(d);
    ApplyAllSpec(e, o1);
    var c1 := ApplyAll(e, o1);
    var c2 := ApplyAll(c1, o2);
    var c3 := ApplyAll(c2, o3);
    var c4 := ApplyAll(c3, o4);
    DomainsGrow(c1, o2);
    DomainsGrow(c2, o3);
    DomainsGrow(c3, o4);
    TableStepsResolve(p, csv, d, store, db, c1);
    TableStepsResolve(p, csv, d, store, db, c2);
    TableStepsResolve(p, csv, d, store, db, c3);
    TableStepsResolve(p, csv, d, store, db, c4);
    ResolvesChain(e, o1, o2, o3, o4, o5);
  }
}
