/** The geodatabase as the compiler sees it: the arcpy calls it makes are
    recorded, in order, as a log of operations, and the two arcpy queries it
    asks (name validation, existence) are supplied by the caller. */
module Store {
  import opened Wrappers
  import opened Protocols

  /** The spatial reference (WGS 84) of every feature class. */
  const SpatialReference := 4326

  datatype Geometry = Point | Polyline

  datatype RelKind = Simple | Composite

  datatype Cardinality = OneToOne | OneToMany

  /** A field added to a table; "" stands for no domain. Nullability is not
      part of it: every call passes "" for it, which leaves the default. */
  datatype Field = Field(name: string, fieldType: string, alias: string, domain: string)

  /** A relationship class between two tables, joined on the origin's
      `primaryKey` and the destination's `foreignKey`. */
  datatype Relationship = Relationship(
    origin: string,
    destination: string,
    name: string,
    kind: RelKind,
    forwardLabel: string,
    backwardLabel: string,
    cardinality: Cardinality,
    primaryKey: string,
    foreignKey: string)

  /** The arcpy calls that change the store. */
  datatype Op =
    | CreateDatabase(folder: string, name: string)          // CreateFileGDB
    | CreateDomain(domain: string, description: string)     // SHORT, CODED
    | AddCodedValue(domain: string, code: int, value: string)
    | CreateTable(table: string, geometry: Geometry, spatialReference: int)
    | AddField(table: string, field: Field)
    | CreateRelationship(rel: Relationship)

  /** The operations a piece of the compiler performs and, when it raises,
      the exception that stopped it. */
  datatype Step = Step(ops: seq<Op>, failure: Option<Error>) {

    /** This step followed by `next`, which runs only when this one did not
        raise. */
    function Then(next: Step): (r: Step)
      ensures failure.Some? ==> r == this
      ensures failure.None? ==> r.ops == ops + next.ops && r.failure == next.failure
    {
      if failure.Some? then this else Step(ops + next.ops, next.failure)
    }
  }

  function Done(ops: seq<Op>): Step {
    Step(ops, None)
  }

  function Fail(ops: seq<Op>, e: Error): Step {
    Step(ops, Some(e))
  }

  /** A workspace: a folder, or a geodatabase inside one. */
  datatype Workspace = Folder(path: string) | Database(folder: string, name: string)

  /** The arcpy queries: `ValidateTableName(name, workspace)` and
      `Exists(workspace)`. */
  datatype Store = Store(validate: (string, Workspace) -> string, present: Workspace -> bool)

  // ---- What the log creates, and whether it refers only to what exists -----

  /** The names of the tables and domains created so far. */
  datatype Catalog = Catalog(tables: set<string>, domains: set<string>)

  function Apply(c: Catalog, op: Op): Catalog {
    match op
    case CreateTable(t, _, _) => c.(tables := c.tables + {t})
    case CreateDomain(d, _) => c.(domains := c.domains + {d})
    case _ => c
  }

  /** The tables and domains `op` names exist in `c`. */
  predicate Refers(c: Catalog, op: Op) {
    match op
    case AddCodedValue(d, _, _) => d in c.domains
    case AddField(t, f) => t in c.tables && (f.domain == "" || f.domain in c.domains)
    case CreateRelationship(r) => r.origin in c.tables && r.destination in c.tables
    case _ => true
  }

  /** Every operation of `ops` names only tables and domains that exist when it
      runs, starting from `c`. */
  predicate Resolves(c: Catalog, ops: seq<Op>)
    decreases |ops|
  {
    ops == [] || (Refers(c, ops[0]) && Resolves(Apply(c, ops[0]), ops[1..]))
  }

  function ApplyAll(c: Catalog, ops: seq<Op>): Catalog
    decreases |ops|
  {
    if ops == [] then c else ApplyAll(Apply(c, ops[0]), ops[1..])
  }

  /** The tables a log creates, in order. */
  function TablesOf(ops: seq<Op>): seq<string>
    decreases |ops|
  {
    if ops == [] then []
    else (if ops[0].CreateTable? then [ops[0].table] else []) + TablesOf(ops[1..])
  }

  /** The domains a log creates, in order. */
  function DomainsOf(ops: seq<Op>): seq<string>
    decreases |ops|
  {
    if ops == [] then []
    else (if ops[0].CreateDomain? then [ops[0].domain] else []) + DomainsOf(ops[1..])
  }

  /** The relationship classes a log creates, in order. */
  function RelationshipsOf(ops: seq<Op>): seq<Relationship>
    decreases |ops|
  {
    if ops == [] then []
    else (if ops[0].CreateRelationship? then [ops[0].rel] else []) + RelationshipsOf(ops[1..])
  }

  /** The (code, label) pairs a log adds to domain `dom`, in order. */
  function CodedValuesOf(ops: seq<Op>, dom: string): (vs: seq<(int, string)>)
    ensures |vs| <= |ops|
    decreases |ops|
  {
    if ops == [] then []
    else
      (if ops[0].AddCodedValue? && ops[0].domain == dom then [(ops[0].code, ops[0].value)] else [])
        + CodedValuesOf(ops[1..], dom)
  }

  lemma AppendAssoc<T>(x: seq<T>, y: seq<T>, z: seq<T>)
    ensures x + (y + z) == (x + y) + z
  {
  }

  lemma {:induction false} CodedValuesAppend(a: seq<Op>, b: seq<Op>, dom: string)
    ensures CodedValuesOf(a + b, dom) == CodedValuesOf(a, dom) + CodedValuesOf(b, dom)
    decreases |a|
  {
    if a == [] {
      assert a + b == b;
    } else {
      assert (a + b)[0] == a[0] && (a + b)[1..] == a[1..] + b;
      CodedValuesAppend(a[1..], b, dom);
      var head := if a[0].AddCodedValue? && a[0].domain == dom then [(a[0].code, a[0].value)] else [];
      assert CodedValuesOf(a, dom) == head + CodedValuesOf(a[1..], dom);
      assert CodedValuesOf(a + b, dom) == head + CodedValuesOf(a[1..] + b, dom);
      AppendAssoc(head, CodedValuesOf(a[1..], dom), CodedValuesOf(b, dom));
    }
  }

  lemma {:induction false} TablesOfAppend(a: seq<Op>, b: seq<Op>)
    ensures TablesOf(a + b) == TablesOf(a) + TablesOf(b)
    decreases |a|
  {
    if a == [] {
      assert a + b == b;
    } else {
      assert (a + b)[0] == a[0] && (a + b)[1..] == a[1..] + b;
      TablesOfAppend(a[1..], b);
      var head := if a[0].CreateTable? then [a[0].table] else [];
      assert TablesOf(a) == head + TablesOf(a[1..]);
      assert TablesOf(a + b) == head + TablesOf(a[1..] + b);
      AppendAssoc(head, TablesOf(a[1..]), TablesOf(b));
    }
  }

  lemma {:induction false} DomainsOfAppend(a: seq<Op>, b: seq<Op>)
    ensures DomainsOf(a + b) == DomainsOf(a) + DomainsOf(b)
    decreases |a|
  {
    if a == [] {
      assert a + b == b;
    } else {
      assert (a + b)[0] == a[0] && (a + b)[1..] == a[1..] + b;
      DomainsOfAppend(a[1..], b);
      var head := if a[0].CreateDomain? then [a[0].domain] else [];
      assert DomainsOf(a) == head + DomainsOf(a[1..]);
      assert DomainsOf(a + b) == head + DomainsOf(a[1..] + b);
      AppendAssoc(head, DomainsOf(a[1..]), DomainsOf(b));
    }
  }

  lemma {:induction false} RelationshipsOfAppend(a: seq<Op>, b: seq<Op>)
    ensures RelationshipsOf(a + b) == RelationshipsOf(a) + RelationshipsOf(b)
    decreases |a|
  {
    if a == [] {
      assert a + b == b;
    } else {
      assert (a + b)[0] == a[0] && (a + b)[1..] == a[1..] + b;
      RelationshipsOfAppend(a[1..], b);
      var head := if a[0].CreateRelationship? then [a[0].rel] else [];
      assert RelationshipsOf(a) == head + RelationshipsOf(a[1..]);
      assert RelationshipsOf(a + b) == head + RelationshipsOf(a[1..] + b);
      AppendAssoc(head, RelationshipsOf(a[1..]), RelationshipsOf(b));
    }
  }

  /** What two logs create one after the other is what each creates, in
      order. */
  lemma OfAppend(a: seq<Op>, b: seq<Op>)
    ensures TablesOf(a + b) == TablesOf(a) + TablesOf(b)
    ensures DomainsOf(a + b) == DomainsOf(a) + DomainsOf(b)
    ensures RelationshipsOf(a + b) == RelationshipsOf(a) + RelationshipsOf(b)
  {
    TablesOfAppend(a, b);
    DomainsOfAppend(a, b);
    RelationshipsOfAppend(a, b);
  }

  /** Applying a log adds exactly the tables and domains it creates. */
  lemma {:induction false} ApplyAllSpec(c: Catalog, ops: seq<Op>)
    ensures ApplyAll(c, ops).tables == c.tables + set t | t in TablesOf(ops)
    ensures ApplyAll(c, ops).domains == c.domains + set d | d in DomainsOf(ops)
    decreases |ops|
  {
    if ops != [] {
      ApplyAllSpec(Apply(c, ops[0]), ops[1..]);
    }
  }

  lemma {:induction false} ApplyAllAppend(c: Catalog, a: seq<Op>, b: seq<Op>)
    ensures ApplyAll(c, a + b) == ApplyAll(ApplyAll(c, a), b)
    decreases |a|
  {
    if a == [] {
      assert a + b == b;
    } else {
      assert (a + b)[0] == a[0] && (a + b)[1..] == a[1..] + b;
      ApplyAllAppend(Apply(c, a[0]), a[1..], b);
    }
  }

  /** A log resolves exactly when its first part does and the rest resolves
      against what the first part created. */
  lemma {:induction false} ResolvesAppend(c: Catalog, a: seq<Op>, b: seq<Op>)
    ensures Resolves(c, a + b) <==> Resolves(c, a) && Resolves(ApplyAll(c, a), b)
    decreases |a|
  {
    if a == [] {
      assert a + b == b;
    } else {
      assert (a + b)[0] == a[0] && (a + b)[1..] == a[1..] + b;
      ResolvesAppend(Apply(c, a[0]), a[1..], b);
    }
  }

  /** An operation that creates nothing and names only existing tables. */
  predicate Passive(op: Op) {
    op.AddField? || op.AddCodedValue? || op.CreateRelationship?
  }

  /** A log of such operations resolves exactly when each of its operations
      refers to what already exists. */
  lemma {:induction false} ResolvesPassive(c: Catalog, ops: seq<Op>)
    requires forall i :: 0 <= i < |ops| ==> Passive(ops[i])
    ensures Resolves(c, ops) <==> forall i :: 0 <= i < |ops| ==> Refers(c, ops[i])
    decreases |ops|
  {
    if ops != [] {
      assert Apply(c, ops[0]) == c;
      assert forall i :: 0 <= i < |ops[1..]| ==> ops[1..][i] == ops[i + 1];
      ResolvesPassive(c, ops[1..]);
    }
  }
}
