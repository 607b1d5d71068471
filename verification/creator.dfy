/** The entry points: `database_for_version1`, which names the geodatabase
    and builds it unless it already exists, and `database_for_protocol_file`,
    which accepts or rejects a protocol document before doing so. */
module Creator {
  import opened Wrappers
  import opened Text
  import opened Protocols
  import opened Store
  import opened Schema
  import opened SchemaLemmas
  import opened BuildLemmas

  const Extension := ".gdb"

  /** `"{0}_v{1}".format(name, int(version))`: the protocol name and the
      major version, truncated toward zero. */
  function RawDatabaseName(p: Protocol): (s: string)
    ensures |s| > |p.name| + 2 && s[..|p.name|] == p.name && s[|p.name|..|p.name| + 2] == "_v"
  {
    p.name + "_v" + IntToString(Truncate(p.version))
  }

  /** The raw name ends in the major version, which can be read back. */
  lemma RawDatabaseNameVersion(p: Protocol)
    ensures ParseInt(RawDatabaseName(p)[|p.name| + 2..]) == Truncate(p.version)
    ensures 0.0 <= p.version ==> Truncate(p.version) as real <= p.version < Truncate(p.version) as real + 1.0
  {
    assert RawDatabaseName(p)[|p.name| + 2..] == IntToString(Truncate(p.version));
    ParseIntToString(Truncate(p.version));
  }

  /** The geodatabase's file name: the raw name as the store validates it in
      `folder`, with the ".gdb" extension. */
  function DatabaseName(p: Protocol, folder: string, store: Store): (n: string)
    ensures |n| >= 4 && n[|n| - 4..] == Extension
    ensures n[..|n| - 4] == store.validate(RawDatabaseName(p), Folder(folder))
  {
    store.validate(RawDatabaseName(p), Folder(folder)) + Extension
  }

  /** The geodatabase a run reports and what the run did to the store. */
  datatype Run = Run(database: Workspace, step: Step)

  /** `database_for_version1` for a protocol with the csv block `csv`: the
      geodatabase is built only when it does not exist yet. */
  function DatabaseForVersion1(p: Protocol, csv: Csv, folder: string, store: Store): (r: Run)
    ensures r.database == Database(folder, DatabaseName(p, folder, store))
    ensures store.present(r.database) ==> r.step == Done([])
    ensures !store.present(r.database) ==> r.step == BuildDatabase(p, csv, folder, DatabaseName(p, folder, store), store)
  {
    var name := DatabaseName(p, folder, store);
    var db := Database(folder, name);
    if store.present(db) then Run(db, Done([]))
    else Run(db, BuildDatabase(p, csv, folder, name, store))
  }

  /** A run that builds creates the very geodatabase it reports, first. */
  lemma CreatesReportedDatabase(p: Protocol, csv: Csv, folder: string, store: Store)
    requires !store.present(DatabaseForVersion1(p, csv, folder, store).database)
    ensures var r := DatabaseForVersion1(p, csv, folder, store);
      |r.step.ops| >= 1 && r.step.ops[0] == CreateDatabase(r.database.folder, r.database.name)
  {
    var r := DatabaseForVersion1(p, csv, folder, store);
    BuildCreatesDatabaseFirst(p, csv, folder, r.database.name, store);
  }

  /** Running again once the geodatabase exists changes nothing and reports
      the same geodatabase, whatever else the store holds. */
  lemma SecondRunDoesNothing(p: Protocol, csv: Csv, folder: string, store: Store, later: Store)
    requires later.validate == store.validate
    requires later.present(DatabaseForVersion1(p, csv, folder, store).database)
    ensures DatabaseForVersion1(p, csv, folder, later) == Run(DatabaseForVersion1(p, csv, folder, store).database, Done([]))
  {
  }

  /** What `database_for_protocol_file` ends with: the geodatabase and the
      (completed) protocol, a rejection, or an exception. */
  datatype Outcome = Opened(database: Workspace, protocol: Protocol) | Rejected | Crashed(error: Error)

  /** The operations performed on the store and how the call ended. */
  datatype Answer = Answer(ops: seq<Op>, outcome: Outcome)

  /** The gate: the meta-name must be the sentinel and the meta-version at
      most 2. */
  predicate Accepted(p: Protocol) {
    p.metaName == ProtocolSentinel && p.metaVersion <= MaxMetaVersion
  }

  /** The protocol with its csv block, the default one when it has none. */
  function WithCsv(p: Protocol, defaultCsv: Csv): (q: Protocol)
    ensures q.csv.Some?
    ensures p.csv.Some? ==> q == p
    ensures p.csv.None? ==> q == p.(csv := Some(defaultCsv))
  {
    if p.csv.Some? then p else p.(csv := Some(defaultCsv))
  }

  /** `database_for_protocol_file` on a parsed document; `defaultCsv` is the
      content of the bundled csv.json. */
  function DatabaseForProtocolFile(p: Protocol, folder: string, defaultCsv: Csv, store: Store): (a: Answer)
    ensures !Accepted(p) <==> a.outcome.Rejected?
    ensures a.outcome.Rejected? ==> a.ops == []
    ensures a.outcome.Opened? ==> a.outcome.protocol == WithCsv(p, defaultCsv)
    ensures a.outcome.Opened? ==> a.outcome.database == Database(folder, DatabaseName(p, folder, store))
  {
    if !Accepted(p) then Answer([], Rejected)
    else
      var q := WithCsv(p, defaultCsv);
      var r := DatabaseForVersion1(q, q.csv.value, folder, store);
      match r.step.failure
      case Some(e) => Answer(r.step.ops, Crashed(e))
      case None => Answer(r.step.ops, Opened(r.database, q))
  }

  /** An accepted document opens a geodatabase exactly when the geodatabase
      already exists or the document, completed with its csv block, builds
      without raising. */
  lemma OpenedExactly(p: Protocol, folder: string, defaultCsv: Csv, store: Store)
    requires Accepted(p)
    ensures var q := WithCsv(p, defaultCsv);
      var a := DatabaseForProtocolFile(p, folder, defaultCsv, store);
      a.outcome.Opened? <==>
        store.present(Database(folder, DatabaseName(p, folder, store))) || Buildable(q, q.csv.value)
  {
    var q := WithCsv(p, defaultCsv);
    assert DatabaseName(q, folder, store) == DatabaseName(p, folder, store);
    BuildSucceeds(q, q.csv.value, folder, DatabaseName(p, folder, store), store);
  }

  /** An existing geodatabase is opened without touching the store, and a
      protocol's own csv block is kept. */
  lemma ExistingDatabaseOpened(p: Protocol, folder: string, defaultCsv: Csv, store: Store)
    requires Accepted(p) && store.present(Database(folder, DatabaseName(p, folder, store)))
    ensures DatabaseForProtocolFile(p, folder, defaultCsv, store) ==
      Answer([], Opened(Database(folder, DatabaseName(p, folder, store)), WithCsv(p, defaultCsv)))
  {
    assert DatabaseName(WithCsv(p, defaultCsv), folder, store) == DatabaseName(p, folder, store);
  }
}
