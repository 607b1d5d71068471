# Park Observer protocol to geodatabase schema, in Dafny

`database_creator.py` turns a Park Observer protocol into an Esri file
geodatabase schema. A protocol is a JSON document describing a field survey:
an optional mission, a list of features with typed attributes and data-entry
dialogs, and a csv block naming the GPS point, track log and observation
tables.

This project models that compiler as pure functions and proves what the
geodatabase it builds looks like.

- **Protocol** (`protocol.dfy`): typed records. Keys the compiler tests for,
  or reads inside `try`, are `Option`s. Keys it reads unguarded are plain
  fields.
- **Dictionaries** (`dicts.dfy`): Python dicts, modelled as insertion-ordered
  maps.
- **String helpers** (`text.dfy`): `str.strip`, `str.replace`, `str.split`,
  `int(x)` and integer formatting, modelled explicitly.
- **Alias extractor** (`aliases.dfy`): `get_aliases_from_protocol_v1`.
- **Domain extractor** (`domains.dfy`): `get_domains_from_protocol_v1`.
- **Attribute compiler** (`attributes.dfy`): `get_attributes`.
- **Store** (`store.dfy`):
  - The geodatabase is a log of the arcpy calls that change it (`Op`).
  - `ValidateTableName` and `Exists` are caller-supplied functions (`Store`).
  - A builder is a `Step`: the operations it performed, and the exception
    that stopped it, if any.
  - `Resolves` says that every operation of a log names only tables and
    domains created before it.
- **Builders** (`schema.dfy`): `build_domains`, the four table builders,
  `build_relationships` and `build_database_version1`.
- **Build properties** (`schema_lemmas.dfy`, `build_lemmas.dfy`,
  `shapes.dfy`): what a build creates, in what order, when it raises, and
  that its result is consistent.
- **Entry points** (`creator.dfy`): `database_for_version1` and the gate in
  `database_for_protocol_file`.

Where the code and its documentation differ, the model follows the code:
- The track log table is always created. Without a mission it only lacks
  mission columns.
- A mission attribute of unknown type does not stop the build. The
  `except KeyError` meant for a protocol without a mission also catches the
  KeyError of the unknown type, and the track log gets no mission columns at
  all (see Findings). `Schema.TrackStep` runs the code as written;
  `Schema.TrackStepIntended` is the step as evidently intended.
- The `required` flag of an attribute is computed but never reaches
  `AddField`, because the call passes "" for nullability. `Column.nullable` has
  it; `Field` does not.
- The relationship classes name the observations table "Observations",
  whatever the csv block calls it. `BuildLemmas.BuildResolves` proves that a
  finished build is consistent exactly when a table of that name exists.
- Domain extraction keys on `bind.replace("selected:", "").strip()`, which
  removes every occurrence of `selected:`, not only the prefix.
- Domain references match attributes by name only, across all owners.

## Model

| member | source | states |
|---|---|---|
| Text.Truncate | database_creator.py:58 | `int(version)` truncates toward zero: within one below a non-negative version, within one above a negative one |
| Text.Underscores | database_creator.py:131 | the default alias has the name's length, with every underscore a space and every other character unchanged |
| Dicts.LastWriterWins | database_creator.py:403 | a dictionary filled by a loop of assignments holds, for each key, the value of its last assignment |
| Aliases.BindTarget | database_creator.py:393-396 | `bind.split(":")[1]` yields a name exactly when the bind is a string containing a colon, and the name contains no colon |
| Aliases.BindTargetText | database_creator.py:394 | the name is the text after the first colon of the bind, up to the next colon or the end |
| Aliases.BindTargetOfVerb | database_creator.py:394 | a bind `<verb>:<name>` targets `<name>` |
| Aliases.ExtractAliases | database_creator.py:366-404 | every owner's key (its name, or "mission") has a bucket, and only owner keys have one |
| Aliases.OwnerAliasesSpec | database_creator.py:381-402 | an owner's bucket has an entry for a name exactly when its dialog has an element binding that name while a non-empty field title is in force, and the entry is the label of such an element |
| Aliases.OwnerAliasesLast | database_creator.py:388-402 | when several elements bind a name, the last one in dialog order gives its label |
| Aliases.ExtractAliasesBucket | database_creator.py:374-403 | the bucket under an owner's key is that owner's own, unless a later owner has the same key |
| Aliases.SingleElementAlias | database_creator.py:397-401 | the label is "<section title> <field title>", or the field title alone when the section has no title |
| Aliases.WeatherExample | database_creator.py:397-401 | a "Weather" section with a "Wind Speed" element bound to `wind_speed` labels it "Weather Wind Speed", or "Wind Speed" without the section title |
| Domains.CodedNames | database_creator.py:431-435 | a name is listed exactly when some attribute of type 100 has it |
| Domains.DomainKeyOfSelected | database_creator.py:425 | the bind `selected:<name>` keys the domain by `<name>` |
| Domains.DomainKeyOfDoubledVerb | database_creator.py:425 | `selected:selected:<name>` also keys it by `<name>`, since every occurrence of the verb is removed |
| Domains.ElementEntry | database_creator.py:438-445 | an element records an item list exactly when it is a radio element with a string bind starting `selected:` whose key is a type-100 attribute of its owner; it raises exactly for a missing `type`, a non-string bind on a radio element, or missing `items` on a recording element |
| Domains.ExtractDomainsSuccess | database_creator.py:407-446 | the extractor raises exactly when some element it visits raises |
| Domains.ExtractDomainsSound | database_creator.py:428-445 | every domain is the verbatim item list of a recording radio element, in an owner with both attributes and a dialog |
| Domains.ExtractDomainsComplete | database_creator.py:428-445 | every recording radio element leaves a domain under its key |
| Domains.ExtractDomainsLast | database_creator.py:411-446 | the last recording element in document order (mission first, then the features) decides a key's items |
| Attributes.TypeName | database_creator.py:105-125 | a type code is accepted exactly when it is in the fixed table, and it maps to the table's Esri type, e.g. 800 to SHORT |
| Attributes.Nullable | database_creator.py:126-129 | nullable is `not required`, and true when `required` is absent |
| Attributes.BucketFor | database_creator.py:133-139 | the owner's own bucket is used when the owner has a name with a bucket, else the "mission" bucket, else none |
| Attributes.AliasFor | database_creator.py:131-141 | the alias is the bucket's label when the bucket has the name, and otherwise the name with underscores shown as spaces |
| Attributes.DomainRef | database_creator.py:143-149 | type 800 always gets "YesNoBoolean"; any other type gets `<name>Codes` exactly when the name has a domain, else "" |
| Attributes.CompileAttribute | database_creator.py:124-156 | an attribute compiles exactly when its type is in the table; the column has its name, table type, nullability, alias and domain |
| Attributes.CompileList | database_creator.py:123-159 | one column per attribute in order, or the KeyError of the first attribute of unknown type |
| Attributes.CompileAttributes | database_creator.py:118-159 | no `attributes` gives no columns; otherwise it succeeds exactly when every type is known, with one column per attribute, named after it |
| Attributes.AliasFromOwnDialog | database_creator.py:132-141 | with the extracted aliases, an owner's columns take their labels from that owner's own dialog (unless a later owner shares its key) |
| Schema.StandardFields | database_creator.py:176-181 | field `i` of a csv block has name `i`, type `i` and the underscore alias; it raises IndexError exactly when there are fewer types than names, after adding one field per type |
| Schema.MissionColumnsAsWritten | database_creator.py:78-81 | without a mission, and also when a mission attribute has an unknown type, the track log gets no mission columns |
| Schema.MissionColumns | database_creator.py:78-81 | corrected: no mission gives no columns; a mission attribute of unknown type raises |
| SchemaLemmas.GpsPointsTableOps | database_creator.py:162-184 | the GPS points step creates its table and adds fields only to it; it raises exactly when its csv block has fewer types than names |
| SchemaLemmas.TrackLogTableOps | database_creator.py:187-220 | the same for the track log step |
| SchemaLemmas.ObservationsTableOps | database_creator.py:223-244 | the same for the observations step |
| SchemaLemmas.FeatureTableOps | database_creator.py:247-283 | the same for a feature step |
| SchemaLemmas.TableOpsFacts | database_creator.py:162-184 | a table step creates exactly its table, no domain and no relationship, and resolves once the domains of its fields exist |
| SchemaLemmas.CompiledColumnsUse | database_creator.py:143-149 | every domain a column refers to is one `build_domains` creates |
| SchemaLemmas.CodesDomainDistinct | database_creator.py:358 | a coded domain is never "YesNoBoolean", and distinct names give distinct domains |
| SchemaLemmas.DomainOpsFacts | database_creator.py:350-363 | `build_domains` creates "YesNoBoolean" and then `<k>Codes` for each key in dictionary order; YesNoBoolean holds exactly 0 "No" and 1 "Yes"; `<k>Codes` holds item `i` under code `i`; every coded value goes to an existing domain; no table or relationship is created |
| SchemaLemmas.DomainOpsCreate | database_creator.py:350-363 | the domains created are exactly "YesNoBoolean" and `<k>Codes` for each key |
| SchemaLemmas.FeatureTablesSuccess | database_creator.py:84-91 | the feature loop raises exactly when a feature lacks a name or has an attribute of unknown type, or when there is a feature and the feature fields lack types |
| SchemaLemmas.FeatureTablesCreate | database_creator.py:84-91 | the feature loop creates one table per feature, in feature order, under the validated name, and no domain or relationship |
| SchemaLemmas.FeatureTablesResolve | database_creator.py:84-91 | every field the feature loop adds goes to a table it created, with a domain that exists |
| SchemaLemmas.FeatureRelationshipsFacts | database_creator.py:319-347 | the relationship loop relates each validated feature table, in order, to the GPS points and then to "Observations"; it raises only for a feature without a name |
| SchemaLemmas.BuildCreatesDatabaseFirst | database_creator.py:70 | whatever happens, the geodatabase is created first |
| SchemaLemmas.TablesPartResolve | database_creator.py:73-91 | the domains and the four kinds of table resolve from an empty geodatabase |
| BuildLemmas.BuildSucceeds | database_creator.py:67-93 | the build finishes exactly when the dialogs are well formed, every feature is named and has only known attribute types, and no used csv block has fewer types than names; the mission's attribute types play no part |
| BuildLemmas.BadDialogLeavesEmptyDatabase | database_creator.py:70-72 | a malformed dialog raises right after the geodatabase is created, leaving it empty |
| BuildLemmas.BuildTablesSucceed | database_creator.py:74-93 | once the domains are known, the tables, domains and relationships are built without raising exactly when every feature compiles and every csv block in use has enough field types |
| BuildLemmas.TrackStepSucceeds | database_creator.py:77-82 | the track log step raises exactly when the track log csv block lacks types; a mission attribute of unknown type never makes it raise |
| BuildLemmas.RelationshipsSucceed | database_creator.py:319-320 | the relationship builder raises exactly when a feature has no name |
| BuildLemmas.BuildTablesCreated | database_creator.py:73-91 | a finished build creates the GPS points, track log and observations tables, then one table per feature under its validated name, in that order |
| BuildLemmas.BuildDomainsCreated | database_creator.py:73-75 | a finished build creates exactly "YesNoBoolean" and the `<k>Codes` domains |
| BuildLemmas.BuildRelationshipsCreated | database_creator.py:286-347 | a finished build creates 2 + 2·(number of features) relationship classes: track log to GPS points, GPS points to "Observations", then each feature's pair, in order |
| BuildLemmas.BuildRelationshipKinds | database_creator.py:290-347 | only the first relationship class is composite and one-to-many on TrackLog_ID; all others are simple and one-to-one on GpsPoint_ID or Observation_ID; all are keyed on OBJECTID |
| BuildLemmas.RelationshipsResolve | database_creator.py:286-347 | against the tables of a build, the relationship classes join existing tables exactly when "Observations" is one of them |
| BuildLemmas.BuildResolves | database_creator.py:67-93 | a finished build is consistent exactly when one of its tables is named "Observations". Consistent means every field, coded value and relationship names only tables and domains created before it |
| BuildLemmas.MissionColumnsAgree | database_creator.py:78-81 | the as-written and corrected mission columns agree whenever the corrected ones exist |
| BuildLemmas.MissionColumnsDropped | database_creator.py:78-81 | a mission with a TEXT attribute and an attribute of type 1100: as written, no mission column at all and no exception; corrected, KeyError(1100) |
| BuildLemmas.MissionDroppedBuildFinishes | database_creator.py:67-93 | with that mission and csv blocks that have their field types, the whole build finishes and the track log carries only its csv fields; the intended track log step raises KeyError(1100) |
| BuildLemmas.TrackStepIntendedAgrees | database_creator.py:78-82 | the intended track log step is the one as written whenever the mission columns compile, and otherwise raises their error before creating anything |
| TableShapes.GpsPointsShape | database_creator.py:162-184 | GPS points: a WGS 84 point table whose columns are the csv field names, then TrackLog_ID |
| TableShapes.TrackLogShape | database_creator.py:187-220 | track logs: a WGS 84 polyline table whose columns are the mission attribute columns, then the csv field names |
| TableShapes.ObservationsShape | database_creator.py:223-244 | observations: a WGS 84 point table whose columns are the csv field names, then GpsPoint_ID |
| TableShapes.FeatureShape | database_creator.py:247-283 | a feature: a WGS 84 point table whose columns are its attribute columns, the csv feature fields, then GpsPoint_ID and Observation_ID |
| TableShapes.FeatureColumnNames | database_creator.py:123-124 | a feature's attribute columns are named after its attributes, in order |
| Creator.RawDatabaseNameVersion | database_creator.py:58-59 | the raw geodatabase name is the protocol name, "_v" and the truncated version, which can be read back |
| Creator.DatabaseName | database_creator.py:60 | the geodatabase name is the validated raw name followed by ".gdb" |
| Creator.CreatesReportedDatabase | database_creator.py:56-64 | a run that builds creates, first, the very geodatabase it reports |
| Creator.SecondRunDoesNothing | database_creator.py:62-64 | once the geodatabase exists, a run performs no operation and reports the same geodatabase |
| Creator.DatabaseForProtocolFile | database_creator.py:29-43 | rejected exactly when the meta-name is not the sentinel or the meta-version exceeds 2, and then nothing is done; an opened geodatabase comes with the protocol completed by the default csv block |
| Creator.OpenedExactly | database_creator.py:29-36 | an accepted protocol opens a geodatabase exactly when it already exists or the build finishes |
| Creator.ExistingDatabaseOpened | database_creator.py:32-36 | an existing geodatabase is opened without any operation |

## Left out

- Reading and parsing the protocol file and the bundled csv.json (database_creator.py:26-27, 46-53). The protocol arrives parsed. The default csv block is a parameter of `DatabaseForProtocolFile`.
- The `print` diagnostics and the `__main__` block. A rejected protocol only yields `Rejected`.
- The table view each table builder makes and deletes in `try`/`finally`. The view is arcpy bookkeeping and changes no schema.
- Name validation and existence checks are functions the caller supplies. The spatial reference is only its code, 4326. Paths are `Workspace` values, not `os.path.join` strings.
- arcpy never fails in the model. A call naming a missing table or domain is not an error. Instead, `Resolves` says whether any such call exists.
- A document missing a key the compiler reads unguarded is not representable, so the KeyError it raises is not modelled. Examples: `meta-name`, `version`, `name`, `features`, an attribute's `name` or `type`, a dialog's `sections`, or a csv entry.
- JSON values of unexpected types are not representable, except a non-string `bind`. Examples: a string `meta-version`, a non-boolean `required`, or `null` titles.
- Calling `database_for_version1` directly on a protocol without a csv block. `DatabaseForVersion1` takes the csv block as a parameter, and `database_for_protocol_file` always supplies one.
- Dictionary iteration follows insertion order (Python 3.7 and later). Python 2.7's unspecified dict order is not modelled.
- Creator.DatabaseForVersion1: states the reported geodatabase and which branch runs. The branch contracts repeat the body; `Creator.SecondRunDoesNothing` and `Creator.CreatesReportedDatabase` carry the properties.
- BuildLemmas.BuildTablesCreated: describes finished builds only. Of a build that raises, the model proves only that the geodatabase comes first (`SchemaLemmas.BuildCreatesDatabaseFirst`) and what a bad dialog leaves (`BuildLemmas.BadDialogLeavesEmptyDatabase`).
- make_service.py, poz2fgdb.py and server.py are not part of this model.

## Findings

| source | as written | input that shows it | evidently intended | confidence | as-written member | corrected member |
|---|---|---|---|---|---|---|
| database_creator.py:78-81 | `except KeyError` around `get_attributes(protocol["mission"], …)` is meant for a protocol without a mission, but it also catches the KeyError that `get_attributes` raises for an unknown type code. The whole list of mission columns is then silently dropped. | a mission with attributes `observer` (type 700) and `visibility` (type 1100) | only a missing mission gives an empty list; an unknown type raises, as it does for a feature | not executed; medium | BuildLemmas.MissionDroppedBuildFinishes | Schema.MissionColumns |
