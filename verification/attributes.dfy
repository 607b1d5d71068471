/** The attribute compiler (`get_attributes`): a protocol owner's attributes
    turned into the column descriptions of its table. */
module Attributes {
  import opened Wrappers
  import opened Text
  import opened Dicts
  import opened Protocols
  import opened Aliases
  import opened Domains

  /** The domain every Boolean (type 800) column takes. */
  const BooleanDomain := "YesNoBoolean"

  /** The attribute type of a Boolean, stored as a short integer 0/1. */
  const BooleanType := 800

  /** The protocol type codes and the Esri field type each is stored as. */
  const TypeTable: map<int, string> := map[
    0 := "LONG", 100 := "SHORT", 200 := "LONG", 300 := "DOUBLE", 400 := "DOUBLE", 500 := "DOUBLE",
    600 := "FLOAT", 700 := "TEXT", 800 := "SHORT", 900 := "DATE", 1000 := "BLOB"]

  /** The lookup in the type table; None where the source raises KeyError. */
  function TypeName(code: int): (t: Option<string>)
    ensures t.Some? <==> code in TypeTable
    ensures t.Some? ==> t.value == TypeTable[code]
    ensures t.Some? <==> 0 <= code <= 1000 && code % 100 == 0
    ensures code == CodedType || code == BooleanType ==> t == Some("SHORT")
  {
    if code == 0 then Some("LONG")
    else if code == 100 then Some("SHORT")
    else if code == 200 then Some("LONG")
    else if code == 300 then Some("DOUBLE")   // 64-bit integer, which Esri lacks
    else if code == 400 then Some("DOUBLE")   // decimal, which Esri lacks
    else if code == 500 then Some("DOUBLE")
    else if code == 600 then Some("FLOAT")
    else if code == 700 then Some("TEXT")
    else if code == 800 then Some("SHORT")    // Boolean: 0 is false, 1 is true
    else if code == 900 then Some("DATE")
    else if code == 1000 then Some("BLOB")
    else None
  }

  /** The description of one column of an owner's table. */
  datatype Column = Column(name: string, fieldType: string, nullable: bool, alias: string, domain: string)

  /** `not attribute["required"]`, and true when `required` is absent. */
  function Nullable(required: Option<bool>): (n: bool)
    ensures n <==> required != Some(true)
  {
    match required
    case None => true
    case Some(b) => !b
  }

  /** The bucket of aliases `get_attributes` consults for owner `o`: the one
      under the owner's name, else (no name, or no bucket of that name) the
      one under "mission", else none. */
  function BucketFor(o: Owner, aliases: AliasMap): (b: Option<Bucket>)
    ensures b.Some? ==> b.value in aliases.values.Values
    ensures o.name.Some? && o.name.value in aliases.values ==> b == Some(aliases.values[o.name.value])
    ensures !(o.name.Some? && o.name.value in aliases.values) && MissionKey in aliases.values ==>
      b == Some(aliases.values[MissionKey])
    ensures b.None? <==> (o.name.None? || o.name.value !in aliases.values) && MissionKey !in aliases.values
  {
    if o.name.Some? && o.name.value in aliases.values then Some(aliases.values[o.name.value])
    else if MissionKey in aliases.values then Some(aliases.values[MissionKey])
    else None
  }

  /** A column's alias: the label the owner's bucket holds for the attribute,
      or else its name with underscores shown as spaces. */
  function AliasFor(o: Owner, name: string, aliases: AliasMap): (alias: string)
    ensures (var b := BucketFor(o, aliases); b.Some? && name in b.value.values) ==> alias == BucketFor(o, aliases).value.values[name]
    ensures (var b := BucketFor(o, aliases); !(b.Some? && name in b.value.values)) ==> alias == Underscores(name)
  {
    var default := Underscores(name);
    if |aliases.values| == 0 then default
    else match BucketFor(o, aliases)
      case None => default
      case Some(bucket) => if |bucket.values| > 0 && name in bucket.values then bucket.values[name] else default
  }

  /** A column's domain: "YesNoBoolean" for a Boolean, `<name>Codes` when the
      attribute name has a coded-value list, otherwise none (""). */
  function DomainRef(a: Attribute, domains: DomainMap): (d: string)
    ensures a.typeCode == BooleanType ==> d == BooleanDomain
    ensures a.typeCode != BooleanType ==> (d != "" <==> a.name in domains.values)
    ensures a.typeCode != BooleanType && d != "" ==> d == a.name + "Codes"
  {
    if a.typeCode == BooleanType then BooleanDomain
    else if |domains.values| > 0 && a.name in domains.values then a.name + "Codes"
    else ""
  }

  /** One iteration of the loop: the column for attribute `a` of owner `o`, or
      KeyError for a type code outside the table. */
  function CompileAttribute(o: Owner, a: Attribute, domains: DomainMap, aliases: AliasMap): (r: Result<Column, Error>)
    ensures r.Failure? <==> TypeName(a.typeCode).None?
    ensures r.Failure? ==> r.error == UnknownAttributeType(a.typeCode)
    ensures r.Success? ==> r.value.name == a.name && Some(r.value.fieldType) == TypeName(a.typeCode)
    ensures r.Success? ==> r.value.nullable == Nullable(a.required)
    ensures r.Success? ==> r.value.alias == AliasFor(o, a.name, aliases) && r.value.domain == DomainRef(a, domains)
  {
    match TypeName(a.typeCode)
    case None => Failure(UnknownAttributeType(a.typeCode))
    case Some(t) => Success(Column(a.name, t, Nullable(a.required), AliasFor(o, a.name, aliases), DomainRef(a, domains)))
  }

  /** The attribute at `i` is the first whose type code is outside the table. */
  predicate FirstUnknown(attrs: seq<Attribute>, i: int) {
    && 0 <= i < |attrs|
    && TypeName(attrs[i].typeCode).None?
    && forall j :: 0 <= j < i ==> TypeName(attrs[j].typeCode).Some?
  }

  /** The loop over a list of attributes: one column per attribute, in order,
      or the KeyError of the first attribute with an unknown type. */
  function CompileList(o: Owner, attrs: seq<Attribute>, domains: DomainMap, aliases: AliasMap): (r: Result<seq<Column>, Error>)
    ensures r.Success? <==> forall i :: 0 <= i < |attrs| ==> TypeName(attrs[i].typeCode).Some?
    ensures r.Success? ==> |r.value| == |attrs|
    ensures r.Success? ==> forall i :: 0 <= i < |attrs| ==> Success(r.value[i]) == CompileAttribute(o, attrs[i], domains, aliases)
    ensures r.Failure? ==> exists i :: FirstUnknown(attrs, i) && r.error == UnknownAttributeType(attrs[i].typeCode)
    decreases |attrs|
  {
    if attrs == [] then Success([])
    else match CompileAttribute(o, attrs[0], domains, aliases)
      case Failure(err) =>
        assert FirstUnknown(attrs, 0);
        Failure(err)
      case Success(c) =>
        match CompileList(o, attrs[1..], domains, aliases)
        case Failure(err) =>
          var i :| FirstUnknown(attrs[1..], i) && err == UnknownAttributeType(attrs[1..][i].typeCode);
          assert FirstUnknown(attrs, i + 1);
          Failure(err)
        case Success(cs) =>
          CompileCons(o, attrs, c, cs, domains, aliases);
          Success([c] + cs)
  }

  /** The columns of the first attribute and of the rest, put together, are
      the columns of the whole list. */
  lemma CompileCons(o: Owner, attrs: seq<Attribute>, c: Column, cs: seq<Column>, domains: DomainMap, aliases: AliasMap)
    requires attrs != [] && Success(c) == CompileAttribute(o, attrs[0], domains, aliases)
    requires |cs| == |attrs| - 1
    requires forall i :: 0 <= i < |cs| ==> Success(cs[i]) == CompileAttribute(o, attrs[1..][i], domains, aliases)
    ensures forall i :: 0 <= i < |attrs| ==> Success(([c] + cs)[i]) == CompileAttribute(o, attrs[i], domains, aliases)
  {
    forall i | 0 <= i < |attrs|
      ensures Success(([c] + cs)[i]) == CompileAttribute(o, attrs[i], domains, aliases)
    {
      if i > 0 {
        assert ([c] + cs)[i] == cs[i - 1];
        assert attrs[i] == attrs[1..][i - 1];
      }
    }
  }

  /** `get_attributes(owner, domains, aliases)`: no columns when the owner has
      no `attributes`. */
  function CompileAttributes(o: Owner, domains: DomainMap, aliases: AliasMap): (r: Result<seq<Column>, Error>)
    ensures var attrs := o.attributes.GetOr([]);
      r.Success? <==> forall i :: 0 <= i < |attrs| ==> TypeName(attrs[i].typeCode).Some?
    ensures var attrs := o.attributes.GetOr([]);
      r.Success? ==> |r.value| == |attrs| && forall i :: 0 <= i < |attrs| ==> r.value[i].name == attrs[i].name
    ensures o.attributes.None? ==> r == Success([])
  {
    CompileList(o, o.attributes.GetOr([]), domains, aliases)
  }

  /** With the aliases the extractor builds, an owner's columns take their
      labels from that owner's own dialog, unless a later owner has the same
      key (its bucket then replaces the earlier one). */
  lemma AliasFromOwnDialog(p: Protocol, i: int, name: string)
    requires 0 <= i < |Owners(p)|
    requires forall i' :: i < i' < |Owners(p)| ==> OwnerKey(Owners(p)[i']) != OwnerKey(Owners(p)[i])
    ensures var bucket := OwnerAliases(Owners(p)[i]);
      AliasFor(Owners(p)[i], name, ExtractAliases(p)) == if name in bucket.values then bucket.values[name] else Underscores(name)
  {
    var o := Owners(p)[i];
    ExtractAliasesBucket(p, i);
    assert OwnerKey(o) in ExtractAliases(p).values;
    assert BucketFor(o, ExtractAliases(p)) == Some(OwnerAliases(o));
  }
}
