/** The alias extractor (`get_aliases_from_protocol_v1`): human-readable field
    labels recovered from the titles of the dialog sections and elements that
    bind an attribute. */
module Aliases {
  import opened Wrappers
  import opened Text
  import opened Dicts
  import opened Protocols

  /** Attribute name to label, for one owner. */
  type Bucket = Dict<string>

  /** Owner key to that owner's bucket. */
  type AliasMap = Dict<Bucket>

  /** The key of an owner without a `name` (normally the mission). */
  const MissionKey := "mission"

  function OwnerKey(o: Owner): string {
    o.name.GetOr(MissionKey)
  }

  /** A JSON value Python treats as true: present and not the empty string. */
  predicate Truthy(o: Option<string>) {
    o.Some? && o.value != ""
  }

  /** `bind.split(":")[1]`: the text between the first colon and the next one
      (or the end); None where Python raises KeyError (no bind),
      AttributeError (not a string) or IndexError (no colon). */
  function BindTarget(bind: Option<Bind>): (r: Option<string>)
    ensures r.Some? <==> bind.Some? && bind.value.Text? && ':' in bind.value.text
    ensures r.Some? ==> ':' !in r.value
  {
    match bind
    case Some(Text(s)) =>
      var parts := Split(s, ':');
      if |parts| >= 2 then Some(parts[1]) else None
    case _ => None
  }

  /** The target is the text after the first colon, up to the next colon or
      the end of the bind. */
  lemma BindTargetText(bind: Option<Bind>)
    ensures BindTarget(bind).Some? ==> SecondPart(bind.value.text, ':', BindTarget(bind).value)
  {
    if BindTarget(bind).Some? {
      SplitSecond(bind.value.text, ':');
    }
  }

  /** A bind of the usual form `<verb>:<name>` targets `<name>`. */
  lemma BindTargetOfVerb(verb: string, name: string)
    requires ':' !in verb && ':' !in name
    ensures BindTarget(Some(Text(verb + ":" + name))) == Some(name)
  {
    SplitJoin([verb, name], ':');
    assert Join([verb, name], ':') == verb + ":" + name;
  }

  /** The label of an element: the section title and the field title joined by
      a space, or the field title alone when the section has no title. */
  function Label(sectionTitle: Option<string>, fieldTitle: string): string {
    if Truthy(sectionTitle) then sectionTitle.value + " " + fieldTitle else fieldTitle
  }

  /** The last title among the first `n` elements of a section: the field title
      in force at element `n - 1`, since untitled elements inherit it. */
  function TitleUpTo(elems: seq<Element>, n: nat): Option<string>
    requires n <= |elems|
    decreases n
  {
    if n == 0 then None
    else if elems[n - 1].title.Some? then elems[n - 1].title
    else TitleUpTo(elems, n - 1)
  }

  /** Element `j` of a section records an alias: it binds a non-empty name and a
      non-empty field title is in force. */
  predicate Contributes(elems: seq<Element>, j: int) {
    0 <= j < |elems| && Truthy(BindTarget(elems[j].bind)) && Truthy(TitleUpTo(elems, j + 1))
  }

  function TargetAt(elems: seq<Element>, j: int): string
    requires Contributes(elems, j)
  {
    BindTarget(elems[j].bind).value
  }

  function LabelAt(sectionTitle: Option<string>, elems: seq<Element>, j: int): string
    requires Contributes(elems, j)
  {
    Label(sectionTitle, TitleUpTo(elems, j + 1).value)
  }

  /** The inner loop over one section's elements, from element `i` on, with the
      field title `carried` over from earlier elements. */
  function ScanSection(sectionTitle: Option<string>, elems: seq<Element>, i: nat,
                       carried: Option<string>, acc: Bucket): (r: Bucket)
    requires acc.Valid()
    ensures r.Valid()
    decreases |elems| - i
  {
    if i >= |elems| then acc
    else
      var e := elems[i];
      var title := if e.title.Some? then e.title else carried;
      var target := BindTarget(e.bind);
      var acc' := if Truthy(target) && Truthy(title) then acc.Put(target.value, Label(sectionTitle, title.value)) else acc;
      ScanSection(sectionTitle, elems, i + 1, title, acc')
  }

  /** The loop over a dialog's sections, from section `k` on; each section
      starts without a field title. */
  function ScanSections(sections: seq<Section>, k: nat, acc: Bucket): (r: Bucket)
    requires acc.Valid()
    ensures r.Valid()
    decreases |sections| - k
  {
    if k >= |sections| then acc
    else ScanSections(sections, k + 1, ScanSection(sections[k].title, sections[k].elements, 0, None, acc))
  }

  /** One owner's bucket: empty without a dialog. */
  function OwnerAliases(o: Owner): (b: Bucket)
    ensures b.Valid()
  {
    if o.dialog.None? then Empty() else ScanSections(o.dialog.value.sections, 0, Empty())
  }

  /** One (key, bucket) entry per owner, in order. */
  function OwnerEntries(os: seq<Owner>): (es: seq<(string, Bucket)>)
    ensures |es| == |os| && forall i :: 0 <= i < |os| ==> es[i] == (OwnerKey(os[i]), OwnerAliases(os[i]))
  {
    seq(|os|, i requires 0 <= i < |os| => (OwnerKey(os[i]), OwnerAliases(os[i])))
  }

  lemma OwnerEntriesKeys(os: seq<Owner>)
    ensures forall o :: o in os ==> OwnerKey(o) in EntryKeys(OwnerEntries(os))
    ensures forall k :: k in EntryKeys(OwnerEntries(os)) ==> exists o :: o in os && OwnerKey(o) == k
  {
    var es := OwnerEntries(os);
    forall o | o in os ensures OwnerKey(o) in EntryKeys(es) {
      var i :| 0 <= i < |os| && os[i] == o;
      EntryKeysSpec(es, OwnerKey(o));
      assert es[i].0 == OwnerKey(o);
    }
    forall k | k in EntryKeys(es) ensures exists o :: o in os && OwnerKey(o) == k {
      EntryKeysSpec(es, k);
      var i :| 0 <= i < |es| && es[i].0 == k;
      assert os[i] in os;
    }
  }

  /** `get_aliases_from_protocol_v1`: a bucket per owner, keyed by its name or
      "mission"; an owner whose key repeats replaces the earlier bucket. */
  function ExtractAliases(p: Protocol): (r: AliasMap)
    ensures r.Valid()
    ensures forall o :: o in Owners(p) ==> OwnerKey(o) in r.values
    ensures forall k :: k in r.values ==> exists o :: o in Owners(p) && OwnerKey(o) == k
  {
    var os := Owners(p);
    var es := OwnerEntries(os);
    OwnerEntriesKeys(os);
    FromEntries(es)
  }

  /** Element `j` records an alias that no later element of the section
      overwrites. */
  predicate LastFor(elems: seq<Element>, j: int) {
    && Contributes(elems, j)
    && forall j' :: j < j' < |elems| && Contributes(elems, j') ==> TargetAt(elems, j') != TargetAt(elems, j)
  }

  /** Some element of the section, from element `i` on, records an alias for `f`. */
  predicate SomeContributes(elems: seq<Element>, i: int, f: string) {
    exists j :: i <= j < |elems| && Contributes(elems, j) && TargetAt(elems, j) == f
  }

  lemma SomeContributesStep(elems: seq<Element>, i: nat, f: string)
    requires i < |elems|
    ensures SomeContributes(elems, i, f) <==>
      (Contributes(elems, i) && TargetAt(elems, i) == f) || SomeContributes(elems, i + 1, f)
  {
    if SomeContributes(elems, i, f) && !(Contributes(elems, i) && TargetAt(elems, i) == f) {
      var j :| i <= j < |elems| && Contributes(elems, j) && TargetAt(elems, j) == f;
      assert j != i;
    }
  }

  /** The bucket after element `i` of a section has been visited. */
  function Record(st: Option<string>, elems: seq<Element>, i: int, acc: Bucket): (r: Bucket)
    requires acc.Valid() && 0 <= i < |elems|
    ensures r.Valid()
    ensures Contributes(elems, i) ==> r.Get(TargetAt(elems, i)) == Some(LabelAt(st, elems, i))
    ensures forall f :: !(Contributes(elems, i) && f == TargetAt(elems, i)) ==> r.Get(f) == acc.Get(f)
    ensures r.values.Keys == acc.values.Keys + (if Contributes(elems, i) then {TargetAt(elems, i)} else {})
  {
    if Contributes(elems, i) then acc.Put(TargetAt(elems, i), LabelAt(st, elems, i)) else acc
  }

  /** Visiting element `i` records it and carries its title on. */
  lemma ScanSectionStep(st: Option<string>, elems: seq<Element>, i: nat, carried: Option<string>, acc: Bucket)
    requires acc.Valid() && i < |elems| && carried == TitleUpTo(elems, i)
    ensures ScanSection(st, elems, i, carried, acc) ==
      ScanSection(st, elems, i + 1, TitleUpTo(elems, i + 1), Record(st, elems, i, acc))
  {
    var e := elems[i];
    var title := if e.title.Some? then e.title else carried;
    assert title == TitleUpTo(elems, i + 1);
    var target := BindTarget(e.bind);
    var contributes := Truthy(target) && Truthy(title);
    assert contributes == Contributes(elems, i);
    var acc' := if contributes then acc.Put(target.value, Label(st, title.value)) else acc;
    assert acc' == Record(st, elems, i, acc);
  }

  /** One section: a name gets an alias exactly when some element binds it
      under a non-empty field title, the element's own or one carried over from
      an earlier element. */
  lemma {:induction false} ScanSectionKey(st: Option<string>, elems: seq<Element>, i: nat,
                                          carried: Option<string>, acc: Bucket, f: string)
    requires acc.Valid() && i <= |elems| && carried == TitleUpTo(elems, i)
    ensures f in ScanSection(st, elems, i, carried, acc).values <==> f in acc.values || SomeContributes(elems, i, f)
    decreases |elems| - i
  {
    if i < |elems| {
      var acc' := Record(st, elems, i, acc);
      ScanSectionStep(st, elems, i, carried, acc);
      ScanSectionKey(st, elems, i + 1, TitleUpTo(elems, i + 1), acc', f);
      SomeContributesStep(elems, i, f);
    }
  }

  /** One section: every alias recorded is the label of an element that binds
      the name (or was already there). */
  lemma {:induction false} ScanSectionValue(st: Option<string>, elems: seq<Element>, i: nat,
                                            carried: Option<string>, acc: Bucket, f: string)
    requires acc.Valid() && i <= |elems| && carried == TitleUpTo(elems, i)
    requires f in ScanSection(st, elems, i, carried, acc).values
    ensures var r := ScanSection(st, elems, i, carried, acc);
      || (f in acc.values && r.values[f] == acc.values[f])
      || exists j :: i <= j < |elems| && Contributes(elems, j) && TargetAt(elems, j) == f && r.values[f] == LabelAt(st, elems, j)
    decreases |elems| - i
  {
    if i < |elems| {
      var acc' := Record(st, elems, i, acc);
      var r := ScanSection(st, elems, i, carried, acc);
      ScanSectionStep(st, elems, i, carried, acc);
      ScanSectionValue(st, elems, i + 1, TitleUpTo(elems, i + 1), acc', f);
      if f in acc'.values && r.values[f] == acc'.values[f] {
        assert acc'.Get(f) == Some(acc'.values[f]);
        if Contributes(elems, i) && f == TargetAt(elems, i) {
          assert r.values[f] == LabelAt(st, elems, i);
        } else {
          assert acc.Get(f) == Some(acc'.values[f]);
        }
      }
    }
  }

  /** One section: the label of the last element that binds a name is its alias. */
  lemma {:induction false} ScanSectionLast(st: Option<string>, elems: seq<Element>, i: nat,
                                           carried: Option<string>, acc: Bucket, j: int)
    requires acc.Valid() && i <= j < |elems| && carried == TitleUpTo(elems, i)
    requires LastFor(elems, j)
    ensures ScanSection(st, elems, i, carried, acc).Get(TargetAt(elems, j)) == Some(LabelAt(st, elems, j))
    decreases |elems| - i, 1
  {
    if i < j {
      ScanSectionLastBefore(st, elems, i, acc, j);
    } else {
      ScanSectionStep(st, elems, i, carried, acc);
      ScanSectionLastHere(st, elems, i, acc);
    }
  }

  /** Visiting an element before the last one that binds the name keeps the
      question open for the rest of the section. */
  lemma {:induction false} ScanSectionLastBefore(st: Option<string>, elems: seq<Element>, i: nat, acc: Bucket, j: int)
    requires acc.Valid() && i < j < |elems| && LastFor(elems, j)
    ensures ScanSection(st, elems, i, TitleUpTo(elems, i), acc).Get(TargetAt(elems, j)) == Some(LabelAt(st, elems, j))
    decreases |elems| - i, 0
  {
    var next := Record(st, elems, i, acc);
    ScanSectionStep(st, elems, i, TitleUpTo(elems, i), acc);
    ScanSectionLast(st, elems, i + 1, TitleUpTo(elems, i + 1), next, j);
  }

  /** The last element that binds a name records it, and nothing after it
      overwrites it. */
  lemma ScanSectionLastHere(st: Option<string>, elems: seq<Element>, j: nat, acc: Bucket)
    requires acc.Valid() && j < |elems| && LastFor(elems, j)
    ensures ScanSection(st, elems, j + 1, TitleUpTo(elems, j + 1), Record(st, elems, j, acc)).Get(TargetAt(elems, j))
      == Some(LabelAt(st, elems, j))
  {
    ScanSectionUntouchedAfter(st, elems, j + 1, Record(st, elems, j, acc), TargetAt(elems, j));
  }

  /** When no element from `i` on binds `f`, the section leaves `f` alone. */
  lemma {:induction false} ScanSectionUntouchedAfter(st: Option<string>, elems: seq<Element>, i: nat, acc: Bucket, f: string)
    requires acc.Valid() && 0 < i <= |elems|
    requires forall j' :: i <= j' < |elems| && Contributes(elems, j') ==> TargetAt(elems, j') != f
    ensures ScanSection(st, elems, i, TitleUpTo(elems, i), acc).Get(f) == acc.Get(f)
    decreases |elems| - i
  {
    if i < |elems| {
      ScanSectionStep(st, elems, i, TitleUpTo(elems, i), acc);
      ScanSectionUntouchedAfter(st, elems, i + 1, Record(st, elems, i, acc), f);
    }
  }

  /** Some section, from section `k` on, records an alias for `f`. */
  predicate SomeSectionContributes(sections: seq<Section>, k: int, f: string) {
    exists s :: 0 <= s < |sections| && k <= s && SomeContributes(sections[s].elements, 0, f)
  }

  lemma SomeSectionContributesStep(sections: seq<Section>, k: nat, f: string)
    requires k < |sections|
    ensures SomeSectionContributes(sections, k, f) <==>
      SomeContributes(sections[k].elements, 0, f) || SomeSectionContributes(sections, k + 1, f)
  {
    if SomeSectionContributes(sections, k, f) && !SomeContributes(sections[k].elements, 0, f) {
      var s :| 0 <= s < |sections| && k <= s && SomeContributes(sections[s].elements, 0, f);
      assert s != k;
    }
  }

  /** A dialog: a name gets an alias exactly when an element of some section
      binds it under a non-empty field title. */
  lemma {:induction false} ScanSectionsKey(sections: seq<Section>, k: nat, acc: Bucket, f: string)
    requires acc.Valid()
    ensures f in ScanSections(sections, k, acc).values <==> f in acc.values || SomeSectionContributes(sections, k, f)
    decreases |sections| - k
  {
    if k < |sections| {
      var acc' := ScanSection(sections[k].title, sections[k].elements, 0, None, acc);
      assert ScanSections(sections, k, acc) == ScanSections(sections, k + 1, acc');
      ScanSectionKey(sections[k].title, sections[k].elements, 0, None, acc, f);
      ScanSectionsKey(sections, k + 1, acc', f);
      SomeSectionContributesStep(sections, k, f);
    }
  }

  /** The alias `label` is the label of element `j` of section `s`, which binds `f`. */
  predicate LabelledBy(sections: seq<Section>, s: int, j: int, f: string, alias: string) {
    && 0 <= s < |sections|
    && Contributes(sections[s].elements, j)
    && TargetAt(sections[s].elements, j) == f
    && alias == LabelAt(sections[s].title, sections[s].elements, j)
  }

  /** A dialog: every alias is the label of an element that binds the name. */
  lemma {:induction false} ScanSectionsValue(sections: seq<Section>, k: nat, acc: Bucket, f: string)
    requires acc.Valid()
    requires f in ScanSections(sections, k, acc).values
    ensures var r := ScanSections(sections, k, acc);
      || (f in acc.values && r.values[f] == acc.values[f])
      || exists s, j :: k <= s && LabelledBy(sections, s, j, f, r.values[f])
    decreases |sections| - k
  {
    if k < |sections| {
      var st := sections[k].title;
      var elems := sections[k].elements;
      var acc' := ScanSection(st, elems, 0, None, acc);
      var r := ScanSections(sections, k, acc);
      assert r == ScanSections(sections, k + 1, acc');
      ScanSectionsValue(sections, k + 1, acc', f);
      if f in acc'.values && r.values[f] == acc'.values[f] {
        ScanSectionValue(st, elems, 0, None, acc, f);
        if !(f in acc.values && acc'.values[f] == acc.values[f]) {
          var j :| 0 <= j < |elems| && Contributes(elems, j) && TargetAt(elems, j) == f && acc'.values[f] == LabelAt(st, elems, j);
          assert LabelledBy(sections, k, j, f, r.values[f]);
        }
      }
    }
  }

  /** No element of the dialog, from section `k` on, records an alias for `f`,
      so `f` keeps what it had. */
  lemma ScanSectionsUntouched(sections: seq<Section>, k: nat, acc: Bucket, f: string)
    requires acc.Valid() && !SomeSectionContributes(sections, k, f)
    ensures ScanSections(sections, k, acc).Get(f) == acc.Get(f)
  {
    var r := ScanSections(sections, k, acc);
    ScanSectionsKey(sections, k, acc, f);
    if f in r.values {
      ScanSectionsValue(sections, k, acc, f);
    }
  }

  /** Element `j` of section `s` is the last element of the dialog that binds
      its target under a non-empty title. */
  predicate LastInDialog(sections: seq<Section>, s: int, j: int) {
    && 0 <= s < |sections|
    && LastFor(sections[s].elements, j)
    && !SomeSectionContributes(sections, s + 1, TargetAt(sections[s].elements, j))
  }

  /** A dialog: later binds overwrite earlier ones, so the last element that
      binds a name gives its alias. */
  lemma {:induction false} ScanSectionsLast(sections: seq<Section>, k: nat, acc: Bucket, s: int, j: int)
    requires acc.Valid() && k <= s && LastInDialog(sections, s, j)
    ensures var elems := sections[s].elements;
      ScanSections(sections, k, acc).Get(TargetAt(elems, j)) == Some(LabelAt(sections[s].title, elems, j))
    decreases |sections| - k
  {
    var acc' := ScanSection(sections[k].title, sections[k].elements, 0, None, acc);
    assert ScanSections(sections, k, acc) == ScanSections(sections, k + 1, acc');
    if k < s {
      ScanSectionsLast(sections, k + 1, acc', s, j);
    } else {
      ScanSectionLast(sections[s].title, sections[s].elements, 0, None, acc, j);
      ScanSectionsUntouched(sections, k + 1, acc', TargetAt(sections[s].elements, j));
    }
  }

  /** An owner's bucket has an entry for `f` exactly when the owner has a dialog
      in which some element binds `f` under a non-empty field title, and the
      entry is the label of such an element. */
  lemma OwnerAliasesSpec(o: Owner, f: string)
    ensures f in OwnerAliases(o).values <==> o.dialog.Some? && SomeSectionContributes(o.dialog.value.sections, 0, f)
    ensures f in OwnerAliases(o).values ==>
      exists s, j :: LabelledBy(o.dialog.value.sections, s, j, f, OwnerAliases(o).values[f])
  {
    if o.dialog.Some? {
      var empty: Bucket := Empty();
      ScanSectionsKey(o.dialog.value.sections, 0, empty, f);
      if f in OwnerAliases(o).values {
        ScanSectionsValue(o.dialog.value.sections, 0, empty, f);
      }
    }
  }

  /** In an owner's bucket, the last element of the dialog that binds a name
      gives its alias. */
  lemma OwnerAliasesLast(o: Owner, s: int, j: int)
    requires o.dialog.Some? && LastInDialog(o.dialog.value.sections, s, j)
    ensures var sections := o.dialog.value.sections;
      OwnerAliases(o).Get(TargetAt(sections[s].elements, j)) == Some(LabelAt(sections[s].title, sections[s].elements, j))
  {
    ScanSectionsLast(o.dialog.value.sections, 0, Empty(), s, j);
  }

  /** The bucket stored under an owner's key is that owner's own bucket, unless
      a later owner has the same key. */
  lemma ExtractAliasesBucket(p: Protocol, i: int)
    requires 0 <= i < |Owners(p)|
    requires forall i' :: i < i' < |Owners(p)| ==> OwnerKey(Owners(p)[i']) != OwnerKey(Owners(p)[i])
    ensures ExtractAliases(p).Get(OwnerKey(Owners(p)[i])) == Some(OwnerAliases(Owners(p)[i]))
  {
    var os := Owners(p);
    var es := OwnerEntries(os);
    LastWriterWins(es, i);
  }

  /** A one-element dialog whose element has title `t` and bind
      `<verb>:<name>` gives `name` the label built from the section title and `t`. */
  lemma SingleElementAlias(st: Option<string>, t: string, verb: string, name: string)
    requires ':' !in verb && ':' !in name && t != "" && name != ""
    ensures var e := Element(None, Some(t), Some(Text(verb + ":" + name)), None);
      OwnerAliases(Owner(None, None, Some(Dialog([Section(st, [e])])))).Get(name) == Some(Label(st, t))
  {
    var e := Element(None, Some(t), Some(Text(verb + ":" + name)), None);
    var o := Owner(None, None, Some(Dialog([Section(st, [e])])));
    BindTargetOfVerb(verb, name);
    var sections := o.dialog.value.sections;
    assert TitleUpTo(sections[0].elements, 1) == Some(t);
    assert Contributes(sections[0].elements, 0);
    assert LastInDialog(sections, 0, 0);
    OwnerAliasesLast(o, 0, 0);
  }

  /** A section titled "Weather" whose element titled "Wind Speed" is bound to
      `value:wind_speed` gives `wind_speed` the alias "Weather Wind Speed";
      without a section title the alias is "Wind Speed". */
  lemma WeatherLabel(weather: string, windSpeed: string)
    requires weather == "Weather" && windSpeed == "Wind Speed"
    ensures Label(Some(weather), windSpeed) == "Weather Wind Speed"
  {
    assert weather + " " + windSpeed == "Weather Wind Speed";
  }

  lemma WeatherExample(weather: string, windSpeed: string, verb: string, name: string)
    requires weather == "Weather" && windSpeed == "Wind Speed" && verb == "value" && name == "wind_speed"
    ensures var e := Element(None, Some(windSpeed), Some(Text(verb + ":" + name)), None);
      && OwnerAliases(Owner(None, None, Some(Dialog([Section(Some(weather), [e])])))).Get(name)
         == Some("Weather Wind Speed")
      && OwnerAliases(Owner(None, None, Some(Dialog([Section(None, [e])])))).Get(name)
         == Some("Wind Speed")
  {
    SingleElementAlias(Some(weather), windSpeed, verb, name);
    SingleElementAlias(None, windSpeed, verb, name);
    WeatherLabel(weather, windSpeed);
  }
}
