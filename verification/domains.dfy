/** The domain extractor (`get_domains_from_protocol_v1`): the coded-value
    lists of short-integer attributes, recovered from the radio elements of the
    dialog that select them. */
module Domains {
  import opened Wrappers
  import opened Text
  import opened Dicts
  import opened Protocols

  /** The element type whose items become a coded-value domain. */
  const RadioElement := "QRadioElement"

  /** The bind verb that selects an attribute's value from a radio element. */
  const SelectedPrefix := "selected:"

  /** The short-integer attribute type that takes a coded-value domain. */
  const CodedType := 100

  /** Attribute name to the items of its radio element. */
  type DomainMap = Dict<seq<string>>

  type Entry = (string, seq<string>)

  /** The names of the short-integer attributes, in order. */
  function CodedNames(attrs: seq<Attribute>): (names: seq<string>)
    ensures forall n :: n in names <==> exists a :: a in attrs && a.typeCode == CodedType && a.name == n
    decreases |attrs|
  {
    if attrs == [] then []
    else
      assert forall a :: a in attrs <==> a == attrs[0] || a in attrs[1..];
      (if attrs[0].typeCode == CodedType then [attrs[0].name] else []) + CodedNames(attrs[1..])
  }

  /** `bind.replace("selected:", "").strip()`: every occurrence of the verb is
      removed, not only the prefix, and then the whitespace at both ends. */
  function DomainKey(bind: string): string {
    Strip(RemoveAll(bind, SelectedPrefix))
  }

  /** The usual bind `selected:<name>` keys the domain by `<name>`. */
  lemma DomainKeyOfSelected(name: string)
    requires !Occurs(name, SelectedPrefix)
    requires name == [] || (!IsSpace(name[0]) && !IsSpace(name[|name| - 1]))
    ensures DomainKey(SelectedPrefix + name) == name
  {
    var s := SelectedPrefix + name;
    assert s[|SelectedPrefix|..] == name;
    assert RemoveAll(s, SelectedPrefix) == name;
    assert TrimStart(name) == name;
    assert TrimEnd(name) == name;
  }

  /** `replace` removes every occurrence of the verb, so a doubled verb
      (`selected:selected:<name>`) still keys the domain by `<name>`. */
  lemma DomainKeyOfDoubledVerb(name: string)
    requires !Occurs(name, SelectedPrefix)
    requires name == [] || (!IsSpace(name[0]) && !IsSpace(name[|name| - 1]))
    ensures DomainKey(SelectedPrefix + SelectedPrefix + name) == name
  {
    var s := SelectedPrefix + SelectedPrefix + name;
    assert s[|SelectedPrefix|..] == SelectedPrefix + name;
    assert (SelectedPrefix + name)[|SelectedPrefix|..] == name;
    assert RemoveAll(s, SelectedPrefix) == name;
    assert TrimStart(name) == name;
    assert TrimEnd(name) == name;
  }

  /** Element `e` is a radio element bound with `selected:` to one of `names`. */
  predicate SelectsCoded(e: Element, names: seq<string>) {
    && e.kind == Some(RadioElement)
    && e.bind.Some? && e.bind.value.Text?
    && StartsWith(e.bind.value.text, SelectedPrefix)
    && DomainKey(e.bind.value.text) in names
  }

  /** One element of the inner loop: the domain entry it records, if any, or the
      exception it raises. A bound element without `type` raises KeyError; a
      radio element whose bind is not a string raises AttributeError; a
      selecting radio element without `items` raises KeyError. */
  function ElementEntry(e: Element, names: seq<string>): (r: Result<Option<Entry>, Error>)
    ensures (r.Success? && r.value.Some?) <==> SelectsCoded(e, names) && e.items.Some?
    ensures r.Success? && r.value.Some? ==> r.value.value == (DomainKey(e.bind.value.text), e.items.value)
    ensures r.Failure? ==> e.bind.Some?
    ensures r.Failure? <==> e.bind.Some? && (e.kind.None? || (e.kind == Some(RadioElement) && e.bind.value.NotText?) || (SelectsCoded(e, names) && e.items.None?))
  {
    match e.bind
    case None => Success(None)
    case Some(b) =>
      match e.kind
      case None => Failure(MissingKey("type"))
      case Some(kind) =>
        if kind != RadioElement then Success(None)
        else match b
          case NotText => Failure(NotAString("bind"))
          case Text(s) =>
            if !StartsWith(s, SelectedPrefix) then Success(None)
            else
              var key := DomainKey(s);
              if key !in names then Success(None)
              else match e.items
                case None => Failure(MissingKey("items"))
                case Some(items) => Success(Some((key, items)))
  }

  /** Element `e` records the entry `(k, v)`. */
  predicate Records(e: Element, names: seq<string>, k: string, v: seq<string>) {
    ElementEntry(e, names) == Success(Some((k, v)))
  }

  /** Element `e` records some entry under `k`. */
  predicate RecordsKey(e: Element, names: seq<string>, k: string) {
    var r := ElementEntry(e, names);
    r.Success? && r.value.Some? && r.value.value.0 == k
  }

  /** The inner loop from element `i` on: each recorded entry is assigned in turn. */
  function ScanElements(elems: seq<Element>, i: nat, names: seq<string>, acc: DomainMap): (r: Result<DomainMap, Error>)
    requires acc.Valid()
    ensures r.Success? ==> r.value.Valid()
    decreases |elems| - i
  {
    if i >= |elems| then Success(acc)
    else match ElementEntry(elems[i], names)
      case Failure(err) => Failure(err)
      case Success(None) => ScanElements(elems, i + 1, names, acc)
      case Success(Some(entry)) => ScanElements(elems, i + 1, names, acc.Put(entry.0, entry.1))
  }

  /** The elements of an owner that the extractor visits: all of its dialog's,
      but only when the owner has both `attributes` and a `dialog`. */
  function ScannedElements(o: Owner): seq<Element> {
    if o.attributes.Some? && o.dialog.Some? then AllElements(o.dialog.value.sections) else []
  }

  function CodedNamesOf(o: Owner): seq<string> {
    if o.attributes.Some? then CodedNames(o.attributes.value) else []
  }

  /** The loop over the owners (mission first, then features) from owner `k` on. */
  function ScanOwners(os: seq<Owner>, k: nat, acc: DomainMap): (r: Result<DomainMap, Error>)
    requires acc.Valid()
    ensures r.Success? ==> r.value.Valid()
    decreases |os| - k
  {
    if k >= |os| then Success(acc)
    else match ScanElements(ScannedElements(os[k]), 0, CodedNamesOf(os[k]), acc)
      case Failure(err) => Failure(err)
      case Success(acc') => ScanOwners(os, k + 1, acc')
  }

  /** `get_domains_from_protocol_v1`. */
  function ExtractDomains(p: Protocol): (r: Result<DomainMap, Error>)
    ensures r.Success? ==> r.value.Valid()
  {
    ScanOwners(Owners(p), 0, Empty())
  }

  // ---- The inner loop ------------------------------------------------------

  /** Some element from position `i` on records an entry under `k`. */
  predicate SomeRecords(elems: seq<Element>, i: int, names: seq<string>, k: string) {
    exists j :: 0 <= i <= j < |elems| && RecordsKey(elems[j], names, k)
  }

  /** No element from position `i` on raises. */
  predicate AllSucceed(elems: seq<Element>, i: int, names: seq<string>) {
    forall j :: 0 <= i <= j < |elems| ==> ElementEntry(elems[j], names).Success?
  }

  lemma SomeRecordsStep(elems: seq<Element>, i: nat, names: seq<string>, k: string)
    requires i < |elems|
    ensures SomeRecords(elems, i, names, k) <==> RecordsKey(elems[i], names, k) || SomeRecords(elems, i + 1, names, k)
  {
    if SomeRecords(elems, i, names, k) {
      var j :| 0 <= i <= j < |elems| && RecordsKey(elems[j], names, k);
      if j > i {
        assert 0 <= i + 1 <= j < |elems| && RecordsKey(elems[j], names, k);
      }
    }
    if RecordsKey(elems[i], names, k) {
      assert 0 <= i <= i < |elems| && RecordsKey(elems[i], names, k);
    }
    if SomeRecords(elems, i + 1, names, k) {
      var j :| 0 <= i + 1 <= j < |elems| && RecordsKey(elems[j], names, k);
      assert 0 <= i <= j < |elems| && RecordsKey(elems[j], names, k);
    }
  }

  /** The inner loop raises exactly when one of its elements does. */
  lemma {:induction false} ScanElementsSuccess(elems: seq<Element>, i: nat, names: seq<string>, acc: DomainMap)
    requires acc.Valid()
    ensures ScanElements(elems, i, names, acc).Success? <==> AllSucceed(elems, i, names)
    decreases |elems| - i
  {
    if i < |elems| {
      var r := ElementEntry(elems[i], names);
      if r.Success? {
        var acc' := if r.value.Some? then acc.Put(r.value.value.0, r.value.value.1) else acc;
        assert ScanElements(elems, i, names, acc) == ScanElements(elems, i + 1, names, acc');
        ScanElementsSuccess(elems, i + 1, names, acc');
        assert AllSucceed(elems, i, names) <==> AllSucceed(elems, i + 1, names);
      }
    }
  }

  /** A key is recorded by the inner loop when it was already there or some
      visited element records it. */
  lemma {:induction false} ScanElementsKey(elems: seq<Element>, i: nat, names: seq<string>, acc: DomainMap, k: string)
    requires acc.Valid() && ScanElements(elems, i, names, acc).Success?
    ensures k in ScanElements(elems, i, names, acc).value.values <==> k in acc.values || SomeRecords(elems, i, names, k)
    decreases |elems| - i
  {
    if i < |elems| {
      var r := ElementEntry(elems[i], names);
      var acc' := if r.value.Some? then acc.Put(r.value.value.0, r.value.value.1) else acc;
      assert ScanElements(elems, i, names, acc) == ScanElements(elems, i + 1, names, acc');
      ScanElementsKey(elems, i + 1, names, acc', k);
      SomeRecordsStep(elems, i, names, k);
      assert k in acc'.values <==> k in acc.values || RecordsKey(elems[i], names, k);
    }
  }

  /** Every value the inner loop holds was there before or was recorded, under
      that key, by a visited element. */
  lemma {:induction false} ScanElementsValue(elems: seq<Element>, i: nat, names: seq<string>, acc: DomainMap, k: string)
    requires acc.Valid() && ScanElements(elems, i, names, acc).Success?
    requires k in ScanElements(elems, i, names, acc).value.values
    ensures var v := ScanElements(elems, i, names, acc).value.values[k];
      || (k in acc.values && v == acc.values[k])
      || (exists j :: 0 <= i <= j < |elems| && Records(elems[j], names, k, v))
    decreases |elems| - i
  {
    if i < |elems| {
      var r := ElementEntry(elems[i], names);
      var acc' := if r.value.Some? then acc.Put(r.value.value.0, r.value.value.1) else acc;
      assert ScanElements(elems, i, names, acc) == ScanElements(elems, i + 1, names, acc');
      ScanElementsValue(elems, i + 1, names, acc', k);
      var v := ScanElements(elems, i, names, acc).value.values[k];
      if exists j :: 0 <= i + 1 <= j < |elems| && Records(elems[j], names, k, v) {
        var j :| 0 <= i + 1 <= j < |elems| && Records(elems[j], names, k, v);
        assert 0 <= i <= j < |elems| && Records(elems[j], names, k, v);
      } else if r.value.Some? && r.value.value.0 == k {
        assert Records(elems[i], names, k, v);
      }
    }
  }

  /** Elements that record nothing under `k` leave `k` alone. */
  lemma {:induction false} ScanElementsUntouched(elems: seq<Element>, i: nat, names: seq<string>, acc: DomainMap, k: string)
    requires acc.Valid() && ScanElements(elems, i, names, acc).Success?
    requires !SomeRecords(elems, i, names, k)
    ensures ScanElements(elems, i, names, acc).value.Get(k) == acc.Get(k)
    decreases |elems| - i
  {
    if i < |elems| {
      var r := ElementEntry(elems[i], names);
      var acc' := if r.value.Some? then acc.Put(r.value.value.0, r.value.value.1) else acc;
      assert ScanElements(elems, i, names, acc) == ScanElements(elems, i + 1, names, acc');
      SomeRecordsStep(elems, i, names, k);
      ScanElementsUntouched(elems, i + 1, names, acc', k);
    }
  }

  /** The last element recording under a key decides its value. */
  lemma {:induction false} ScanElementsLast(elems: seq<Element>, i: nat, names: seq<string>, acc: DomainMap,
                                            j: int, k: string, v: seq<string>)
    requires acc.Valid() && ScanElements(elems, i, names, acc).Success?
    requires i <= j < |elems| && Records(elems[j], names, k, v)
    requires !SomeRecords(elems, j + 1, names, k)
    ensures ScanElements(elems, i, names, acc).value.Get(k) == Some(v)
    decreases |elems| - i
  {
    var r := ElementEntry(elems[i], names);
    var acc' := if r.value.Some? then acc.Put(r.value.value.0, r.value.value.1) else acc;
    assert ScanElements(elems, i, names, acc) == ScanElements(elems, i + 1, names, acc');
    if i < j {
      ScanElementsLast(elems, i + 1, names, acc', j, k, v);
    } else {
      assert acc'.Get(k) == Some(v);
      ScanElementsUntouched(elems, i + 1, names, acc', k);
    }
  }

  // ---- The loop over owners ------------------------------------------------

  /** Some visited element of owner `o` records entry `(k, v)`: a radio element
      of `o`'s dialog selecting `k`, a short-integer attribute of `o`, with
      items `v`. */
  predicate OwnerRecords(o: Owner, k: string, v: seq<string>) {
    exists j :: 0 <= j < |ScannedElements(o)| && Records(ScannedElements(o)[j], CodedNamesOf(o), k, v)
  }

  predicate OwnerRecordsKey(o: Owner, k: string) {
    SomeRecords(ScannedElements(o), 0, CodedNamesOf(o), k)
  }

  predicate OwnerSucceeds(o: Owner) {
    AllSucceed(ScannedElements(o), 0, CodedNamesOf(o))
  }

  /** Some owner from position `n` on records an entry under `k`. */
  predicate SomeOwnerRecords(os: seq<Owner>, n: int, k: string) {
    exists m :: 0 <= n <= m < |os| && OwnerRecordsKey(os[m], k)
  }

  lemma SomeOwnerRecordsStep(os: seq<Owner>, n: nat, k: string)
    requires n < |os|
    ensures SomeOwnerRecords(os, n, k) <==> OwnerRecordsKey(os[n], k) || SomeOwnerRecords(os, n + 1, k)
  {
    if SomeOwnerRecords(os, n, k) {
      var m :| 0 <= n <= m < |os| && OwnerRecordsKey(os[m], k);
      if m > n {
        assert 0 <= n + 1 <= m < |os| && OwnerRecordsKey(os[m], k);
      }
    }
    if OwnerRecordsKey(os[n], k) {
      assert 0 <= n <= n < |os| && OwnerRecordsKey(os[n], k);
    }
    if SomeOwnerRecords(os, n + 1, k) {
      var m :| 0 <= n + 1 <= m < |os| && OwnerRecordsKey(os[m], k);
      assert 0 <= n <= m < |os| && OwnerRecordsKey(os[m], k);
    }
  }

  lemma {:induction false} ScanOwnersSuccess(os: seq<Owner>, n: nat, acc: DomainMap)
    requires acc.Valid()
    ensures ScanOwners(os, n, acc).Success? <==> forall m :: n <= m < |os| ==> OwnerSucceeds(os[m])
    decreases |os| - n
  {
    if n < |os| {
      var r := ScanElements(ScannedElements(os[n]), 0, CodedNamesOf(os[n]), acc);
      ScanElementsSuccess(ScannedElements(os[n]), 0, CodedNamesOf(os[n]), acc);
      if r.Success? {
        ScanOwnersSuccess(os, n + 1, r.value);
      }
    }
  }

  lemma {:induction false} ScanOwnersKey(os: seq<Owner>, n: nat, acc: DomainMap, k: string)
    requires acc.Valid() && ScanOwners(os, n, acc).Success?
    ensures k in ScanOwners(os, n, acc).value.values <==> k in acc.values || SomeOwnerRecords(os, n, k)
    decreases |os| - n
  {
    if n < |os| {
      var r := ScanElements(ScannedElements(os[n]), 0, CodedNamesOf(os[n]), acc);
      ScanElementsKey(ScannedElements(os[n]), 0, CodedNamesOf(os[n]), acc, k);
      ScanOwnersKey(os, n + 1, r.value, k);
      SomeOwnerRecordsStep(os, n, k);
    }
  }

  lemma {:induction false} ScanOwnersValue(os: seq<Owner>, n: nat, acc: DomainMap, k: string)
    requires acc.Valid() && ScanOwners(os, n, acc).Success?
    requires k in ScanOwners(os, n, acc).value.values
    ensures var v := ScanOwners(os, n, acc).value.values[k];
      || (k in acc.values && v == acc.values[k])
      || (exists m :: 0 <= n <= m < |os| && OwnerRecords(os[m], k, v))
    decreases |os| - n
  {
    if n < |os| {
      var elems := ScannedElements(os[n]);
      var names := CodedNamesOf(os[n]);
      var r := ScanElements(elems, 0, names, acc);
      ScanOwnersValue(os, n + 1, r.value, k);
      var v := ScanOwners(os, n, acc).value.values[k];
      if exists m :: 0 <= n + 1 <= m < |os| && OwnerRecords(os[m], k, v) {
        var m :| 0 <= n + 1 <= m < |os| && OwnerRecords(os[m], k, v);
        assert 0 <= n <= m < |os| && OwnerRecords(os[m], k, v);
      } else {
        assert k in r.value.values && v == r.value.values[k];
        ScanElementsValue(elems, 0, names, acc, k);
        if exists j :: 0 <= 0 <= j < |elems| && Records(elems[j], names, k, v) {
          var j :| 0 <= 0 <= j < |elems| && Records(elems[j], names, k, v);
          assert OwnerRecords(os[n], k, v);
        }
      }
    }
  }

  lemma {:induction false} ScanOwnersUntouched(os: seq<Owner>, n: nat, acc: DomainMap, k: string)
    requires acc.Valid() && ScanOwners(os, n, acc).Success?
    requires !SomeOwnerRecords(os, n, k)
    ensures ScanOwners(os, n, acc).value.Get(k) == acc.Get(k)
    decreases |os| - n
  {
    if n < |os| {
      var r := ScanElements(ScannedElements(os[n]), 0, CodedNamesOf(os[n]), acc);
      SomeOwnerRecordsStep(os, n, k);
      ScanElementsUntouched(ScannedElements(os[n]), 0, CodedNamesOf(os[n]), acc, k);
      ScanOwnersUntouched(os, n + 1, r.value, k);
    }
  }

  lemma {:induction false} ScanOwnersLast(os: seq<Owner>, n: nat, acc: DomainMap,
                                          m: int, j: int, k: string, v: seq<string>)
    requires acc.Valid() && ScanOwners(os, n, acc).Success?
    requires n <= m < |os|
    requires 0 <= j < |ScannedElements(os[m])| && Records(ScannedElements(os[m])[j], CodedNamesOf(os[m]), k, v)
    requires !SomeRecords(ScannedElements(os[m]), j + 1, CodedNamesOf(os[m]), k)
    requires !SomeOwnerRecords(os, m + 1, k)
    ensures ScanOwners(os, n, acc).value.Get(k) == Some(v)
    decreases |os| - n
  {
    var r := ScanElements(ScannedElements(os[n]), 0, CodedNamesOf(os[n]), acc);
    if n < m {
      ScanOwnersLast(os, n + 1, r.value, m, j, k, v);
    } else {
      ScanElementsLast(ScannedElements(os[m]), 0, CodedNamesOf(os[m]), acc, j, k, v);
      ScanOwnersUntouched(os, n + 1, r.value, k);
    }
  }

  // ---- The extractor -------------------------------------------------------

  /** The extractor raises exactly when some visited element raises. */
  lemma ExtractDomainsSuccess(p: Protocol)
    ensures ExtractDomains(p).Success? <==> forall m :: 0 <= m < |Owners(p)| ==> OwnerSucceeds(Owners(p)[m])
  {
    ScanOwnersSuccess(Owners(p), 0, Empty());
  }

  /** Only selected short-integer attributes get a domain: every domain is the
      item list of a radio element, in the dialog of an owner that has both
      attributes and a dialog, bound with `selected:` to a type-100 attribute
      of that same owner. */
  lemma ExtractDomainsSound(p: Protocol, k: string)
    requires ExtractDomains(p).Success? && k in ExtractDomains(p).value.values
    ensures exists m :: 0 <= m < |Owners(p)| && OwnerRecords(Owners(p)[m], k, ExtractDomains(p).value.values[k])
  {
    ScanOwnersValue(Owners(p), 0, Empty(), k);
  }

  /** Every selecting radio element leaves a domain behind. */
  lemma ExtractDomainsComplete(p: Protocol, m: int, k: string)
    requires ExtractDomains(p).Success?
    requires 0 <= m < |Owners(p)| && OwnerRecordsKey(Owners(p)[m], k)
    ensures k in ExtractDomains(p).value.values
  {
    ScanOwnersKey(Owners(p), 0, Empty(), k);
  }

  /** When several elements select the same attribute name, the last one in
      document order (mission first, then the features) decides the items. */
  lemma ExtractDomainsLast(p: Protocol, m: int, j: int, k: string, v: seq<string>)
    requires ExtractDomains(p).Success?
    requires var os := Owners(p);
      && 0 <= m < |os|
      && 0 <= j < |ScannedElements(os[m])| && Records(ScannedElements(os[m])[j], CodedNamesOf(os[m]), k, v)
      && !SomeRecords(ScannedElements(os[m]), j + 1, CodedNamesOf(os[m]), k)
      && !SomeOwnerRecords(os, m + 1, k)
    ensures ExtractDomains(p).value.Get(k) == Some(v)
  {
    ScanOwnersLast(Owners(p), 0, Empty(), m, j, k, v);
  }
}
