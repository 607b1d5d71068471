/** String-keyed dictionaries that remember insertion order, as Python's `dict`
    does: assigning to a key that is present replaces its value in place, and a
    new key goes to the end. Iteration order is the order of `keys`. */
module Dicts {
  import opened Wrappers

  datatype Dict<V> = Dict(keys: seq<string>, values: map<string, V>) {

    /** Each key is listed once, and exactly the listed keys have values. */
    ghost predicate Valid() {
      && (forall i, j :: 0 <= i < j < |keys| ==> keys[i] != keys[j])
      && (forall k :: k in values <==> k in keys)
    }

    /** `d[k]`, or None where Python raises KeyError. */
    function Get(k: string): Option<V> {
      if k in values then Some(values[k]) else None
    }

    /** `d[k] = v`: the new value is visible under `k`, every other key keeps
        its value, and the iteration order changes only by appending a new key. */
    function Put(k: string, v: V): (r: Dict<V>)
      requires Valid()
      ensures r.Valid()
      ensures r.Get(k) == Some(v)
      ensures forall k' :: k' != k ==> r.Get(k') == Get(k')
      ensures r.keys == if k in values then keys else keys + [k]
    {
      if k in values then Dict(keys, values[k := v])
      else Dict(keys + [k], values[k := v])
    }
  }

  /** `{}` */
  function Empty<V>(): (d: Dict<V>)
    ensures d.Valid() && d.keys == []
  {
    Dict([], map[])
  }

  /** The keys mentioned by a list of entries. */
  ghost function EntryKeys<V>(es: seq<(string, V)>): set<string>
    decreases |es|
  {
    if es == [] then {} else EntryKeys(es[..|es| - 1]) + {es[|es| - 1].0}
  }

  lemma {:induction false} EntryKeysSpec<V>(es: seq<(string, V)>, k: string)
    ensures k in EntryKeys(es) <==> exists i :: 0 <= i < |es| && es[i].0 == k
    decreases |es|
  {
    if es != [] {
      var init := es[..|es| - 1];
      EntryKeysSpec(init, k);
      if k in EntryKeys(init) {
        var i :| 0 <= i < |init| && init[i].0 == k;
        assert es[i] == init[i];
      }
      if exists i :: 0 <= i < |es| && es[i].0 == k {
        var i :| 0 <= i < |es| && es[i].0 == k;
        if i < |init| {
          assert init[i] == es[i];
        }
      }
    }
  }

  /** The dictionary the Python loop `for k, v in es: d[k] = v` builds from `{}`. */
  function FromEntries<V>(es: seq<(string, V)>): (d: Dict<V>)
    ensures d.Valid()
    ensures d.values.Keys == EntryKeys(es)
    decreases |es|
  {
    if es == [] then Empty()
    else
      var init := es[..|es| - 1];
      var last := es[|es| - 1];
      FromEntries(init).Put(last.0, last.1)
  }

  /** Later entries overwrite earlier ones: a key's value is the value of its
      last entry. */
  lemma {:induction false} LastWriterWins<V>(es: seq<(string, V)>, i: int)
    requires 0 <= i < |es|
    requires forall j :: i < j < |es| ==> es[j].0 != es[i].0
    ensures FromEntries(es).Get(es[i].0) == Some(es[i].1)
    decreases |es|
  {
    if i < |es| - 1 {
      var init := es[..|es| - 1];
      assert init[i] == es[i];
      LastWriterWins(init, i);
    }
  }
}
