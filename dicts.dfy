/**
 * A Python `dict` with string keys: a map together with the order in which
 * its keys were first inserted, which is the order a `for` loop visits them.
 */
module Dicts {
  import opened Wrappers

  /** No element occurs twice. */
  predicate NoDuplicates<T(==)>(xs: seq<T>)
  {
    forall i, j :: 0 <= i < j < |xs| ==> xs[i] != xs[j]
  }

  datatype Dict<V> = Dict(keys: seq<string>, values: map<string, V>)
  {
    /** Every key is listed once, and exactly the mapped keys are listed. */
    ghost predicate Valid()
    {
      NoDuplicates(keys) &&
      (forall k :: k in values <==> k in keys)
    }

    /**
     * `d[k] = v`: a new key goes to the end of the iteration order, an
     * existing key keeps its place and takes the new value.
     */
    function Put(k: string, v: V): (d: Dict<V>)
      ensures d.values == values[k := v]
      ensures k in values ==> d.keys == keys
      ensures k !in values ==> d.keys == keys + [k]
      ensures Valid() ==> d.Valid()
    {
      if k in values then Dict(keys, values[k := v]) else Dict(keys + [k], values[k := v])
    }
  }

  function EmptyDict<V>(): (d: Dict<V>)
    ensures d.Valid() && d.values == map[]
  {
    Dict([], map[])
  }

  /**
   * The dictionary a loop builds by visiting `xs` in order and, for each
   * element that yields an entry `(k, v)`, executing `d[k] = v`.
   */
  function Collect<T, V>(xs: seq<T>, entry: T -> Option<(string, V)>): (d: Dict<V>)
    ensures d.Valid()
  {
    if xs == [] then EmptyDict()
    else
      var d := Collect(xs[..|xs| - 1], entry);
      match entry(xs[|xs| - 1])
      case None => d
      case Some((k, v)) => d.Put(k, v)
  }

  /** Visiting one more element executes its `d[k] = v`, if it yields one. */
  lemma CollectStep<T, V>(xs: seq<T>, entry: T -> Option<(string, V)>, x: T)
    ensures Collect(xs + [x], entry) ==
      if entry(x).Some? then Collect(xs, entry).Put(entry(x).value.0, entry(x).value.1) else Collect(xs, entry)
  {
    assert (xs + [x])[..|xs|] == xs;
  }

  /** Visiting the `i`-th element after the first `i` executes its `d[k] = v`, if it yields one. */
  lemma CollectPrefix<T, V>(xs: seq<T>, entry: T -> Option<(string, V)>, i: nat)
    requires i < |xs|
    ensures Collect(xs[..i + 1], entry) ==
      if entry(xs[i]).Some? then Collect(xs[..i], entry).Put(entry(xs[i]).value.0, entry(xs[i]).value.1) else Collect(xs[..i], entry)
  {
    assert xs[..i + 1] == xs[..i] + [xs[i]];
    CollectStep(xs[..i], entry, xs[i]);
  }

  predicate Yields<T, V>(entry: T -> Option<(string, V)>, x: T, k: string)
  {
    entry(x).Some? && entry(x).value.0 == k
  }

  /** A key is in the collected dictionary exactly when some element yields it. */
  lemma {:induction false} CollectKeys<T, V>(xs: seq<T>, entry: T -> Option<(string, V)>, k: string)
    ensures k in Collect(xs, entry).values <==> exists i :: 0 <= i < |xs| && Yields(entry, xs[i], k)
  {
    if xs != [] {
      var init := xs[..|xs| - 1];
      CollectKeys(init, entry, k);
      if exists i :: 0 <= i < |init| && Yields(entry, init[i], k) {
        var i :| 0 <= i < |init| && Yields(entry, init[i], k);
        assert xs[i] == init[i];
      }
      if exists i :: 0 <= i < |xs| && Yields(entry, xs[i], k) {
        var i :| 0 <= i < |xs| && Yields(entry, xs[i], k);
        if i < |init| {
          assert init[i] == xs[i];
        }
      }
    }
  }

  /** A key keeps the value of the last element that yields it: later entries overwrite. */
  lemma {:induction false} CollectLastWins<T, V>(xs: seq<T>, entry: T -> Option<(string, V)>, i: nat)
    requires i < |xs| && entry(xs[i]).Some?
    requires forall j :: i < j < |xs| ==> !Yields(entry, xs[j], entry(xs[i]).value.0)
    ensures var (k, v) := entry(xs[i]).value;
      k in Collect(xs, entry).values && Collect(xs, entry).values[k] == v
  {
    var init := xs[..|xs| - 1];
    if i < |xs| - 1 {
      assert init[i] == xs[i];
      forall j | i < j < |init|
        ensures !Yields(entry, init[j], entry(init[i]).value.0)
      {
        assert init[j] == xs[j];
      }
      CollectLastWins(init, entry, i);
      assert !Yields(entry, xs[|xs| - 1], entry(xs[i]).value.0);
    }
  }
}
