/**
 * A plain JavaScript object used as a dictionary from strings to values:
 * the own data properties in the order the object records them, as built by
 * `Object.fromEntries` and read back by `Object.entries`.
 */
module JsObject {
  import opened Strings

  /**
   * `keys` is the order in which properties were first created; `props`
   * holds their current values.
   */
  datatype Obj<V> = Obj(keys: seq<string>, props: map<string, V>)

  /** No key is recorded twice, and the recorded keys are exactly the properties. */
  predicate Valid<V>(o: Obj<V>) {
    && (forall i, j :: 0 <= i < j < |o.keys| ==> o.keys[i] != o.keys[j])
    && (forall k :: k in o.props ==> k in o.keys)
    && (forall k :: k in o.keys ==> k in o.props)
  }

  /** `{}` */
  function Empty<V>(): (r: Obj<V>)
    ensures Valid(r) && r.keys == [] && r.props == map[]
  {
    Obj([], map[])
  }

  /**
   * CreateDataProperty on an extensible ordinary object: the value is
   * replaced, and a key already present keeps its original position.
   */
  function Define<V>(o: Obj<V>, k: string, v: V): (r: Obj<V>)
    ensures k in r.props && r.props[k] == v
    ensures o.keys <= r.keys && |r.keys| <= |o.keys| + 1
  {
    if k in o.props then Obj(o.keys, o.props[k := v])
    else Obj(o.keys + [k], o.props[k := v])
  }

  /** Defining a property keeps the object well formed and changes no other property. */
  lemma DefineValid<V>(o: Obj<V>, k: string, v: V)
    requires Valid(o)
    ensures Valid(Define(o, k, v))
    ensures k in Define(o, k, v).props && Define(o, k, v).props[k] == v
    ensures forall k' :: k' != k ==> (k' in Define(o, k, v).props <==> k' in o.props)
    ensures forall k' :: k' != k && k' in o.props ==> Define(o, k, v).props[k'] == o.props[k']
    ensures o.keys <= Define(o, k, v).keys
  {
  }

  /** `Object.fromEntries(es)`: the entries are defined one after another, left to right. */
  function FromEntries<V>(es: seq<(string, V)>): (r: Obj<V>)
    ensures |r.keys| <= |es|
    ensures es != [] ==> es[|es| - 1].0 in r.props && r.props[es[|es| - 1].0] == es[|es| - 1].1
  {
    if es == [] then Empty()
    else Define(FromEntries(es[..|es| - 1]), es[|es| - 1].0, es[|es| - 1].1)
  }

  /** The keys of the entries. */
  function KeysOf<V>(es: seq<(string, V)>): (r: seq<string>)
    ensures |r| == |es| && forall i :: 0 <= i < |es| ==> r[i] == es[i].0
  {
    seq(|es|, i requires 0 <= i < |es| => es[i].0)
  }

  /** Position of the first entry with key `k`. */
  function FirstIndex(ks: seq<string>, k: string): (i: nat)
    requires k in ks
    ensures i < |ks| && ks[i] == k && forall j :: 0 <= j < i ==> ks[j] != k
  {
    if ks[0] == k then 0 else 1 + FirstIndex(ks[1..], k)
  }

  /** Position of the last entry with key `k`. */
  function LastIndex(ks: seq<string>, k: string): (i: nat)
    requires k in ks
    ensures i < |ks| && ks[i] == k && forall j :: i < j < |ks| ==> ks[j] != k
  {
    if ks[|ks| - 1] == k then |ks| - 1 else LastIndex(ks[..|ks| - 1], k)
  }

  /** In a list without repetitions each key's last position is its only one. */
  lemma LastIndexDistinct(ks: seq<string>, i: nat)
    requires i < |ks| && forall a, b :: 0 <= a < b < |ks| ==> ks[a] != ks[b]
    ensures LastIndex(ks, ks[i]) == i
  {
    var j := LastIndex(ks, ks[i]);
    assert !(i < j) && !(j < i);
  }

  /** `Object.fromEntries` builds a well-formed object whose properties are the keys of the entries. */
  lemma {:induction false} FromEntriesKeys<V>(es: seq<(string, V)>)
    ensures Valid(FromEntries(es))
    ensures forall k :: k in FromEntries(es).props <==> k in KeysOf(es)
  {
    if es != [] {
      var init := es[..|es| - 1];
      FromEntriesKeys(init);
      assert FromEntries(es) == Define(FromEntries(init), es[|es| - 1].0, es[|es| - 1].1);
      DefineValid(FromEntries(init), es[|es| - 1].0, es[|es| - 1].1);
      KeysOfInit(es);
    }
  }

  /** A later entry with the same key overwrites an earlier one: each property holds its LAST entry's value. */
  lemma {:induction false} FromEntriesValues<V>(es: seq<(string, V)>)
    ensures forall k :: k in KeysOf(es) ==>
      k in FromEntries(es).props && FromEntries(es).props[k] == es[LastIndex(KeysOf(es), k)].1
  {
    if es != [] {
      FromEntriesValues(es[..|es| - 1]);
      KeysOfInit(es);
      forall k | k in KeysOf(es)
        ensures k in FromEntries(es).props && FromEntries(es).props[k] == es[LastIndex(KeysOf(es), k)].1
      {
        FromEntriesValueAt(es, k);
      }
    }
  }

  /** The keys of all entries but the last, then the last key. */
  lemma KeysOfInit<V>(es: seq<(string, V)>)
    requires es != []
    ensures KeysOf(es) == KeysOf(es[..|es| - 1]) + [es[|es| - 1].0]
  {
    assert forall i :: 0 <= i < |es| ==> KeysOf(es)[i] == (KeysOf(es[..|es| - 1]) + [es[|es| - 1].0])[i];
  }

  /** One step of `FromEntriesValues`: defining the last entry keeps every earlier last value. */
  lemma FromEntriesValueAt<V>(es: seq<(string, V)>, k: string)
    requires es != [] && k in KeysOf(es)
    requires KeysOf(es) == KeysOf(es[..|es| - 1]) + [es[|es| - 1].0]
    requires k != es[|es| - 1].0 ==>
      k in FromEntries(es[..|es| - 1]).props
      && FromEntries(es[..|es| - 1]).props[k] == es[..|es| - 1][LastIndex(KeysOf(es[..|es| - 1]), k)].1
    ensures k in FromEntries(es).props && FromEntries(es).props[k] == es[LastIndex(KeysOf(es), k)].1
  {
    var init := es[..|es| - 1];
    var last := es[|es| - 1];
    var o := FromEntries(init);
    assert FromEntries(es) == Define(o, last.0, last.1);
    if k != last.0 {
      assert k in KeysOf(init);
      assert LastIndex(KeysOf(es), k) == LastIndex(KeysOf(init), k);
    }
  }

  /** `keys` lists keys of `ks` in the order of their first positions in `ks`. */
  predicate FirstOrdered(ks: seq<string>, keys: seq<string>) {
    && (forall k :: k in keys ==> k in ks)
    && (forall a, b :: 0 <= a < b < |keys| ==> FirstIndex(ks, keys[a]) < FirstIndex(ks, keys[b]))
  }

  /** Properties are recorded in the order of their FIRST entries. */
  lemma {:induction false} FromEntriesOrder<V>(es: seq<(string, V)>)
    ensures FirstOrdered(KeysOf(es), FromEntries(es).keys)
  {
    if es != [] {
      var init := es[..|es| - 1];
      var last := es[|es| - 1];
      FromEntriesOrder(init);
      FromEntriesKeys(init);
      KeysOfInit(es);
      assert FromEntries(es) == Define(FromEntries(init), last.0, last.1);
      DefineOrder(FromEntries(init), KeysOf(init), last.0, last.1);
    }
  }

  /** Defining one more property keeps the keys in first-entry order. */
  lemma DefineOrder<V>(o: Obj<V>, ks0: seq<string>, x: string, v: V)
    requires Valid(o) && FirstOrdered(ks0, o.keys)
    requires forall k :: k in o.props <==> k in ks0
    ensures FirstOrdered(ks0 + [x], Define(o, x, v).keys)
  {
    FirstOrderAppend(ks0, x, o.keys);
    if x in o.keys {
      assert Define(o, x, v).keys == o.keys;
    } else {
      assert Define(o, x, v).keys == o.keys + [x];
      FirstOrderNewKey(ks0, x, o.keys);
    }
  }

  /** Appending a key keeps the first positions of the earlier keys. */
  lemma FirstIndexAppend(ks: seq<string>, x: string, k: string)
    requires k in ks
    ensures FirstIndex(ks + [x], k) == FirstIndex(ks, k)
  {
    var i := FirstIndex(ks, k);
    var r := ks + [x];
    assert r[i] == k;
    assert forall j :: 0 <= j < i ==> r[j] != k;
    FirstIndexUnique(r, k, i);
  }

  /** The first position is the only one with the key and none before it. */
  lemma FirstIndexUnique(ks: seq<string>, k: string, i: nat)
    requires i < |ks| && ks[i] == k && forall j :: 0 <= j < i ==> ks[j] != k
    ensures FirstIndex(ks, k) == i
  {
    var f := FirstIndex(ks, k);
    assert !(f < i);
    assert !(i < f);
  }

  /** Keys ordered by first position stay so when one more key is appended to the entries. */
  lemma FirstOrderAppend(ks0: seq<string>, x: string, keys0: seq<string>)
    requires forall k :: k in keys0 ==> k in ks0
    requires forall a, b :: 0 <= a < b < |keys0| ==> FirstIndex(ks0, keys0[a]) < FirstIndex(ks0, keys0[b])
    ensures forall a, b :: 0 <= a < b < |keys0| ==>
      FirstIndex(ks0 + [x], keys0[a]) < FirstIndex(ks0 + [x], keys0[b])
  {
    forall a, b | 0 <= a < b < |keys0|
      ensures FirstIndex(ks0 + [x], keys0[a]) < FirstIndex(ks0 + [x], keys0[b])
    {
      FirstIndexAppend(ks0, x, keys0[a]);
      FirstIndexAppend(ks0, x, keys0[b]);
    }
  }

  /** A key new to the entries comes after every key seen before it. */
  lemma FirstOrderNewKey(ks0: seq<string>, x: string, keys0: seq<string>)
    requires forall k :: k in keys0 ==> k in ks0
    requires x !in ks0
    requires forall a, b :: 0 <= a < b < |keys0| ==>
      FirstIndex(ks0 + [x], keys0[a]) < FirstIndex(ks0 + [x], keys0[b])
    ensures forall a, b :: 0 <= a < b < |keys0 + [x]| ==>
      FirstIndex(ks0 + [x], (keys0 + [x])[a]) < FirstIndex(ks0 + [x], (keys0 + [x])[b])
  {
    var ks := ks0 + [x];
    FirstIndexUnique(ks, x, |ks0|);
    forall a | 0 <= a < |keys0| ensures FirstIndex(ks, keys0[a]) < |ks0| {
      FirstIndexAppend(ks0, x, keys0[a]);
    }
  }

  /** With pairwise different keys, the object records them in entry order. */
  lemma {:induction false} FromEntriesDistinct<V>(es: seq<(string, V)>)
    requires forall i, j :: 0 <= i < j < |es| ==> es[i].0 != es[j].0
    ensures FromEntries(es).keys == KeysOf(es)
  {
    if es != [] {
      var init := es[..|es| - 1];
      FromEntriesDistinct(init);
      FromEntriesKeys(init);
      assert es[|es| - 1].0 !in KeysOf(init);
      assert KeysOf(es) == KeysOf(init) + [es[|es| - 1].0];
    }
  }

  // ---------------------------------------------------------------------
  // Property order (OrdinaryOwnPropertyKeys): array indices first, in
  // ascending numeric order, then the other string keys in creation order.
  // ---------------------------------------------------------------------

  /** The number a string of decimal digits denotes. */
  function DigitsValue(s: string): nat
  {
    if s == [] then 0
    else
      var c := s[|s| - 1];
      DigitsValue(s[..|s| - 1]) * 10 + (if IsDigit(c) then (c as int) - ('0' as int) else 0)
  }

  /** The largest array index, 2^32 - 2. */
  const MaxArrayIndex: nat := 0xFFFF_FFFE

  /**
   * A canonical numeric string (no sign, no leading zero unless it is "0")
   * whose value is at most 2^32 - 2.
   */
  predicate IsArrayIndex(k: string) {
    && k != []
    && (forall i :: 0 <= i < |k| ==> IsDigit(k[i]))
    && (k[0] == '0' ==> |k| == 1)
    && DigitsValue(k) <= MaxArrayIndex
  }

  /** Keys in ascending numeric order. */
  predicate AscendingIndices(ks: seq<string>) {
    forall i, j :: 0 <= i < j < |ks| ==> DigitsValue(ks[i]) <= DigitsValue(ks[j])
  }

  /** Insert `k` into keys already in ascending numeric order. */
  function InsertIndex(k: string, ks: seq<string>): (r: seq<string>)
    requires AscendingIndices(ks)
    ensures AscendingIndices(r)
    ensures multiset(r) == multiset(ks) + multiset{k}
  {
    if ks == [] then [k]
    else if DigitsValue(k) <= DigitsValue(ks[0]) then [k] + ks
    else
      var rest := InsertIndex(k, ks[1..]);
      assert ks == [ks[0]] + ks[1..];
      InsertIndexAbove(ks, rest, k);
      [ks[0]] + rest
  }

  /** The head of ascending keys bounds what is inserted behind it. */
  lemma InsertIndexAbove(ks: seq<string>, rest: seq<string>, k: string)
    requires ks != [] && AscendingIndices(ks) && AscendingIndices(rest)
    requires DigitsValue(ks[0]) < DigitsValue(k)
    requires multiset(rest) == multiset(ks[1..]) + multiset{k}
    ensures AscendingIndices([ks[0]] + rest)
  {
    forall j | 0 <= j < |rest| ensures DigitsValue(ks[0]) <= DigitsValue(rest[j]) {
      assert rest[j] in multiset(rest);
      if rest[j] != k {
        assert rest[j] in ks[1..];
      }
    }
  }

  /** Insertion sort of keys by numeric value. */
  function SortIndices(ks: seq<string>): (r: seq<string>)
    ensures AscendingIndices(r)
    ensures multiset(r) == multiset(ks)
  {
    if ks == [] then []
    else
      assert ks == ks[..|ks| - 1] + [ks[|ks| - 1]];
      InsertIndex(ks[|ks| - 1], SortIndices(ks[..|ks| - 1]))
  }

  /** The keys that satisfy (`want`) or fail the array-index test, in their order. */
  function FilterIndex(ks: seq<string>, want: bool): (r: seq<string>)
    ensures forall k :: k in r <==> k in ks && IsArrayIndex(k) == want
    ensures IsSubsequence(r, ks)
  {
    if ks == [] then []
    else
      var rest := FilterIndex(ks[1..], want);
      assert ks == [ks[0]] + ks[1..];
      if IsArrayIndex(ks[0]) == want then
        assert ([ks[0]] + rest)[1..] == rest;
        [ks[0]] + rest
      else rest
  }

  /** The order `Object.entries` reports the own keys of an ordinary object in. */
  function OwnKeys(ks: seq<string>): (r: seq<string>)
    ensures multiset(r) == multiset(ks)
  {
    FilterIndexSplit(ks);
    SortIndices(FilterIndex(ks, true)) + FilterIndex(ks, false)
  }

  /** `Object.entries(o)`: key-value pairs in own-key order. */
  function Entries<V>(o: Obj<V>): (r: seq<(string, V)>)
    requires Valid(o)
    ensures |r| == |OwnKeys(o.keys)|
    ensures forall i :: 0 <= i < |r| ==>
      r[i].0 == OwnKeys(o.keys)[i] && r[i].0 in o.props && r[i].1 == o.props[r[i].0]
  {
    var ks := OwnKeys(o.keys);
    OwnKeysMembers(o.keys);
    seq(|ks|, i requires 0 <= i < |ks| => (ks[i], o.props[ks[i]]))
  }

  /** Every reported key is a property. */
  lemma OwnKeysMembers(ks: seq<string>)
    ensures forall k :: k in OwnKeys(ks) <==> k in ks
  {
    var idx := FilterIndex(ks, true);
    assert forall k :: k in SortIndices(idx) <==> k in multiset(idx);
  }

  /** Filtering by a test and by its negation splits the keys without losing or duplicating one. */
  lemma {:induction false} FilterIndexSplit(ks: seq<string>)
    ensures multiset(FilterIndex(ks, true)) + multiset(FilterIndex(ks, false)) == multiset(ks)
  {
    if ks != [] {
      FilterIndexSplit(ks[1..]);
      assert ks == [ks[0]] + ks[1..];
    }
  }

  /**
   * What `Object.entries` order is: a permutation of the recorded keys in
   * which the array indices come first, ascending, and the other keys follow
   * in the order they were created.
   */
  lemma OwnKeysSpec(ks: seq<string>)
    ensures multiset(OwnKeys(ks)) == multiset(ks)
    ensures var n := |FilterIndex(ks, true)|;
      && n <= |OwnKeys(ks)|
      && (forall i :: 0 <= i < n ==> IsArrayIndex(OwnKeys(ks)[i]))
      && (forall i :: n <= i < |OwnKeys(ks)| ==> !IsArrayIndex(OwnKeys(ks)[i]))
      && AscendingIndices(OwnKeys(ks)[..n])
      && OwnKeys(ks)[n..] == FilterIndex(ks, false)
      && IsSubsequence(OwnKeys(ks)[n..], ks)
  {
    FilterIndexSplit(ks);
    var idx := FilterIndex(ks, true);
    var sorted := SortIndices(idx);
    var r := OwnKeys(ks);
    assert |sorted| == |idx| by {
      assert |multiset(sorted)| == |multiset(idx)|;
    }
    forall i | 0 <= i < |idx| ensures IsArrayIndex(r[i]) {
      assert r[i] == sorted[i] && sorted[i] in multiset(idx);
    }
    forall i | |idx| <= i < |r| ensures !IsArrayIndex(r[i]) {
      assert r[i] in FilterIndex(ks, false);
    }
    assert r[..|idx|] == sorted;
  }

  /** An object with no array-index key reports its keys in creation order. */
  lemma {:induction false} FilterIndexNone(ks: seq<string>)
    requires forall i :: 0 <= i < |ks| ==> !IsArrayIndex(ks[i])
    ensures FilterIndex(ks, true) == [] && FilterIndex(ks, false) == ks
  {
    if ks != [] {
      FilterIndexNone(ks[1..]);
      assert ks == [ks[0]] + ks[1..];
    }
  }

  /** Without array-index keys, own-key order is creation order. */
  lemma OwnKeysNoIndex(ks: seq<string>)
    requires forall i :: 0 <= i < |ks| ==> !IsArrayIndex(ks[i])
    ensures OwnKeys(ks) == ks
  {
    FilterIndexNone(ks);
  }
}
