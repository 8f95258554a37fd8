/**
 * Plain JavaScript objects used as dictionaries: a sequence of (key, value)
 * pairs in the order the keys were first added, which is the order
 * `for...in`, `Object.keys` and `Object.entries` visit them. Assigning to an
 * existing key keeps its place; assigning to a new key appends it. A real
 * object never holds a key twice (predicate Distinct).
 */
module Objects {
  import opened Js

  type Dict<V> = seq<(string, V)>

  function KeySet<V>(d: Dict<V>): set<string>
    decreases |d|
  {
    if d == [] then {} else {d[0].0} + KeySet(d[1..])
  }

  /** Object.keys(d) */
  function Keys<V>(d: Dict<V>): (r: seq<string>)
    ensures |r| == |d|
    ensures forall i :: 0 <= i < |d| ==> r[i] == d[i].0
  {
    seq(|d|, i requires 0 <= i < |d| => d[i].0)
  }

  predicate Distinct<V>(d: Dict<V>)
    decreases |d|
  {
    d == [] || (d[0].0 !in KeySet(d[1..]) && Distinct(d[1..]))
  }

  /** d[k], None when the key is absent. */
  function Get<V>(d: Dict<V>, k: string): Option<V>
    decreases |d|
  {
    if d == [] then None else if d[0].0 == k then Some(d[0].1) else Get(d[1..], k)
  }

  /** d[k] as a JavaScript expression: undefined when the key is absent. */
  function Lookup(d: Dict<Value>, k: string): Value {
    match Get(d, k)
    case None => Undefined
    case Some(v) => v
  }

  /** v[key] for any value: an object's own property; an array's element at
      a canonical decimal index; undefined for everything else (the
      characters of a string and the properties every value inherits are
      not modelled). */
  function Member(v: Value, key: string): Value {
    if v.Obj? then Lookup(v.entries, key)
    else if v.Arr? && ParseDecimal(key).Some? && 0 <= ParseDecimal(key).value < |v.items| then
      v.items[ParseDecimal(key).value]
    else Undefined
  }

  /** d[k] = v */
  function Put<V>(d: Dict<V>, k: string, v: V): Dict<V>
    decreases |d|
  {
    if d == [] then [(k, v)]
    else if d[0].0 == k then [(k, v)] + d[1..]
    else [d[0]] + Put(d[1..], k, v)
  }

  /** { ...a, ...b } */
  function Spread<V>(a: Dict<V>, b: Dict<V>): Dict<V>
    decreases |b|
  {
    if b == [] then a else Spread(Put(a, b[0].0, b[0].1), b[1..])
  }

  /** omit(d, ks): d without the keys in ks, order kept. */
  function Omit<V>(d: Dict<V>, ks: set<string>): Dict<V>
    decreases |d|
  {
    if d == [] then []
    else if d[0].0 in ks then Omit(d[1..], ks)
    else [d[0]] + Omit(d[1..], ks)
  }

  /** The one-key object { [k]: v }. */
  function Single<V>(k: string, v: V): Dict<V> {
    [(k, v)]
  }

  // ---------------------------------------------------------------------

  lemma {:induction false} GetNoneIff<V>(d: Dict<V>, k: string)
    ensures Get(d, k).None? <==> k !in KeySet(d)
    decreases |d|
  {
    if d != [] {
      GetNoneIff(d[1..], k);
    }
  }

  lemma {:induction false} GetPut<V>(d: Dict<V>, k: string, v: V, k': string)
    ensures Get(Put(d, k, v), k') == if k' == k then Some(v) else Get(d, k')
    decreases |d|
  {
    if d != [] && d[0].0 != k {
      GetPut(d[1..], k, v, k');
    }
  }

  lemma {:induction false} KeySetPut<V>(d: Dict<V>, k: string, v: V)
    ensures KeySet(Put(d, k, v)) == KeySet(d) + {k}
    ensures Distinct(d) ==> Distinct(Put(d, k, v))
    decreases |d|
  {
    if d != [] {
      if d[0].0 == k {
        assert Put(d, k, v)[1..] == d[1..];
      } else {
        KeySetPut(d[1..], k, v);
        assert Put(d, k, v)[1..] == Put(d[1..], k, v);
      }
    }
  }

  /** A spread reads the later object first and falls back to the earlier. */
  lemma {:induction false} GetSpread<V>(a: Dict<V>, b: Dict<V>, k: string)
    requires Distinct(b)
    ensures Get(Spread(a, b), k) == if k in KeySet(b) then Get(b, k) else Get(a, k)
    decreases |b|
  {
    if b != [] {
      GetSpread(Put(a, b[0].0, b[0].1), b[1..], k);
      GetPut(a, b[0].0, b[0].1, k);
      GetNoneIff(b[1..], k);
    }
  }

  lemma {:induction false} KeySetSpread<V>(a: Dict<V>, b: Dict<V>)
    ensures KeySet(Spread(a, b)) == KeySet(a) + KeySet(b)
    ensures Distinct(a) ==> Distinct(Spread(a, b))
    decreases |b|
  {
    if b != [] {
      KeySetPut(a, b[0].0, b[0].1);
      KeySetSpread(Put(a, b[0].0, b[0].1), b[1..]);
    }
  }

  lemma {:induction false} GetOmit<V>(d: Dict<V>, ks: set<string>, k: string)
    ensures Get(Omit(d, ks), k) == if k in ks then None else Get(d, k)
    ensures KeySet(Omit(d, ks)) == KeySet(d) - ks
    ensures Distinct(d) ==> Distinct(Omit(d, ks))
    decreases |d|
  {
    if d != [] {
      GetOmit(d[1..], ks, k);
    }
  }

  /** GetOmit for every key at once. */
  lemma OmitGetAll<V>(d: Dict<V>, ks: set<string>)
    ensures forall k :: Get(Omit(d, ks), k) == if k in ks then None else Get(d, k)
    ensures KeySet(Omit(d, ks)) == KeySet(d) - ks
  {
    GetOmit(d, ks, "");
    forall k
      ensures Get(Omit(d, ks), k) == if k in ks then None else Get(d, k)
    {
      GetOmit(d, ks, k);
    }
  }

  lemma {:induction false} GetIn<V>(d: Dict<V>, k: string)
    requires k in KeySet(d)
    ensures Get(d, k).Some?
    decreases |d|
  {
    GetNoneIff(d, k);
  }

  /** The value read is the one at the first position holding the key. */
  lemma {:induction false} GetAt<V>(d: Dict<V>, i: nat, k: string)
    requires i < |d| && d[i].0 == k
    requires forall j :: 0 <= j < i ==> d[j].0 != k
    ensures Get(d, k) == Some(d[i].1)
    decreases i
  {
    if i > 0 {
      GetAt(d[1..], i - 1, k);
    }
  }

  lemma {:induction false} KeySetIndex<V>(d: Dict<V>, k: string)
    ensures k in KeySet(d) <==> exists i :: 0 <= i < |d| && d[i].0 == k
    decreases |d|
  {
    if d != [] {
      KeySetIndex(d[1..], k);
      if k in KeySet(d[1..]) {
        var i :| 0 <= i < |d[1..]| && d[1..][i].0 == k;
        assert d[i + 1].0 == k;
      }
      if exists i :: 0 <= i < |d| && d[i].0 == k {
        var i :| 0 <= i < |d| && d[i].0 == k;
        if i > 0 { assert d[1..][i - 1].0 == k; }
      }
    }
  }

  lemma {:induction false} PutFresh<V>(d: Dict<V>, k: string, v: V)
    requires k !in KeySet(d)
    ensures Put(d, k, v) == d + [(k, v)]
    decreases |d|
  {
    if d != [] {
      PutFresh(d[1..], k, v);
      assert d == [d[0]] + d[1..];
    }
  }

  lemma {:induction false} KeySetAppend<V>(a: Dict<V>, b: Dict<V>)
    ensures KeySet(a + b) == KeySet(a) + KeySet(b)
    decreases |a|
  {
    if a != [] {
      assert (a + b)[1..] == a[1..] + b;
      KeySetAppend(a[1..], b);
    } else {
      assert a + b == b;
    }
  }

  /** A prefix and a suffix of a dictionary without repeated keys have no
      repeated keys, and no key in common. */
  lemma {:induction false} DistinctSplit<V>(a: Dict<V>, b: Dict<V>)
    requires Distinct(a + b)
    ensures Distinct(a) && Distinct(b) && KeySet(a) !! KeySet(b)
    decreases |a|
  {
    if a != [] {
      assert (a + b)[1..] == a[1..] + b;
      DistinctSplit(a[1..], b);
      KeySetAppend(a[1..], b);
    } else {
      assert a + b == b;
    }
  }

  lemma {:induction false} DistinctJoin<V>(a: Dict<V>, b: Dict<V>)
    requires Distinct(a) && Distinct(b) && KeySet(a) !! KeySet(b)
    ensures Distinct(a + b)
    decreases |a|
  {
    if a != [] {
      assert (a + b)[1..] == a[1..] + b;
      DistinctJoin(a[1..], b);
      KeySetAppend(a[1..], b);
    } else {
      assert a + b == b;
    }
  }

  lemma {:induction false} PutLength<V>(d: Dict<V>, k: string, v: V)
    ensures |Put(d, k, v)| == if k in KeySet(d) then |d| else |d| + 1
    decreases |d|
  {
    if d != [] && d[0].0 != k {
      PutLength(d[1..], k, v);
    }
  }

}
