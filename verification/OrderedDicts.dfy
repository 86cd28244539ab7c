/** Python's `OrderedDict` as the sequence of its items, oldest first. */
module OrderedDicts {
  import opened Wrappers

  type Dict<K, V> = seq<(K, V)>

  ghost predicate Distinct<K, V>(d: Dict<K, V>) {
    forall i, j :: 0 <= i < j < |d| ==> d[i].0 != d[j].0
  }

  function Find<K(==), V>(d: Dict<K, V>, k: K): (v: Option<V>)
    ensures v.Some? ==> (k, v.value) in d
    ensures v.None? <==> forall i :: 0 <= i < |d| ==> d[i].0 != k
  {
    if d == [] then None else if d[0].0 == k then Some(d[0].1) else Find(d[1..], k)
  }

  /** The items that satisfy `p`, in order. */
  function Keep<K, V>(d: Dict<K, V>, p: ((K, V)) -> bool): (r: Dict<K, V>)
    ensures |r| <= |d|
  {
    if d == [] then [] else (if p(d[0]) then [d[0]] else []) + Keep(d[1..], p)
  }

  /** `pop(k, None)` */
  function Without<K(==), V>(d: Dict<K, V>, k: K): (r: Dict<K, V>)
    ensures |r| <= |d|
  {
    if d == [] then [] else (if d[0].0 != k then [d[0]] else []) + Without(d[1..], k)
  }

  /** `d[k] = v` followed by `move_to_end(k)`: the item becomes the newest. */
  function PutLast<K(==), V>(d: Dict<K, V>, k: K, v: V): Dict<K, V> {
    Without(d, k) + [(k, v)]
  }

  /** What repeated `popitem(last=False)` leaves when at most `n` items may stay. */
  function Newest<K, V>(d: Dict<K, V>, n: nat): (r: Dict<K, V>)
    ensures |r| <= n
  {
    if |d| <= n then d else d[|d| - n..]
  }

  /** Cutting to the newest drops a prefix, and never the last item. */
  lemma NewestIsSuffix<K, V>(d: Dict<K, V>, n: nat) returns (dropped: Dict<K, V>)
    requires n > 0
    ensures dropped + Newest(d, n) == d
    ensures dropped != [] ==> |Newest(d, n)| == n
    ensures d != [] ==> Newest(d, n) != [] && Newest(d, n)[|Newest(d, n)| - 1] == d[|d| - 1]
  {
    dropped := if |d| <= n then [] else d[..|d| - n];
  }

  lemma {:induction false} KeepMember<K, V>(d: Dict<K, V>, p: ((K, V)) -> bool, e: (K, V))
    ensures e in Keep(d, p) <==> e in d && p(e)
  {
    if d != [] { KeepMember(d[1..], p, e); }
  }

  lemma {:induction false} WithoutMember<K, V>(d: Dict<K, V>, k: K, e: (K, V))
    ensures e in Without(d, k) <==> e in d && e.0 != k
  {
    if d != [] { WithoutMember(d[1..], k, e); }
  }

  lemma {:induction false} KeepDistinct<K, V>(d: Dict<K, V>, p: ((K, V)) -> bool)
    requires Distinct(d)
    ensures Distinct(Keep(d, p))
  {
    if d != [] {
      KeepDistinct(d[1..], p);
      var rest := Keep(d[1..], p);
      forall i | 0 <= i < |rest| ensures rest[i].0 != d[0].0 {
        KeepMember(d[1..], p, rest[i]);
      }
    }
  }

  lemma {:induction false} WithoutDistinct<K, V>(d: Dict<K, V>, k: K)
    requires Distinct(d)
    ensures Distinct(Without(d, k))
  {
    if d != [] {
      WithoutDistinct(d[1..], k);
      var rest := Without(d[1..], k);
      forall i | 0 <= i < |rest| ensures rest[i].0 != d[0].0 {
        WithoutMember(d[1..], k, rest[i]);
      }
    }
  }

  lemma PutLastDistinct<K, V>(d: Dict<K, V>, k: K, v: V)
    requires Distinct(d)
    ensures Distinct(PutLast(d, k, v))
  {
    WithoutDistinct(d, k);
    var rest := Without(d, k);
    forall i | 0 <= i < |rest| ensures rest[i].0 != k {
      WithoutMember(d, k, rest[i]);
    }
  }

  lemma {:induction false} FindIsMember<K, V>(d: Dict<K, V>, k: K, v: V)
    requires Distinct(d)
    ensures Find(d, k) == Some(v) <==> (k, v) in d
  {
  }

  lemma {:induction false} WithoutAbsent<K, V>(d: Dict<K, V>, k: K)
    requires forall i :: 0 <= i < |d| ==> d[i].0 != k
    ensures Without(d, k) == d
  {
    if d != [] {
      WithoutAbsent(d[1..], k);
    }
  }

  lemma {:induction false} WithoutAppend<K, V>(d: Dict<K, V>, e: Dict<K, V>, k: K)
    ensures Without(d + e, k) == Without(d, k) + Without(e, k)
  {
    hide Without;
    if d == [] {
      WithoutNone<K, V>(k);
      assert d + e == e && Without(d, k) + Without(e, k) == Without(e, k);
    } else {
      var first, rest := d[0], d[1..];
      assert d == [first] + rest;
      assert d + e == [first] + (rest + e);
      WithoutAppend(rest, e, k);
      WithoutCons(first, rest + e, k);
      WithoutCons(first, rest, k);
      assert ([first] + Without(rest, k)) + Without(e, k) == [first] + (Without(rest, k) + Without(e, k));
    }
  }

  lemma WithoutNone<K, V>(k: K)
    ensures Without<K, V>([], k) == []
  {
  }

  lemma WithoutCons<K, V>(first: (K, V), rest: Dict<K, V>, k: K)
    ensures Without([first] + rest, k) == if first.0 != k then [first] + Without(rest, k) else Without(rest, k)
  {
  }

  lemma {:induction false} WithoutShrinks<K, V>(d: Dict<K, V>, k: K)
    requires Find(d, k).Some?
    ensures |Without(d, k)| < |d|
  {
    if d[0].0 != k { WithoutShrinks(d[1..], k); }
  }
}
