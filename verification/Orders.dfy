/** The keys of an ordered dictionary: sequences without repetition and what filtering does to them. */
module Orders {
  ghost predicate Distinct<K(!new)>(order: seq<K>) {
    forall i, j :: 0 <= i < j < |order| ==> order[i] != order[j]
  }

  function Keep<K(==,!new)>(order: seq<K>, ks: set<K>): (r: seq<K>)
    ensures forall k :: k in r <==> k in order && k in ks
    ensures |r| <= |order|
  {
    if order == [] then []
    else (if order[0] in ks then [order[0]] else []) + Keep(order[1..], ks)
  }

  ghost function Elements<K(!new)>(ks: seq<K>): set<K> { set k | k in ks }

  lemma {:induction false} KeepOrder<K(!new)>(order: seq<K>, ks: set<K>)
    requires Distinct(order)
    ensures Distinct(Keep(order, ks))
  {
    if order != [] {
      KeepOrder(order[1..], ks);
      assert order[0] !in Keep(order[1..], ks);
    }
  }

  lemma {:induction false} KeepStrict<K(!new)>(order: seq<K>, ks: set<K>, k: K)
    requires k in order && k !in ks
    ensures |Keep(order, ks)| < |order|
  {
    if order[0] in ks {
      KeepStrict(order[1..], ks, k);
    }
  }

  lemma {:induction false} KeepAll<K(!new)>(order: seq<K>, ks: set<K>)
    requires forall k :: k in order ==> k in ks
    ensures Keep(order, ks) == order
  {
    if order != [] {
      KeepAll(order[1..], ks);
    }
  }

  lemma {:induction false} KeepKeep<K(!new)>(order: seq<K>, ks: set<K>, ls: set<K>)
    ensures Keep(Keep(order, ks), ls) == Keep(order, ks * ls)
  {
    if order != [] {
      KeepKeep(order[1..], ks, ls);
      var rest := Keep(order[1..], ks);
      if order[0] in ks {
        assert Keep(order, ks)[1..] == rest;
      } else {
        assert Keep(order, ks) == rest;
      }
    }
  }

  lemma {:induction false} KeepSame<K(!new)>(order: seq<K>, ks: set<K>, ls: set<K>)
    requires forall k :: k in order ==> (k in ks <==> k in ls)
    ensures Keep(order, ks) == Keep(order, ls)
  {
    if order != [] {
      KeepSame(order[1..], ks, ls);
    }
  }

  lemma {:induction false} KeepTail<K(!new)>(ks: seq<K>, ls: set<K>)
    requires ks != [] && Distinct(ks)
    requires ks[0] !in ls && forall k :: k in ks[1..] ==> k in ls
    ensures Keep(ks, ls) == ks[1..]
  {
    KeepAll(ks[1..], ls);
  }

  lemma DistinctHead<K(!new)>(ks: seq<K>)
    requires Distinct(ks) && ks != []
    ensures ks[0] !in ks[1..]
  {
  }

  lemma ElementsCons<K(!new)>(ks: seq<K>, n: nat)
    requires 0 < n <= |ks|
    ensures {ks[0]} + Elements(ks[1..][..n - 1]) == Elements(ks[..n])
  {
    assert ks[..n] == [ks[0]] + ks[1..][..n - 1];
  }

  lemma KeepCons<K(!new)>(k: K, rest: seq<K>, ks: set<K>)
    ensures Keep([k] + rest, ks) == (if k in ks then [k] else []) + Keep(rest, ks)
  {
    assert ([k] + rest)[1..] == rest;
  }

  lemma {:induction false} KeepAppend<K(!new)>(a: seq<K>, b: seq<K>, ks: set<K>)
    ensures Keep(a + b, ks) == Keep(a, ks) + Keep(b, ks)
  {
    hide Keep;
    if a == [] {
      assert a + b == b;
      KeepNone(ks);
    } else {
      var rest := a[1..];
      assert a == [a[0]] + rest && a + b == [a[0]] + (rest + b);
      KeepAppend(rest, b, ks);
      KeepCons(a[0], rest, ks);
      KeepCons(a[0], rest + b, ks);
    }
  }

  lemma KeepNone<K(!new)>(ks: set<K>)
    ensures Keep<K>([], ks) == []
  {
  }

  lemma KeepSnoc<K(!new)>(order: seq<K>, k: K, ks: set<K>)
    ensures Keep(order + [k], ks) == Keep(order, ks) + if k in ks then [k] else []
  {
    hide Keep;
    KeepAppend(order, [k], ks);
    assert [k] == [k] + [];
    KeepCons(k, [], ks);
    KeepNone(ks);
  }

  lemma Without<K(!new)>(s: set<K>, k: K)
    ensures |s - {k}| == |s| - if k in s then 1 else 0
  {
    if k in s {
      assert s == (s - {k}) + {k};
    } else {
      assert s == s - {k};
    }
  }

  lemma {:induction false} KeepMissing<K(!new)>(order: seq<K>, ks: set<K>, k: K)
    requires Distinct(order) && k in order && k !in ks && forall q :: q in order && q != k ==> q in ks
    ensures |Keep(order, ks)| == |order| - 1
  {
    if order[0] == k {
      KeepAll(order[1..], ks);
    } else {
      KeepMissing(order[1..], ks, k);
    }
  }

  // ------------------------------------------------------------------ recency

  /** `recency` with `k` moved, or added, to the end. */
  ghost function Renew<K(!new)>(recency: seq<K>, k: K): seq<K> {
    Keep(recency, Elements(recency) - {k}) + [k]
  }

  lemma RecencyDrop<K(!new)>(order: seq<K>, ks: set<K>, fewer: set<K>, recency: seq<K>)
    requires order == Keep(recency, ks) && fewer <= ks
    ensures Keep(order, fewer) == Keep(recency, fewer)
  {
    KeepKeep(recency, ks, fewer);
    KeepSame(recency, ks * fewer, fewer);
  }

  lemma RecencyTouch<K(!new)>(order: seq<K>, ks: set<K>, recency: seq<K>, k: K)
    requires order == Keep(recency, ks)
    ensures Keep(order, ks - {k}) + [k] == Keep(Renew(recency, k), ks + {k})
  {
    var others := Elements(recency) - {k};
    RecencyDrop(order, ks, ks - {k}, recency);
    KeepSnoc(Keep(recency, others), k, ks + {k});
    KeepKeep(recency, others, ks + {k});
    KeepSame(recency, others * (ks + {k}), ks - {k});
  }
}
