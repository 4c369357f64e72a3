/** A JavaScript `Map` as the sequence of its entries in insertion order. `Map.set` on a key
    that is present replaces the value where it stands; on a new key it appends. `Map.delete`
    removes the entry and keeps the order of the others. `Map.forEach` and `Map.keys()` visit
    the entries in this order. */
module OrderedMap {
  import opened Wrappers

  type Entries<V> = seq<(string, V)>

  function Keys<V>(s: Entries<V>): (ks: seq<string>)
    ensures |ks| == |s|
    ensures forall i :: 0 <= i < |s| ==> ks[i] == s[i].0
  {
    if s == [] then [] else [s[0].0] + Keys(s[1..])
  }

  /** No key occurs twice: what a `Map` guarantees. */
  predicate Unique<V>(s: Entries<V>)
  {
    forall i, j :: 0 <= i < j < |s| ==> s[i].0 != s[j].0
  }

  predicate Has<V>(s: Entries<V>, k: string)
  {
    exists i :: 0 <= i < |s| && s[i].0 == k
  }

  /** `map.get(k)`: the value of the first entry with key `k`. */
  function Get<V>(s: Entries<V>, k: string): (r: Option<V>)
    ensures r.Some? <==> Has(s, k)
    ensures r.Some? ==> (k, r.value) in s
    ensures r.None? ==> forall i :: 0 <= i < |s| ==> s[i].0 != k
  {
    if s == [] then None
    else if s[0].0 == k then Some(s[0].1)
    else
      var r := Get(s[1..], k);
      assert forall i :: 1 <= i < |s| ==> s[i] == s[1..][i - 1];
      r
  }

  /** `map.set(k, v)`. */
  function Set<V>(s: Entries<V>, k: string, v: V): (r: Entries<V>)
    ensures Get(r, k) == Some(v)
    ensures forall k' :: k' != k ==> Get(r, k') == Get(s, k')
    ensures Keys(r) == if Has(s, k) then Keys(s) else Keys(s) + [k]
  {
    if s == [] then [(k, v)]
    else if s[0].0 == k then [(k, v)] + s[1..]
    else
      var rest := Set(s[1..], k, v);
      SetStep(s, k, v, rest);
      [s[0]] + rest
  }

  /** The recursive case of `Set`: the first entry kept in front of the set tail. */
  lemma SetStep<V>(s: Entries<V>, k: string, v: V, rest: Entries<V>)
    requires s != [] && s[0].0 != k
    requires Get(rest, k) == Some(v)
    requires forall k' :: k' != k ==> Get(rest, k') == Get(s[1..], k')
    requires Keys(rest) == if Has(s[1..], k) then Keys(s[1..]) else Keys(s[1..]) + [k]
    ensures Get([s[0]] + rest, k) == Some(v)
    ensures forall k' :: k' != k ==> Get([s[0]] + rest, k') == Get(s, k')
    ensures Keys([s[0]] + rest) == if Has(s, k) then Keys(s) else Keys(s) + [k]
  {
    var r := [s[0]] + rest;
    assert r[0] == s[0] && r[1..] == rest;
    assert Get(r, k) == Some(v);
    assert forall k' :: k' != k ==> Get(r, k') == Get(s, k') by {
      forall k' | k' != k
        ensures Get(r, k') == Get(s, k')
      {
      }
    }
    assert Keys(r) == if Has(s, k) then Keys(s) else Keys(s) + [k] by {
      assert Keys(r) == [s[0].0] + Keys(rest);
      assert Keys(s) == [s[0].0] + Keys(s[1..]);
      HasTail(s, k);
      AppendAssoc([s[0].0], Keys(s[1..]), [k]);
    }
  }

  lemma AppendAssoc<T>(a: seq<T>, b: seq<T>, c: seq<T>)
    ensures a + (b + c) == (a + b) + c
  {
  }

  /** `map.delete(k)`. */
  function Remove<V>(s: Entries<V>, k: string): (r: Entries<V>)
    ensures |r| <= |s|
    ensures Get(r, k) == None
    ensures forall k' :: k' != k ==> Get(r, k') == Get(s, k')
    ensures forall i :: 0 <= i < |r| ==> r[i] in s && r[i].0 != k
  {
    if s == [] then []
    else if s[0].0 == k then Remove(s[1..], k)
    else [s[0]] + Remove(s[1..], k)
  }

  /** Setting a key to the value it already has changes nothing. */
  lemma {:induction false} SetSame<V>(s: Entries<V>, k: string, v: V)
    requires Get(s, k) == Some(v)
    ensures Set(s, k, v) == s
  {
    if s[0].0 != k {
      SetSame(s[1..], k, v);
      assert [s[0]] + s[1..] == s;
    }
  }

  lemma SetUnique<V>(s: Entries<V>, k: string, v: V)
    requires Unique(s)
    ensures Unique(Set(s, k, v))
    ensures |Set(s, k, v)| == if Has(s, k) then |s| else |s| + 1
  {
    var r := Set(s, k, v);
    UniqueIffKeys(s);
    UniqueIffKeys(r);
    if !Has(s, k) {
      FreshKeyUnique(Keys(s), k);
    }
  }

  /** No string occurs twice. */
  predicate DistinctKeys(ks: seq<string>)
  {
    forall i, j :: 0 <= i < j < |ks| ==> ks[i] != ks[j]
  }

  lemma UniqueIffKeys<V>(s: Entries<V>)
    ensures Unique(s) <==> DistinctKeys(Keys(s))
  {
    var ks := Keys(s);
    assert forall i :: 0 <= i < |s| ==> ks[i] == s[i].0;
  }

  lemma FreshKeyUnique(ks: seq<string>, k: string)
    requires DistinctKeys(ks) && k !in ks
    ensures DistinctKeys(ks + [k])
  {
    var r := ks + [k];
    assert forall i :: 0 <= i < |ks| ==> r[i] == ks[i];
  }

  lemma {:induction false} RemoveAbsent<V>(s: Entries<V>, k: string)
    requires !Has(s, k)
    ensures Remove(s, k) == s
  {
    if s != [] {
      assert !Has(s[1..], k) by {
        assert forall i :: 1 <= i < |s| ==> s[i] == s[1..][i - 1];
      }
      RemoveAbsent(s[1..], k);
    }
  }

  /** Deleting a present key from a map drops exactly its entry and keeps the map a map. */
  lemma {:induction false} RemoveUnique<V>(s: Entries<V>, k: string)
    requires Unique(s)
    ensures Unique(Remove(s, k))
    ensures |Remove(s, k)| == if Has(s, k) then |s| - 1 else |s|
    ensures Has(s, k) ==> exists i :: 0 <= i < |s| && s[i].0 == k && Remove(s, k) == s[..i] + s[i + 1..]
    ensures !Has(s, k) ==> Remove(s, k) == s
  {
    if !Has(s, k) {
      RemoveAbsent(s, k);
    } else {
      var i :| 0 <= i < |s| && s[i].0 == k;
      RemoveAt(s, k, i);
      UniqueWithout(s, i);
    }
  }

  /** Dropping one entry of a map leaves a map. */
  lemma UniqueWithout<V>(s: Entries<V>, i: nat)
    requires Unique(s) && i < |s|
    ensures Unique(s[..i] + s[i + 1..])
  {
    var r := s[..i] + s[i + 1..];
    assert forall a :: 0 <= a < |r| ==> r[a] == s[if a < i then a else a + 1];
  }

  lemma {:induction false} RemoveAt<V>(s: Entries<V>, k: string, i: nat)
    requires Unique(s) && i < |s| && s[i].0 == k
    ensures Remove(s, k) == s[..i] + s[i + 1..]
  {
    if i == 0 {
      assert !Has(s[1..], k) by {
        assert forall j :: 1 <= j < |s| ==> s[j] == s[1..][j - 1];
      }
      RemoveAbsent(s[1..], k);
    } else {
      var t := s[1..];
      assert Unique(t) by {
        assert forall j :: 1 <= j < |s| ==> s[j] == t[j - 1];
      }
      RemoveAt(t, k, i - 1);
      assert s[0].0 != k;
      assert s[..i] + s[i + 1..] == [s[0]] + (t[..i - 1] + t[i..]);
    }
  }

  /** Setting a key that is absent appends its entry. */
  lemma {:induction false} SetAbsent<V>(s: Entries<V>, k: string, v: V)
    requires !Has(s, k)
    ensures Set(s, k, v) == s + [(k, v)]
  {
    if s != [] {
      HasTail(s, k);
      SetAbsent(s[1..], k, v);
      SetPastFirst(s, k, v);
      ConsAppend(s, (k, v));
    } else {
      assert s + [(k, v)] == [(k, v)];
    }
  }

  lemma HasTail<V>(s: Entries<V>, k: string)
    requires s != []
    ensures Has(s, k) <==> s[0].0 == k || Has(s[1..], k)
  {
    assert forall i :: 1 <= i < |s| ==> s[i] == s[1..][i - 1];
  }

  lemma SetPastFirst<V>(s: Entries<V>, k: string, v: V)
    requires s != [] && s[0].0 != k
    ensures Set(s, k, v) == [s[0]] + Set(s[1..], k, v)
  {
  }

  lemma ConsAppend<T>(s: seq<T>, x: T)
    requires s != []
    ensures [s[0]] + (s[1..] + [x]) == s + [x]
  {
    assert s == [s[0]] + s[1..];
  }

  /** A suffix of a map is a map. */
  lemma UniqueSuffix<V>(s: Entries<V>, i: nat)
    requires Unique(s) && i <= |s|
    ensures Unique(s[i..])
  {
    forall a, b | 0 <= a < b < |s[i..]| ensures s[i..][a].0 != s[i..][b].0 {
      assert s[i..][a] == s[i + a] && s[i..][b] == s[i + b];
    }
  }

  /** Deleting the key of the first entry of a map drops exactly that entry. */
  lemma RemoveFirst<V>(s: Entries<V>)
    requires Unique(s) && |s| > 0
    ensures Remove(s, s[0].0) == s[1..]
  {
    RemoveUnique(s[1..], s[0].0);
  }
}
