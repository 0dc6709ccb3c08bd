/** Python dictionaries as the planners build them: entries in insertion
    order, each key at most once, and `{k: v for ...}` keeping the position
    of a key's first occurrence but the value of its last. */
module OrderedDict {
  import opened Wrappers

  /** The keys of a list of entries, in order. */
  function Keys<K, V>(d: seq<(K, V)>): (ks: seq<K>)
    ensures |ks| == |d|
    ensures forall i :: 0 <= i < |d| ==> ks[i] == d[i].0
  {
    seq(|d|, i requires 0 <= i < |d| => d[i].0)
  }

  /** No key occurs twice: what every Python dict satisfies. Stated entry
      by entry, each key absent from the entries after it. */
  predicate UniqueKeys<K(==,!new), V>(d: seq<(K, V)>)
  {
    |d| == 0 || (d[0].0 !in Keys(d[1..]) && UniqueKeys(d[1..]))
  }

  /** The pairwise reading of `UniqueKeys`: entries at different positions
      have different keys. */
  lemma {:induction false} UniqueKeysPairwise<K(!new), V>(d: seq<(K, V)>, i: nat, j: nat)
    requires UniqueKeys(d) && i < j < |d|
    ensures d[i].0 != d[j].0
  {
    if i == 0 {
      assert Keys(d[1..])[j - 1] == d[j].0;
    } else {
      assert d[1..][i - 1] == d[i] && d[1..][j - 1] == d[j];
      UniqueKeysPairwise(d[1..], i - 1, j - 1);
    }
  }

  /** `d.get(k)`. */
  function Get<K(==,!new), V>(d: seq<(K, V)>, k: K): (r: Option<V>)
    ensures r.Some? <==> k in Keys(d)
  {
    if |d| == 0 then None
    else if d[0].0 == k then Some(d[0].1)
    else
      assert Keys(d) == [d[0].0] + Keys(d[1..]);
      Get(d[1..], k)
  }

  /** With unique keys, `d.get(k)` is the value of the one entry for `k`. */
  lemma {:induction false} GetUnique<K(!new), V>(d: seq<(K, V)>, k: K, i: nat)
    requires UniqueKeys(d) && i < |d| && d[i].0 == k
    ensures Get(d, k) == Some(d[i].1)
  {
    if i > 0 {
      assert d[1..][i - 1] == d[i];
      assert Keys(d[1..])[i - 1] == k;
      GetUnique(d[1..], k, i - 1);
    }
  }

  /** `d[k] = v`: an existing key keeps its position and takes the new value,
      a new key goes to the end. */
  function Set<K(==,!new), V>(d: seq<(K, V)>, k: K, v: V): (r: seq<(K, V)>)
    ensures Get(r, k) == Some(v)
    ensures forall k' :: k' != k ==> Get(r, k') == Get(d, k')
    ensures Keys(r) == if k in Keys(d) then Keys(d) else Keys(d) + [k]
    ensures UniqueKeys(d) ==> UniqueKeys(r)
  {
    if |d| == 0 then [(k, v)]
    else if d[0].0 == k then
      SetHead(d, k, v);
      [(k, v)] + d[1..]
    else
      var rest := Set(d[1..], k, v);
      SetCons(d, k, v, rest);
      [d[0]] + rest
  }

  /** The base case of `Set`: an existing first entry takes the new value. */
  lemma SetHead<K(!new), V>(d: seq<(K, V)>, k: K, v: V)
    requires |d| > 0 && d[0].0 == k
    ensures Get([(k, v)] + d[1..], k) == Some(v)
    ensures forall k' :: k' != k ==> Get([(k, v)] + d[1..], k') == Get(d, k')
    ensures Keys([(k, v)] + d[1..]) == Keys(d)
    ensures UniqueKeys(d) ==> UniqueKeys([(k, v)] + d[1..])
  {
    assert d == [d[0]] + d[1..];
    GetCons((k, v), d[1..], k);
    forall k' | k' != k ensures Get([(k, v)] + d[1..], k') == Get(d, k') {
      GetCons((k, v), d[1..], k');
      GetCons(d[0], d[1..], k');
    }
    KeysCons((k, v), d[1..]);
    KeysCons(d[0], d[1..]);
    if UniqueKeys(d) {
      UniqueTail(d);
      UniqueCons((k, v), d[1..]);
    }
  }

  /** The recursive case of `Set`: a first entry with another key stays in
      front of the updated rest. */
  lemma SetCons<K(!new), V>(d: seq<(K, V)>, k: K, v: V, rest: seq<(K, V)>)
    requires |d| > 0 && d[0].0 != k
    requires Get(rest, k) == Some(v)
    requires forall k' :: k' != k ==> Get(rest, k') == Get(d[1..], k')
    requires Keys(rest) == if k in Keys(d[1..]) then Keys(d[1..]) else Keys(d[1..]) + [k]
    requires UniqueKeys(d[1..]) ==> UniqueKeys(rest)
    ensures Get([d[0]] + rest, k) == Some(v)
    ensures forall k' :: k' != k ==> Get([d[0]] + rest, k') == Get(d, k')
    ensures Keys([d[0]] + rest) == if k in Keys(d) then Keys(d) else Keys(d) + [k]
    ensures UniqueKeys(d) ==> UniqueKeys([d[0]] + rest)
  {
    GetCons(d[0], rest, k);
    SetConsOthers(d, k, rest);
    SetConsKeys(d, k, Keys(rest));
    KeysCons(d[0], rest);
    if UniqueKeys(d) {
      UniqueTail(d);
      UniqueCons(d[0], rest);
    }
  }

  lemma SetConsOthers<K(!new), V>(d: seq<(K, V)>, k: K, rest: seq<(K, V)>)
    requires |d| > 0
    requires forall k' :: k' != k ==> Get(rest, k') == Get(d[1..], k')
    ensures forall k' :: k' != k ==> Get([d[0]] + rest, k') == Get(d, k')
  {
    forall k' | k' != k ensures Get([d[0]] + rest, k') == Get(d, k') {
      GetCons(d[0], rest, k');
      GetCons(d[0], d[1..], k');
      assert d == [d[0]] + d[1..];
    }
  }

  lemma SetConsKeys<K(!new), V>(d: seq<(K, V)>, k: K, ks: seq<K>)
    requires |d| > 0 && d[0].0 != k
    requires ks == if k in Keys(d[1..]) then Keys(d[1..]) else Keys(d[1..]) + [k]
    ensures [d[0].0] + ks == if k in Keys(d) then Keys(d) else Keys(d) + [k]
  {
    KeysCons(d[0], d[1..]);
    assert d == [d[0]] + d[1..];
    assert k in Keys(d) <==> k in Keys(d[1..]);
    if k !in Keys(d[1..]) {
      assert [d[0].0] + (Keys(d[1..]) + [k]) == ([d[0].0] + Keys(d[1..])) + [k];
    }
  }

  lemma GetCons<K(!new), V>(e: (K, V), d: seq<(K, V)>, k: K)
    ensures Get([e] + d, k) == if e.0 == k then Some(e.1) else Get(d, k)
  {
    assert ([e] + d)[1..] == d;
  }

  lemma KeysCons<K, V>(e: (K, V), d: seq<(K, V)>)
    ensures Keys([e] + d) == [e.0] + Keys(d)
  {
  }

  lemma UniqueTail<K(!new), V>(d: seq<(K, V)>)
    requires |d| > 0 && UniqueKeys(d)
    ensures UniqueKeys(d[1..]) && d[0].0 !in Keys(d[1..])
  {
  }

  lemma UniqueCons<K(!new), V>(e: (K, V), d: seq<(K, V)>)
    requires UniqueKeys(d) && e.0 !in Keys(d)
    ensures UniqueKeys([e] + d)
  {
    assert ([e] + d)[1..] == d;
  }

  /** The value the last pair with key `k` carries: an independent reading
      of "the last assignment wins". */
  function LastValue<K(==,!new), V>(ps: seq<(K, V)>, k: K): (r: Option<V>)
    ensures r.Some? <==> k in Keys(ps)
    ensures r.Some? ==> exists i :: 0 <= i < |ps| && ps[i] == (k, r.value)
                          && forall j :: i < j < |ps| ==> ps[j].0 != k
  {
    if |ps| == 0 then None
    else if ps[|ps| - 1].0 == k then Some(ps[|ps| - 1].1)
    else
      assert Keys(ps) == Keys(ps[..|ps| - 1]) + [ps[|ps| - 1].0];
      LastValue(ps[..|ps| - 1], k)
  }

  /** The keys in order of first occurrence, each once. */
  function FirstOccurrences<K(==,!new)>(ks: seq<K>): (r: seq<K>)
    ensures forall k :: k in r <==> k in ks
  {
    if |ks| == 0 then []
    else
      var p := FirstOccurrences(ks[..|ks| - 1]);
      assert ks == ks[..|ks| - 1] + [ks[|ks| - 1]];
      if ks[|ks| - 1] in p then p else p + [ks[|ks| - 1]]
  }

  /** `{k: v for (k, v) in ps}`. */
  function FromPairs<K(==,!new), V>(ps: seq<(K, V)>): (d: seq<(K, V)>)
    ensures UniqueKeys(d)
    ensures forall k :: Get(d, k) == LastValue(ps, k)
    ensures Keys(d) == FirstOccurrences(Keys(ps))
  {
    if |ps| == 0 then []
    else
      var prev := FromPairs(ps[..|ps| - 1]);
      FromPairsGet(ps, prev);
      FromPairsKeys(ps, prev);
      Set(prev, ps[|ps| - 1].0, ps[|ps| - 1].1)
  }

  /** Adding the last pair makes every lookup read that pair's value for its
      key and leaves the other keys' values to the earlier pairs. */
  lemma FromPairsGet<K(!new), V>(ps: seq<(K, V)>, prev: seq<(K, V)>)
    requires |ps| > 0
    requires forall k :: Get(prev, k) == LastValue(ps[..|ps| - 1], k)
    ensures forall k :: Get(Set(prev, ps[|ps| - 1].0, ps[|ps| - 1].1), k) == LastValue(ps, k)
  {
  }

  /** Adding the last pair adds its key at the end unless it occurred
      before. */
  lemma FromPairsKeys<K(!new), V>(ps: seq<(K, V)>, prev: seq<(K, V)>)
    requires |ps| > 0
    requires Keys(prev) == FirstOccurrences(Keys(ps[..|ps| - 1]))
    ensures Keys(Set(prev, ps[|ps| - 1].0, ps[|ps| - 1].1)) == FirstOccurrences(Keys(ps))
  {
    var ks := Keys(ps);
    assert ks[..|ks| - 1] == Keys(ps[..|ps| - 1]);
    assert ks[|ks| - 1] == ps[|ps| - 1].0;
  }
}
