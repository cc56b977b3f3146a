/**
 * The term and context filters of hrex/corpus/filters.py.
 *
 * `filter_topN` ranks the terms of a DictWords by frequency with Python's
 * stable `sorted(..., reverse=True)` and keeps the first N; `filterTF` keeps the
 * terms whose frequency reaches a threshold; `filterTopNContexts` keeps, for each
 * word id, the N heaviest `(idc, weight)` entries of its context list. The
 * ranking is the pure function `SortDesc`, proved ordered, a permutation and
 * stable; the filters are loops proved against pure specifications.
 */
module Filters {
  import opened PyBuiltins
  import opened Dictionaries

  // ---------------------------------------------------------------------------
  // `sorted(s, key=key, reverse=True)`.

  /** Inserts `x` before the first element whose key is not greater than its
      own, so that `x`, taken from the front, stays ahead of its equals. */
  function InsertDesc<T>(x: T, s: seq<T>, key: T -> real): (r: seq<T>)
    ensures multiset(r) == multiset(s) + multiset{x}
    ensures |r| == |s| + 1
  {
    if s == [] || key(s[0]) <= key(x) then [x] + s
    else
      assert s == [s[0]] + s[1..];
      [s[0]] + InsertDesc(x, s[1..], key)
  }

  /** Python's stable descending sort. */
  function SortDesc<T>(s: seq<T>, key: T -> real): (r: seq<T>)
    ensures multiset(r) == multiset(s)
    ensures |r| == |s|
  {
    if s == [] then []
    else
      assert s == [s[0]] + s[1..];
      InsertDesc(s[0], SortDesc(s[1..], key), key)
  }

  predicate Descending<T>(s: seq<T>, key: T -> real)
  {
    forall i, j :: 0 <= i < j < |s| ==> key(s[i]) >= key(s[j])
  }

  lemma {:induction false} InsertDescSorted<T>(x: T, s: seq<T>, key: T -> real)
    requires Descending(s, key)
    ensures Descending(InsertDesc(x, s, key), key)
  {
    if s != [] && key(s[0]) > key(x) {
      InsertDescSorted(x, s[1..], key);
      var r := InsertDesc(x, s, key);
      var t := InsertDesc(x, s[1..], key);
      assert r == [s[0]] + t;
      forall k | 0 <= k < |t| ensures key(s[0]) >= key(t[k]) {
        assert t[k] in multiset(t);
        assert t[k] in multiset(s[1..]) + multiset{x};
        if t[k] != x {
          assert t[k] in s[1..];
          var m :| 0 <= m < |s[1..]| && s[1..][m] == t[k];
          assert s[1 + m] == t[k];
        }
      }
    }
  }

  lemma {:induction false} SortDescSorted<T>(s: seq<T>, key: T -> real)
    ensures Descending(SortDesc(s, key), key)
  {
    if s != [] {
      SortDescSorted(s[1..], key);
      InsertDescSorted(s[0], SortDesc(s[1..], key), key);
    }
  }

  /** The elements of `s` whose key is `k`, in order. */
  function WithKey<T>(s: seq<T>, key: T -> real, k: real): (r: seq<T>)
    ensures |r| <= |s|
  {
    if s == [] then []
    else (if key(s[0]) == k then [s[0]] else []) + WithKey(s[1..], key, k)
  }

  lemma {:induction false} WithKeyInsertDesc<T>(x: T, s: seq<T>, key: T -> real, k: real)
    ensures WithKey(InsertDesc(x, s, key), key, k)
            == (if key(x) == k then [x] else []) + WithKey(s, key, k)
  {
    var r := InsertDesc(x, s, key);
    if s == [] || key(s[0]) <= key(x) {
      assert r == [x] + s;
      assert r[0] == x && r[1..] == s;
    } else {
      var t := InsertDesc(x, s[1..], key);
      assert r == [s[0]] + t;
      assert r[0] == s[0] && r[1..] == t;
      WithKeyInsertDesc(x, s[1..], key, k);
      var rest := WithKey(s[1..], key, k);
      assert WithKey(t, key, k) == (if key(x) == k then [x] else []) + rest;
      if key(s[0]) == k {
        assert key(x) != k;
        assert WithKey(r, key, k) == [s[0]] + rest;
        assert WithKey(s, key, k) == [s[0]] + rest;
      } else {
        assert WithKey(r, key, k) == WithKey(t, key, k);
        assert WithKey(s, key, k) == rest;
      }
    }
  }

  /** Stability: the elements of any one key keep their original order. */
  lemma {:induction false} SortDescStable<T>(s: seq<T>, key: T -> real, k: real)
    ensures WithKey(SortDesc(s, key), key, k) == WithKey(s, key, k)
  {
    if s != [] {
      SortDescStable(s[1..], key, k);
      WithKeyInsertDesc(s[0], SortDesc(s[1..], key), key, k);
    }
  }

  lemma PrefixDescending<T>(s: seq<T>, key: T -> real, m: nat)
    requires Descending(s, key) && m <= |s|
    ensures Descending(s[..m], key)
  {
  }

  /** What a cut of a descending sequence keeps outweighs what it drops, and
      together they are the whole. */
  lemma {:induction false} CutDominates<T>(s: seq<T>, key: T -> real, m: nat)
    requires Descending(s, key) && m <= |s|
    ensures multiset(s) == multiset(s[..m]) + multiset(s[m..])
    ensures forall x, y :: x in multiset(s[m..]) && y in s[..m] ==> key(x) <= key(y)
  {
    assert s == s[..m] + s[m..];
    forall x, y | x in multiset(s[m..]) && y in s[..m] ensures key(x) <= key(y) {
      var a :| 0 <= a < |s[m..]| && s[m..][a] == x;
      var b :| 0 <= b < m && s[..m][b] == y;
      assert s[b] == y && s[m + a] == x;
    }
  }

  /** The first `n` of a descending sort (`sorted(...)[:n]`): ordered, drawn
      from `s` without repetition beyond `s`'s own, and no element left out is
      heavier than one kept. */
  lemma {:induction false} TopOfSorted<T>(s: seq<T>, key: T -> real, n: int)
    ensures Descending(Take(SortDesc(s, key), n), key)
    ensures multiset(Take(SortDesc(s, key), n)) <= multiset(s)
    ensures forall x, y :: x in multiset(s) - multiset(Take(SortDesc(s, key), n)) && y in Take(SortDesc(s, key), n)
              ==> key(x) <= key(y)
  {
    var sorted := SortDesc(s, key);
    var r := Take(sorted, n);
    SortDescSorted(s, key);
    assert r == sorted[..|r|];
    PrefixDescending(sorted, key, |r|);
    CutDominates(sorted, key, |r|);
    assert multiset(s) - multiset(r) == multiset(sorted[|r|..]);
  }

  // ---------------------------------------------------------------------------
  // `filter_topN(dic, N)`.

  /** `(w, tf)` for `w` in the dictionary's iteration order `keys`. */
  function Sizes(items: map<string, Entry>, keys: seq<string>): (s: seq<(string, int)>)
    requires forall k :: 0 <= k < |keys| ==> keys[k] in items
    ensures |s| == |keys|
    ensures forall k :: 0 <= k < |keys| ==> s[k] == (keys[k], items[keys[k]].1)
  {
    if keys == [] then []
    else Sizes(items, keys[..|keys| - 1]) + [(keys[|keys| - 1], items[keys[|keys| - 1]].1)]
  }

  function FreqKey(p: (string, int)): real
  {
    p.1 as real
  }

  /** `sorted(sizes, key=itemgetter(1), reverse=True)[:N]`. */
  function Ranked(items: map<string, Entry>, keys: seq<string>, n: int): seq<(string, int)>
    requires forall k :: 0 <= k < |keys| ==> keys[k] in items
  {
    Take(SortDesc(Sizes(items, keys), FreqKey), n)
  }

  /** `dict(ar_topN).keys()`. */
  function TopWords(items: map<string, Entry>, keys: seq<string>, n: int): set<string>
    requires forall k :: 0 <= k < |keys| ==> keys[k] in items
  {
    set p | p in Ranked(items, keys, n) :: p.0
  }

  /** The items of the DictWords `filter_topN` returns. */
  function TopN(items: map<string, Entry>, keys: seq<string>, n: int): (r: map<string, Entry>)
    requires Enumerates(keys, items.Keys)
    ensures r.Keys <= items.Keys
    ensures forall w :: w in r ==> r[w] == items[w]
  {
    map w | w in TopWords(items, keys, n) && w in items :: items[w]
  }

  predicate DistinctFirsts<A(==), B>(s: seq<(A, B)>)
  {
    forall i, j :: 0 <= i < j < |s| ==> s[i].0 != s[j].0
  }

  lemma {:induction false} MultisetAtMostOne<T>(s: seq<T>, x: T)
    requires forall i, j :: 0 <= i < j < |s| ==> s[i] != s[j]
    ensures multiset(s)[x] <= 1
  {
    if s != [] {
      var init := s[..|s| - 1];
      assert s == init + [s[|s| - 1]];
      MultisetAtMostOne(init, x);
      if s[|s| - 1] == x {
        assert x !in init;
      }
    }
  }

  lemma {:induction false} MultisetAtLeastTwo<T>(s: seq<T>, i: int, j: int)
    requires 0 <= i < j < |s| && s[i] == s[j]
    ensures multiset(s)[s[i]] >= 2
  {
    assert s == s[..j] + [s[j]] + s[j + 1..];
    assert s[..j][i] == s[i];
    assert s[i] in multiset(s[..j]);
  }

  /** A permutation of a sequence with distinct first components, whose
      elements are determined by their first components, has distinct first
      components too. */
  lemma DistinctFirstsPermutation<A, B>(s: seq<(A, B)>, t: seq<(A, B)>)
    requires DistinctFirsts(s)
    requires multiset(s) == multiset(t)
    ensures DistinctFirsts(t)
  {
    forall i, j | 0 <= i < j < |t| ensures t[i].0 != t[j].0 {
      if t[i].0 == t[j].0 {
        assert t[i] in multiset(s) && t[j] in multiset(s);
        var a :| 0 <= a < |s| && s[a] == t[i];
        var b :| 0 <= b < |s| && s[b] == t[j];
        assert a == b;
        assert t[i] == t[j];
        MultisetAtLeastTwo(t, i, j);
        MultisetAtMostOne(s, t[i]);
      }
    }
  }

  lemma {:induction false} FirstsCardinality<A, B>(s: seq<(A, B)>)
    requires DistinctFirsts(s)
    ensures |set p | p in s :: p.0| == |s|
  {
    if s != [] {
      var init := s[..|s| - 1];
      var last := s[|s| - 1];
      assert s == init + [last];
      FirstsCardinality(init);
      assert (set p | p in s :: p.0) == (set p | p in init :: p.0) + {last.0};
      assert last.0 !in (set p | p in init :: p.0);
    }
  }

  /** Every ranked pair is `(w, dic[w].tf)` for some word of the dictionary,
      and no word is ranked twice. */
  lemma RankedEntries(items: map<string, Entry>, keys: seq<string>, n: int)
    requires Enumerates(keys, items.Keys)
    ensures forall p :: p in Ranked(items, keys, n) ==> p.0 in items && p.1 == items[p.0].1
    ensures DistinctFirsts(Ranked(items, keys, n))
  {
    var s := Sizes(items, keys);
    var sorted := SortDesc(s, FreqKey);
    var r := Take(sorted, n);
    assert DistinctFirsts(s);
    DistinctFirstsPermutation(s, sorted);
    assert r == sorted[..|r|];
    forall p | p in r ensures p.0 in items && p.1 == items[p.0].1 {
      assert p in multiset(sorted);
      assert p in s;
    }
  }

  /** `filter_topN` keeps `N` words, or all of them when there are fewer (a
      negative `N` drops that many from the end of the ranking, as slicing
      does), and each kept word keeps its `(id, tf)`. */
  lemma TopNSize(items: map<string, Entry>, keys: seq<string>, n: int)
    requires Enumerates(keys, items.Keys)
    ensures n >= 0 ==> |TopN(items, keys, n)| == (if n < |items| then n else |items|)
    ensures n < 0 ==> |TopN(items, keys, n)| == (if |items| + n > 0 then |items| + n else 0)
    ensures forall w :: w in TopN(items, keys, n) ==> TopN(items, keys, n)[w] == items[w]
  {
    var r := Ranked(items, keys, n);
    assert |keys| == |items| by {
      assert items.Keys == set k | k in keys;
      DistinctCardinality(keys);
    }
    RankedEntries(items, keys, n);
    FirstsCardinality(r);
    assert TopN(items, keys, n).Keys == TopWords(items, keys, n);
  }

  /** No word left out by `filter_topN` has a greater frequency than a kept one. */
  lemma TopNDominates(items: map<string, Entry>, keys: seq<string>, n: int)
    requires Enumerates(keys, items.Keys)
    ensures forall w, v :: w in TopN(items, keys, n) && v in items && v !in TopN(items, keys, n)
              ==> items[v].1 <= items[w].1
  {
    var s := Sizes(items, keys);
    var r := Ranked(items, keys, n);
    var top := TopN(items, keys, n);
    RankedEntries(items, keys, n);
    TopOfSorted(s, FreqKey, n);
    forall w, v | w in top && v in items && v !in top ensures items[v].1 <= items[w].1 {
      var p :| p in r && p.0 == w;
      var b :| 0 <= b < |keys| && keys[b] == v;
      var q := s[b];
      assert q !in r;
      assert q in multiset(s) - multiset(r);
      assert FreqKey(q) <= FreqKey(p);
    }
  }

  /** Ties at the cut are broken by the dictionary's iteration order: of two
      words with the same frequency, the one listed first is ranked first. */
  lemma TopNTies(items: map<string, Entry>, keys: seq<string>, k: real)
    requires forall i :: 0 <= i < |keys| ==> keys[i] in items
    ensures WithKey(SortDesc(Sizes(items, keys), FreqKey), FreqKey, k) == WithKey(Sizes(items, keys), FreqKey, k)
  {
    SortDescStable(Sizes(items, keys), FreqKey, k);
  }

  /** The first loop of `filter_topN`: `sizes.append((w, tf))` for `w` in `dic`. */
  method CollectSizes(items: map<string, Entry>, keys: seq<string>) returns (sizes: seq<(string, int)>)
    requires forall k :: 0 <= k < |keys| ==> keys[k] in items
    ensures sizes == Sizes(items, keys)
  {
    sizes := [];
    var k := 0;
    while k < |keys|
      invariant 0 <= k <= |keys|
      invariant sizes == Sizes(items, keys[..k])
    {
      assert keys[..k + 1][..k] == keys[..k];
      sizes := sizes + [(keys[k], items[keys[k]].1)];
      k := k + 1;
    }
    assert keys[..|keys|] == keys;
  }

  /** The second loop of `filter_topN`: `dtopN[w] = dic[w]` for the chosen words,
      each inserted once as a pair. */
  method CopyEntries(items: map<string, Entry>, words: set<string>) returns (d: DictWords)
    requires words <= items.Keys
    ensures fresh(d)
    ensures d.items == map w | w in words :: items[w]
    ensures d.nextId == Some(1) && d.cache == map[]
  {
    d := new DictWords();
    var todo := words;
    while todo != {}
      invariant todo <= words
      invariant d.items == map w | w in words - todo :: items[w]
      invariant d.nextId == Some(1) && d.cache == map[]
      invariant fresh(d)
      decreases todo
    {
      NonEmptySet(todo);
      var w :| w in todo;
      var (idw, tf) := items[w];
      d.SetItemPair(w, idw, tf);
      todo := todo - {w};
    }
  }

  /** `filter_topN(dic, N)`; `keys` is the order in which `dic` is iterated. */
  method FilterTopN(dic: DictWords, keys: seq<string>, n: int) returns (dtopN: DictWords)
    requires Enumerates(keys, dic.items.Keys)
    ensures fresh(dtopN)
    ensures dtopN.items == TopN(dic.items, keys, n)
    ensures dtopN.nextId == Some(1) && dtopN.cache == map[]
  {
    var sizes := CollectSizes(dic.items, keys);
    var arTopN := Take(SortDesc(sizes, FreqKey), n);
    var topNids := set p | p in arTopN :: p.0;
    RankedEntries(dic.items, keys, n);
    assert topNids == TopWords(dic.items, keys, n);
    dtopN := CopyEntries(dic.items, topNids);
  }

  // ---------------------------------------------------------------------------
  // `filterTF(dic, min_tf)`.

  /** The items `filterTF` keeps: the inclusive test `tf >= min_tf`. */
  function AtLeast(items: map<string, Entry>, minTf: int): (r: map<string, Entry>)
    ensures forall w :: w in r <==> w in items && items[w].1 >= minTf
    ensures forall w :: w in r ==> r[w] == items[w]
  {
    map w | w in items && items[w].1 >= minTf :: items[w]
  }

  /** Filtering twice by frequency is filtering once by the larger threshold;
      in particular filtering is idempotent. */
  lemma AtLeastComposes(items: map<string, Entry>, a: int, b: int)
    ensures AtLeast(AtLeast(items, a), b) == AtLeast(items, if a < b then b else a)
    ensures AtLeast(AtLeast(items, a), a) == AtLeast(items, a)
  {
  }

  /** A higher threshold keeps fewer words. */
  lemma AtLeastAntitone(items: map<string, Entry>, a: int, b: int)
    requires a <= b
    ensures AtLeast(items, b).Keys <= AtLeast(items, a).Keys
  {
  }

  /** `filterTF(dic, min_tf)`. */
  method FilterTF(dic: DictWords, minTf: int) returns (dminTf: DictWords)
    ensures fresh(dminTf)
    ensures dminTf.items == AtLeast(dic.items, minTf)
    ensures dminTf.nextId == Some(1) && dminTf.cache == map[]
  {
    dminTf := new DictWords();
    var todo := dic.items.Keys;
    while todo != {}
      invariant todo <= dic.items.Keys
      invariant dminTf.items == map w | w in dic.items.Keys - todo && dic.items[w].1 >= minTf :: dic.items[w]
      invariant dminTf.nextId == Some(1) && dminTf.cache == map[]
      invariant fresh(dminTf)
      decreases todo
    {
      NonEmptySet(todo);
      var word :| word in todo;
      var (id, tf) := dic.items[word];
      if tf >= minTf {
        dminTf.SetItemPair(word, id, tf);
      }
      todo := todo - {word};
    }
  }

  // ---------------------------------------------------------------------------
  // `filterTopNContexts(dic, N)` over the `idw -> [(idc, weight)]` view.

  function WeightKey(p: (int, real)): real
  {
    p.1
  }

  /** The list kept for one word: `sorted(l, key=itemgetter(1), reverse=True)[:N]`. */
  function TopContexts(l: seq<(int, real)>, n: int): seq<(int, real)>
  {
    Take(SortDesc(l, WeightKey), n)
  }

  /** For each word, at most `N` entries (exactly `N` when it has that many),
      in non-increasing weight, all taken from its original list, and no
      entry left out outweighs one kept. */
  lemma TopContextsProperties(l: seq<(int, real)>, n: int)
    ensures n >= 0 ==> |TopContexts(l, n)| == (if n < |l| then n else |l|)
    ensures Descending(TopContexts(l, n), WeightKey)
    ensures multiset(TopContexts(l, n)) <= multiset(l)
    ensures forall x, y :: x in multiset(l) - multiset(TopContexts(l, n)) && y in TopContexts(l, n)
              ==> x.1 <= y.1
  {
    TopOfSorted(l, WeightKey, n);
    var r := TopContexts(l, n);
    forall x, y | x in multiset(l) - multiset(r) && y in r ensures x.1 <= y.1 {
      assert WeightKey(x) <= WeightKey(y);
    }
  }

  /** `filterTopNContexts(dic, N)`, given the list view `dw` of `dic` and its
      iteration order `keys`; the result maps each word id to its kept list. */
  method FilterTopNContexts(dw: map<int, seq<(int, real)>>, keys: seq<int>, n: int)
    returns (dftr: map<int, seq<(int, real)>>)
    requires Enumerates(keys, dw.Keys)
    ensures dftr.Keys == dw.Keys
    ensures forall idw :: idw in dw ==> dftr[idw] == TopContexts(dw[idw], n)
  {
    dftr := map[];
    var k := 0;
    while k < |keys|
      invariant 0 <= k <= |keys|
      invariant dftr.Keys == set i | 0 <= i < k :: keys[i]
      invariant forall idw :: idw in dftr ==> dftr[idw] == TopContexts(dw[idw], n)
    {
      var idw := keys[k];
      dftr := dftr[idw := Take(SortDesc(dw[idw], WeightKey), n)];
      k := k + 1;
    }
  }
}
