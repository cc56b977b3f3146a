/**
 * The pair scan shared by the relation methods of hrex/methods: every
 * `identifyRelations` walks the key list with `for i` and `for j in
 * xrange(i + 1, len(keys))`, and the body for `(keys[i], keys[j])` appends at
 * most one of `(keys[i], keys[j])` and `(keys[j], keys[i])`. `Scan` is the list
 * so appended, for a decision function `cmp` giving what the body appends;
 * the lemmas say which relations it holds and that none is appended twice.
 */
module PairScan {

  /** `(broader, narrower)`. */
  type Rel = (string, string)

  predicate NoRepeats<T(==)>(s: seq<T>)
  {
    forall i, j :: 0 <= i < j < |s| ==> s[i] != s[j]
  }

  /** Dropping the last element keeps the rest distinct, and the last element
      is not among the others. */
  lemma NoRepeatsInit<T>(s: seq<T>)
    requires NoRepeats(s) && s != []
    ensures NoRepeats(s[..|s| - 1]) && s[|s| - 1] !in s[..|s| - 1]
  {
    var n := |s| - 1;
    forall p | 0 <= p < n ensures s[..n][p] != s[n] {
      assert s[..n][p] == s[p];
    }
  }

  lemma SetOfSnoc<T>(s: seq<T>, y: T)
    ensures (set x | x in s + [y]) == (set x | x in s) + {y}
  {
  }

  /** What the body appends for `(keys[i], keys[q])`, `i < q < j`, in order. */
  function Row<T(==)>(keys: seq<T>, cmp: (T, T) -> seq<(T, T)>, i: nat, j: nat): seq<(T, T)>
    requires i < |keys| && j <= |keys|
  {
    if j <= i + 1 then [] else Row(keys, cmp, i, j - 1) + cmp(keys[i], keys[j - 1])
  }

  lemma RowSnoc<T>(keys: seq<T>, cmp: (T, T) -> seq<(T, T)>, i: nat, j: nat)
    requires i < j < |keys|
    ensures Row(keys, cmp, i, j + 1) == Row(keys, cmp, i, j) + cmp(keys[i], keys[j])
  {
  }

  /** The rows `0 .. k - 1` of the outer loop. */
  function Rows<T(==)>(keys: seq<T>, cmp: (T, T) -> seq<(T, T)>, k: nat): seq<(T, T)>
    requires k <= |keys|
  {
    if k == 0 then [] else Rows(keys, cmp, k - 1) + Row(keys, cmp, k - 1, |keys|)
  }

  function Scan<T(==)>(keys: seq<T>, cmp: (T, T) -> seq<(T, T)>): seq<(T, T)>
  {
    Rows(keys, cmp, |keys|)
  }

  /** The body appends at most one relation, and only between its two words. */
  ghost predicate Oriented<T(!new)>(cmp: (T, T) -> seq<(T, T)>)
  {
    forall a, b :: |cmp(a, b)| <= 1 && forall r :: r in cmp(a, b) ==> r == (a, b) || r == (b, a)
  }

  /** `r` is appended by the body for positions `i < j`. */
  predicate ComparedAt<T(==)>(keys: seq<T>, cmp: (T, T) -> seq<(T, T)>, i: int, j: int, r: (T, T))
  {
    0 <= i < j < |keys| && r in cmp(keys[i], keys[j])
  }

  lemma {:induction false} RowMembers<T>(keys: seq<T>, cmp: (T, T) -> seq<(T, T)>, i: nat, j: nat, r: (T, T))
    requires i < |keys| && j <= |keys|
    ensures r in Row(keys, cmp, i, j) <==> exists q :: i < q < j && ComparedAt(keys, cmp, i, q, r)
  {
    if j > i + 1 {
      RowMembers(keys, cmp, i, j - 1, r);
      if ComparedAt(keys, cmp, i, j - 1, r) {
        assert i < j - 1 < j;
      }
    }
  }

  /** The concatenation of a list of lists, in order. */
  function Flatten<X>(ss: seq<seq<X>>): seq<X>
  {
    if |ss| == 0 then [] else Flatten(ss[..|ss| - 1]) + ss[|ss| - 1]
  }

  lemma {:induction false} FlattenComplete<X>(ss: seq<seq<X>>, i: int, x: X)
    requires 0 <= i < |ss| && x in ss[i]
    ensures x in Flatten(ss)
  {
    var n := |ss| - 1;
    if i < n {
      assert ss[..n][i] == ss[i];
      FlattenComplete(ss[..n], i, x);
    }
    InConcat(Flatten(ss[..n]), ss[n], x);
  }

  lemma {:induction false} FlattenSound<X>(ss: seq<seq<X>>, x: X)
    requires x in Flatten(ss)
    ensures exists i :: 0 <= i < |ss| && x in ss[i]
  {
    var n := |ss| - 1;
    InConcat(Flatten(ss[..n]), ss[n], x);
    if x in Flatten(ss[..n]) {
      FlattenSound(ss[..n], x);
      var i :| 0 <= i < n && x in ss[..n][i];
      assert ss[..n][i] == ss[i];
    }
  }

  /** The rows `0 .. k - 1`, one list each. */
  function RowList<T(==)>(keys: seq<T>, cmp: (T, T) -> seq<(T, T)>, k: nat): (rs: seq<seq<(T, T)>>)
    requires k <= |keys|
    ensures |rs| == k && forall p :: 0 <= p < k ==> rs[p] == Row(keys, cmp, p, |keys|)
  {
    seq(k, p requires 0 <= p < k => Row(keys, cmp, p, |keys|))
  }

  lemma {:induction false} RowsFlatten<T>(keys: seq<T>, cmp: (T, T) -> seq<(T, T)>, k: nat)
    requires k <= |keys|
    ensures Rows(keys, cmp, k) == Flatten(RowList(keys, cmp, k))
  {
    if k > 0 {
      RowsFlatten(keys, cmp, k - 1);
      assert RowList(keys, cmp, k)[..k - 1] == RowList(keys, cmp, k - 1);
    }
  }

  lemma RowsSound<T>(keys: seq<T>, cmp: (T, T) -> seq<(T, T)>, k: nat, r: (T, T))
    requires k <= |keys|
    requires r in Rows(keys, cmp, k)
    ensures exists p, q :: p < k && ComparedAt(keys, cmp, p, q, r)
  {
    RowsFlatten(keys, cmp, k);
    FlattenSound(RowList(keys, cmp, k), r);
    var p :| 0 <= p < k && r in RowList(keys, cmp, k)[p];
    RowMembers(keys, cmp, p, |keys|, r);
    var q :| p < q < |keys| && ComparedAt(keys, cmp, p, q, r);
    assert p < k && ComparedAt(keys, cmp, p, q, r);
  }

  lemma RowsComplete<T>(keys: seq<T>, cmp: (T, T) -> seq<(T, T)>, k: nat, p: int, q: int, r: (T, T))
    requires k <= |keys|
    requires p < k && ComparedAt(keys, cmp, p, q, r)
    ensures r in Rows(keys, cmp, k)
  {
    RowMembers(keys, cmp, p, |keys|, r);
    RowsFlatten(keys, cmp, k);
    FlattenComplete(RowList(keys, cmp, k), p, r);
  }

  /** A relation is in the scan exactly when the body appends it for some
      pair of positions `i < j`. */
  lemma ScanMembers<T>(keys: seq<T>, cmp: (T, T) -> seq<(T, T)>, r: (T, T))
    ensures r in Scan(keys, cmp) <==> exists p, q :: ComparedAt(keys, cmp, p, q, r)
  {
    if r in Scan(keys, cmp) {
      RowsSound(keys, cmp, |keys|, r);
    }
    if exists p, q :: ComparedAt(keys, cmp, p, q, r) {
      var p, q :| ComparedAt(keys, cmp, p, q, r);
      RowsComplete(keys, cmp, |keys|, p, q, r);
    }
  }

  lemma NotBefore<T>(keys: seq<T>, i: nat, q: nat)
    requires NoRepeats(keys) && i <= q < |keys|
    ensures keys[q] !in keys[..i]
  {
    forall p | 0 <= p < i ensures keys[..i][p] != keys[q] {
      assert keys[..i][p] == keys[p];
    }
  }

  /** Both words of a relation of row `i` are listed at `i` or later. */
  lemma RowLater<T(!new)>(keys: seq<T>, cmp: (T, T) -> seq<(T, T)>, i: nat, j: nat, r: (T, T))
    requires NoRepeats(keys) && Oriented(cmp) && i < |keys| && j <= |keys|
    requires r in Row(keys, cmp, i, j)
    ensures r.0 !in keys[..i] && r.1 !in keys[..i]
  {
    RowMembers(keys, cmp, i, j, r);
    var q :| i < q < j && ComparedAt(keys, cmp, i, q, r);
    assert r == (keys[i], keys[q]) || r == (keys[q], keys[i]);
    NotBefore(keys, i, i);
    NotBefore(keys, i, q);
  }

  /** Every relation of the rows before `k` holds a word listed before `k`. */
  lemma RowsEarlier<T(!new)>(keys: seq<T>, cmp: (T, T) -> seq<(T, T)>, k: nat, r: (T, T))
    requires Oriented(cmp) && k <= |keys|
    requires r in Rows(keys, cmp, k)
    ensures r.0 in keys[..k] || r.1 in keys[..k]
  {
    RowsSound(keys, cmp, k, r);
    var p, q :| p < k && ComparedAt(keys, cmp, p, q, r);
    assert r == (keys[p], keys[q]) || r == (keys[q], keys[p]);
    assert keys[..k][p] == keys[p];
  }

  lemma InConcat<T>(a: seq<T>, b: seq<T>, x: T)
    ensures x in a + b <==> x in a || x in b
  {
  }

  lemma ConcatNoRepeats<T>(a: seq<T>, b: seq<T>)
    requires NoRepeats(a) && NoRepeats(b)
    requires forall x :: x in a ==> x !in b
    ensures NoRepeats(a + b)
  {
    forall i, j | 0 <= i < j < |a + b| ensures (a + b)[i] != (a + b)[j] {
      if i < |a| && j >= |a| {
        assert (a + b)[i] in a && (a + b)[j] == b[j - |a|];
      }
    }
  }

  lemma {:induction false} RowNoRepeats<T(!new)>(keys: seq<T>, cmp: (T, T) -> seq<(T, T)>, i: nat, j: nat)
    requires NoRepeats(keys) && Oriented(cmp) && i < |keys| && j <= |keys|
    ensures NoRepeats(Row(keys, cmp, i, j))
  {
    if j > i + 1 {
      RowNoRepeats(keys, cmp, i, j - 1);
      var prev := Row(keys, cmp, i, j - 1);
      var w := keys[j - 1];
      var c := cmp(keys[i], w);
      forall r | r in prev ensures r !in c {
        RowMembers(keys, cmp, i, j - 1, r);
        var q :| i < q < j - 1 && ComparedAt(keys, cmp, i, q, r);
        assert r == (keys[i], keys[q]) || r == (keys[q], keys[i]);
        assert keys[q] != w && keys[i] != w && keys[q] != keys[i];
        assert forall s :: s in c ==> s == (keys[i], w) || s == (w, keys[i]);
      }
      assert |c| <= 1;
      ConcatNoRepeats(prev, c);
    }
  }

  lemma {:induction false} RowsNoRepeats<T(!new)>(keys: seq<T>, cmp: (T, T) -> seq<(T, T)>, k: nat)
    requires NoRepeats(keys) && Oriented(cmp) && k <= |keys|
    ensures NoRepeats(Rows(keys, cmp, k))
  {
    if k > 0 {
      RowsNoRepeats(keys, cmp, k - 1);
      RowNoRepeats(keys, cmp, k - 1, |keys|);
      var prev := Rows(keys, cmp, k - 1);
      var row := Row(keys, cmp, k - 1, |keys|);
      forall r | r in prev ensures r !in row {
        RowsEarlier(keys, cmp, k - 1, r);
        if r in row {
          RowLater(keys, cmp, k - 1, |keys|, r);
        }
      }
      ConcatNoRepeats(prev, row);
    }
  }

  /** Over distinct keys, no relation is appended twice and never both
      directions of a pair: each unordered pair is compared once. */
  lemma ScanOnce<T(!new)>(keys: seq<T>, cmp: (T, T) -> seq<(T, T)>, a: T, b: T)
    requires NoRepeats(keys) && Oriented(cmp)
    ensures NoRepeats(Scan(keys, cmp))
    ensures (a, a) !in Scan(keys, cmp)
    ensures (a, b) in Scan(keys, cmp) ==> (b, a) !in Scan(keys, cmp)
  {
    RowsNoRepeats(keys, cmp, |keys|);
    forall p, q ensures !ComparedAt(keys, cmp, p, q, (a, a)) {
      if 0 <= p < q < |keys| {
        assert keys[p] != keys[q];
      }
    }
    ScanMembers(keys, cmp, (a, a));
    ScanMembers(keys, cmp, (a, b));
    ScanMembers(keys, cmp, (b, a));
    if (a, b) in Scan(keys, cmp) {
      var p, q :| ComparedAt(keys, cmp, p, q, (a, b));
      forall p', q' ensures !ComparedAt(keys, cmp, p', q', (b, a)) {
        if 0 <= p' < q' < |keys| {
          NotReversed(keys, cmp, p, q, a, b, p', q');
        }
      }
    }
  }

  lemma NotReversed<T(!new)>(keys: seq<T>, cmp: (T, T) -> seq<(T, T)>, p: int, q: int, a: T, b: T, p': int, q': int)
    requires NoRepeats(keys) && Oriented(cmp)
    requires ComparedAt(keys, cmp, p, q, (a, b))
    requires 0 <= p' < q' < |keys|
    ensures (b, a) !in cmp(keys[p'], keys[q'])
  {
    var c := cmp(keys[p], keys[q]);
    assert (a, b) == (keys[p], keys[q]) || (a, b) == (keys[q], keys[p]);
    assert a != b;
    if {keys[p'], keys[q']} == {a, b} {
      assert {keys[p], keys[q]} == {a, b};
      SamePair(keys, p, q, p', q');
      assert |c| <= 1 && (a, b) in c;
      assert c == [(a, b)];
    }
  }

  lemma SamePair<T>(keys: seq<T>, p: int, q: int, p': int, q': int)
    requires NoRepeats(keys)
    requires 0 <= p < q < |keys| && 0 <= p' < q' < |keys|
    requires {keys[p], keys[q]} == {keys[p'], keys[q']}
    ensures p == p' && q == q'
  {
    assert keys[p] in {keys[p'], keys[q']};
    assert keys[q] in {keys[p'], keys[q']};
  }

  // ---------------------------------------------------------------------------
  // Scans over every key, or every ordered pair of keys.

  /** A loop over every key whose body compares `keys[i]` with the last key
      only (INRIASAC as written): what the first `k` rounds append. */
  function LastKeyRelations<T(==)>(keys: seq<T>, cmp: (T, T) -> seq<(T, T)>, k: nat): seq<(T, T)>
    requires k <= |keys|
  {
    if k == 0 then []
    else LastKeyRelations(keys, cmp, k - 1) + cmp(keys[k - 1], keys[|keys| - 1])
  }

  lemma {:induction false} LastKeyMembers<T>(keys: seq<T>, cmp: (T, T) -> seq<(T, T)>, k: nat, r: (T, T))
    requires k <= |keys|
    ensures r in LastKeyRelations(keys, cmp, k) <==> exists i :: 0 <= i < k && r in cmp(keys[i], keys[|keys| - 1])
  {
    if k > 0 {
      LastKeyMembers(keys, cmp, k - 1, r);
      if r in cmp(keys[k - 1], keys[|keys| - 1]) {
        assert 0 <= k - 1 < k;
      }
    }
  }

  /** A nested loop over all ordered pairs of keys, `w1` against
      `keys[0 .. j - 1]`. */
  function InnerRelations<T(==)>(keys: seq<T>, cmp: (T, T) -> seq<(T, T)>, w1: T, j: nat): seq<(T, T)>
    requires j <= |keys|
  {
    if j == 0 then [] else InnerRelations(keys, cmp, w1, j - 1) + cmp(w1, keys[j - 1])
  }

  /** Every `w1` of the first `k` keys against every `w2`. */
  function AllPairsRelations<T(==)>(keys: seq<T>, cmp: (T, T) -> seq<(T, T)>, k: nat): seq<(T, T)>
    requires k <= |keys|
  {
    if k == 0 then [] else AllPairsRelations(keys, cmp, k - 1) + InnerRelations(keys, cmp, keys[k - 1], |keys|)
  }

  lemma {:induction false} InnerMembers<T>(keys: seq<T>, cmp: (T, T) -> seq<(T, T)>, w1: T, j: nat, r: (T, T))
    requires j <= |keys|
    ensures r in InnerRelations(keys, cmp, w1, j) <==> exists q :: 0 <= q < j && r in cmp(w1, keys[q])
  {
    if j > 0 {
      InnerMembers(keys, cmp, w1, j - 1, r);
      if r in cmp(w1, keys[j - 1]) {
        assert 0 <= j - 1 < j;
      }
    }
  }

  /** The intended body appends `r` for `w1 = keys[p]`, `w2 = keys[q]`. */
  predicate JudgedAt<T(==)>(keys: seq<T>, cmp: (T, T) -> seq<(T, T)>, p: int, q: int, r: (T, T))
  {
    0 <= p < |keys| && 0 <= q < |keys| && r in cmp(keys[p], keys[q])
  }

  /** The rows of the nested loop, one list per `w1`. */
  function InnerList<T(==)>(keys: seq<T>, cmp: (T, T) -> seq<(T, T)>, k: nat): (rs: seq<seq<(T, T)>>)
    requires k <= |keys|
    ensures |rs| == k && forall p :: 0 <= p < k ==> rs[p] == InnerRelations(keys, cmp, keys[p], |keys|)
  {
    seq(k, p requires 0 <= p < k => InnerRelations(keys, cmp, keys[p], |keys|))
  }

  lemma {:induction false} AllPairsFlatten<T>(keys: seq<T>, cmp: (T, T) -> seq<(T, T)>, k: nat)
    requires k <= |keys|
    ensures AllPairsRelations(keys, cmp, k) == Flatten(InnerList(keys, cmp, k))
  {
    if k > 0 {
      AllPairsFlatten(keys, cmp, k - 1);
      assert InnerList(keys, cmp, k)[..k - 1] == InnerList(keys, cmp, k - 1);
    }
  }

  lemma AllPairsSound<T>(keys: seq<T>, cmp: (T, T) -> seq<(T, T)>, k: nat, r: (T, T))
    requires k <= |keys|
    requires r in AllPairsRelations(keys, cmp, k)
    ensures exists p, q :: p < k && JudgedAt(keys, cmp, p, q, r)
  {
    AllPairsFlatten(keys, cmp, k);
    FlattenSound(InnerList(keys, cmp, k), r);
    var p :| 0 <= p < k && r in InnerList(keys, cmp, k)[p];
    InnerMembers(keys, cmp, keys[p], |keys|, r);
    var q :| 0 <= q < |keys| && r in cmp(keys[p], keys[q]);
    assert JudgedAt(keys, cmp, p, q, r);
  }

  lemma AllPairsComplete<T>(keys: seq<T>, cmp: (T, T) -> seq<(T, T)>, k: nat, p: int, q: int, r: (T, T))
    requires k <= |keys|
    requires p < k && JudgedAt(keys, cmp, p, q, r)
    ensures r in AllPairsRelations(keys, cmp, k)
  {
    InnerMembers(keys, cmp, keys[p], |keys|, r);
    AllPairsFlatten(keys, cmp, k);
    FlattenComplete(InnerList(keys, cmp, k), p, r);
  }
}
