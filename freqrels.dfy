/**
 * The frequency heuristic shared by hrex/methods/df.py and hrex/methods/tf.py.
 *
 * Both `identifyRelations` methods scan the pairs of the key list of a
 * DictWords and, for two distinct words, append `(broader, narrower)` with the
 * more frequent word first; equal frequencies append nothing. DF reads the
 * stored number as a document frequency and TF as a term frequency; the code
 * is the same. The lemmas say what one call appends: exactly the pairs of
 * stored words whose first word is strictly more frequent, each once.
 */
module FrequencyRelations {
  import opened PyBuiltins
  import opened Dictionaries
  import opened PairScan

  /** The stored frequency of a listed word. */
  function Freq(m: map<string, Entry>, w: string): int
  {
    if w in m then m[w].1 else 0
  }

  /** What the loop body appends for `w1` (frequency `f1`) against `w2`. */
  function Compare(w1: string, f1: int, w2: string, f2: int): seq<Rel>
  {
    if w1 != w2 then
      if f1 > f2 then [(w1, w2)] else if f2 > f1 then [(w2, w1)] else []
    else []
  }

  function FreqCmp(m: map<string, Entry>): (string, string) -> seq<Rel>
  {
    (a: string, b: string) => Compare(a, Freq(m, a), b, Freq(m, b))
  }

  /** Everything one call of `identifyRelations` appends. */
  function Relations(keys: seq<string>, m: map<string, Entry>): seq<Rel>
  {
    Scan(keys, FreqCmp(m))
  }

  /** The set the heuristic is after: ordered pairs of stored words whose first
      word is strictly more frequent. */
  function Dominance(m: map<string, Entry>): set<Rel>
  {
    set a, b | a in m && b in m && m[a].1 > m[b].1 :: (a, b)
  }

  lemma FreqCmpOriented(m: map<string, Entry>)
    ensures Oriented(FreqCmp(m))
  {
    forall a, b ensures |FreqCmp(m)(a, b)| <= 1 &&
                        forall r :: r in FreqCmp(m)(a, b) ==> r == (a, b) || r == (b, a) {
      assert FreqCmp(m)(a, b) == Compare(a, Freq(m, a), b, Freq(m, b));
    }
  }

  /** With `keys` listing the dictionary, `(a, b)` is appended exactly when
      both are stored words and `a` is strictly more frequent than `b`. */
  lemma RelationsMembers(keys: seq<string>, m: map<string, Entry>, a: string, b: string)
    requires Enumerates(keys, m.Keys)
    ensures (a, b) in Relations(keys, m) <==> a in m && b in m && m[a].1 > m[b].1
  {
    var cmp := FreqCmp(m);
    ScanMembers(keys, cmp, (a, b));
    if (a, b) in Relations(keys, m) {
      var p, q :| ComparedAt(keys, cmp, p, q, (a, b));
      assert cmp(keys[p], keys[q]) == Compare(keys[p], m[keys[p]].1, keys[q], m[keys[q]].1);
    }
    if a in m && b in m && m[a].1 > m[b].1 {
      var p :| 0 <= p < |keys| && keys[p] == a;
      var q :| 0 <= q < |keys| && keys[q] == b;
      if p < q {
        assert cmp(keys[p], keys[q]) == [(a, b)];
        assert ComparedAt(keys, cmp, p, q, (a, b));
      } else {
        assert p != q;
        assert cmp(keys[q], keys[p]) == [(a, b)];
        assert ComparedAt(keys, cmp, q, p, (a, b));
      }
    }
  }

  /** Never a self-pair, never both directions, and the broader word is always
      strictly more frequent than the narrower one. */
  lemma RelationsAntisymmetric(keys: seq<string>, m: map<string, Entry>, a: string, b: string)
    requires Enumerates(keys, m.Keys)
    ensures (a, a) !in Relations(keys, m)
    ensures (a, b) in Relations(keys, m) ==> (b, a) !in Relations(keys, m)
    ensures (a, b) in Relations(keys, m) ==> a in m && b in m && m[a].1 > m[b].1
  {
    RelationsMembers(keys, m, a, a);
    RelationsMembers(keys, m, a, b);
    RelationsMembers(keys, m, b, a);
  }

  /** Each dominance pair is appended exactly once, so one call appends as
      many relations as there are ordered pairs of words with unequal
      frequency, i.e. one per unordered pair with unequal frequency. */
  lemma RelationsExactlyOnce(keys: seq<string>, m: map<string, Entry>)
    requires Enumerates(keys, m.Keys)
    ensures NoRepeats(Relations(keys, m))
    ensures (set r | r in Relations(keys, m)) == Dominance(m)
    ensures |Relations(keys, m)| == |Dominance(m)|
  {
    FreqCmpOriented(m);
    ScanOnce(keys, FreqCmp(m), "", "");
    forall r | r in Relations(keys, m) ensures r in Dominance(m) {
      RelationsMembers(keys, m, r.0, r.1);
    }
    forall r | r in Dominance(m) ensures r in Relations(keys, m) {
      RelationsMembers(keys, m, r.0, r.1);
    }
    DistinctCardinality(Relations(keys, m));
  }

  /** The nested loops of `identifyRelations`, computing what they append. */
  method CompareAll(keys: seq<string>, m: map<string, Entry>) returns (out: seq<Rel>)
    requires forall i :: 0 <= i < |keys| ==> keys[i] in m
    ensures out == Relations(keys, m)
  {
    out := [];
    var i := 0;
    while i < |keys|
      invariant 0 <= i <= |keys|
      invariant out == Rows(keys, FreqCmp(m), i)
    {
      var w1 := keys[i];
      var f1 := m[w1].1;
      ghost var before := out;
      var j := i + 1;
      while j < |keys|
        invariant i + 1 <= j <= |keys|
        invariant out == before + Row(keys, FreqCmp(m), i, j)
      {
        var w2 := keys[j];
        var f2 := m[w2].1;
        assert FreqCmp(m)(w1, w2) == Compare(w1, f1, w2, f2);
        if w1 != w2 {
          if f1 > f2 {
            out := out + [(w1, w2)];
          } else if f2 > f1 {
            out := out + [(w2, w1)];
          }
        }
        RowSnoc(keys, FreqCmp(m), i, j);
        j := j + 1;
      }
      assert Rows(keys, FreqCmp(m), i + 1) == Rows(keys, FreqCmp(m), i) + Row(keys, FreqCmp(m), i, |keys|);
      i := i + 1;
    }
  }
}
