/**
 * The INRIASAC method of hrex/methods/inriasac.py, as written.
 *
 * The documented heuristic makes `term_j` a candidate hypernym of `term_i`
 * when the two share a context and `term_j` has the higher document
 * frequency. The code's comparison, however, sits after the inner loop over
 * the dictionary, which only rebinds `w2`, `id2`, `df2` and `ctx2`: each `w1`
 * is compared with the last key alone. `LastKeyRelations` is what the code
 * appends; `CandidateRelations` is the comparison inside the inner loop, the
 * evidently intended reading, kept apart as a deviation.
 *
 * `self.drels.getContexts` is not defined in any of the modelled files; it is
 * the parameter `getContexts`, giving a word id's context ids.
 */
module Inriasac {
  import opened PyBuiltins
  import opened Dictionaries
  import opened PairScan

  /** `set(ctx1).intersection(set(ctx2))` is non-empty. */
  predicate Meet(ctx1: seq<int>, ctx2: seq<int>)
  {
    exists x :: x in ctx1 && x in ctx2
  }

  /** The comparison for `w1` (df `df1`, contexts `ctx1`) against `w2`. */
  function Compare(w1: string, df1: int, ctx1: seq<int>, w2: string, df2: int, ctx2: seq<int>): seq<Rel>
  {
    if Meet(ctx1, ctx2) then
      if df1 > df2 then [(w1, w2)] else if df2 > df1 then [(w2, w1)] else []
    else []
  }

  /** The comparison of two words, as the loop body makes it for stored ones. */
  function Judge(m: map<string, Entry>, getContexts: int -> seq<int>): (string, string) -> seq<Rel>
  {
    (w1: string, w2: string) =>
      if w1 in m && w2 in m then Compare(w1, m[w1].1, getContexts(m[w1].0), w2, m[w2].1, getContexts(m[w2].0))
      else []
  }

  /** A relation needs shared contexts and a strictly higher df for its first
      word, and it involves the two words compared. */
  lemma CompareMembers(w1: string, df1: int, ctx1: seq<int>, w2: string, df2: int, ctx2: seq<int>, r: Rel)
    ensures |Compare(w1, df1, ctx1, w2, df2, ctx2)| <= 1
    ensures r in Compare(w1, df1, ctx1, w2, df2, ctx2) <==>
              Meet(ctx1, ctx2) && ((r == (w1, w2) && df1 > df2) || (r == (w2, w1) && df2 > df1))
  {
  }

  /** The same for two stored words. */
  lemma JudgeMembers(m: map<string, Entry>, getContexts: int -> seq<int>, w1: string, w2: string, r: Rel)
    requires w1 in m && w2 in m
    ensures |Judge(m, getContexts)(w1, w2)| <= 1
    ensures r in Judge(m, getContexts)(w1, w2) <==>
              Meet(getContexts(m[w1].0), getContexts(m[w2].0)) &&
              ((r == (w1, w2) && m[w1].1 > m[w2].1) || (r == (w2, w1) && m[w2].1 > m[w1].1))
  {
    CompareMembers(w1, m[w1].1, getContexts(m[w1].0), w2, m[w2].1, getContexts(m[w2].0), r);
  }

  /** At most one relation per `w1`. */
  lemma {:induction false} AtMostOnePerWord(keys: seq<string>, m: map<string, Entry>, getContexts: int -> seq<int>, k: nat)
    requires k <= |keys| && forall i :: 0 <= i < |keys| ==> keys[i] in m
    ensures |LastKeyRelations(keys, Judge(m, getContexts), k)| <= k
  {
    if k > 0 {
      AtMostOnePerWord(keys, m, getContexts, k - 1);
      JudgeMembers(m, getContexts, keys[k - 1], keys[|keys| - 1], ("", ""));
    }
  }

  /** The last key meets itself with equal df and appends nothing, so at most
      `|keys| - 1` relations are appended, and none for a one-word dictionary. */
  lemma LastKeyCount(keys: seq<string>, m: map<string, Entry>, getContexts: int -> seq<int>)
    requires forall i :: 0 <= i < |keys| ==> keys[i] in m
    ensures |keys| > 0 ==> Judge(m, getContexts)(keys[|keys| - 1], keys[|keys| - 1]) == []
    ensures |keys| > 0 ==> |LastKeyRelations(keys, Judge(m, getContexts), |keys|)| <= |keys| - 1
    ensures |keys| <= 1 ==> LastKeyRelations(keys, Judge(m, getContexts), |keys|) == []
  {
    if |keys| > 0 {
      var n := |keys| - 1;
      AtMostOnePerWord(keys, m, getContexts, n);
      CompareMembers(keys[n], m[keys[n]].1, getContexts(m[keys[n]].0), keys[n], m[keys[n]].1, getContexts(m[keys[n]].0), ("", ""));
      assert Judge(m, getContexts)(keys[n], keys[n]) == [];
      assert LastKeyRelations(keys, Judge(m, getContexts), |keys|) == LastKeyRelations(keys, Judge(m, getContexts), n) + [];
    }
  }

  /** With `keys` listing the dictionary, `(a, b)` is appended exactly when one
      of the two is the last key, they share a context and `a` has the strictly
      higher df. */
  lemma LastKeyOnly(keys: seq<string>, m: map<string, Entry>, getContexts: int -> seq<int>, a: string, b: string)
    requires Enumerates(keys, m.Keys) && |keys| > 0
    ensures (a, b) in LastKeyRelations(keys, Judge(m, getContexts), |keys|) <==>
              a in m && b in m && (a == keys[|keys| - 1] || b == keys[|keys| - 1]) &&
              Meet(getContexts(m[a].0), getContexts(m[b].0)) && m[a].1 > m[b].1
  {
    var last := keys[|keys| - 1];
    var cmp := Judge(m, getContexts);
    LastKeyMembers(keys, cmp, |keys|, (a, b));
    if (a, b) in LastKeyRelations(keys, cmp, |keys|) {
      var i :| 0 <= i < |keys| && (a, b) in cmp(keys[i], last);
      JudgeMembers(m, getContexts, keys[i], last, (a, b));
    }
    if a in m && b in m && (a == last || b == last) && Meet(getContexts(m[a].0), getContexts(m[b].0)) && m[a].1 > m[b].1 {
      var w := if a == last then b else a;
      var i :| 0 <= i < |keys| && keys[i] == w;
      JudgeMembers(m, getContexts, w, last, (a, b));
      assert (a, b) in cmp(keys[i], last);
    }
  }

  // ---------------------------------------------------------------------------
  // The evidently intended reading: the comparison inside the inner loop.

  function CandidateRelations(keys: seq<string>, m: map<string, Entry>, getContexts: int -> seq<int>): seq<Rel>
  {
    AllPairsRelations(keys, Judge(m, getContexts), |keys|)
  }

  /** The candidate hypernyms of the documentation: `(a, b)` is found exactly
      when both are stored words sharing a context and `a` has the strictly
      higher document frequency, whatever the order of the keys. */
  lemma CandidateMembers(keys: seq<string>, m: map<string, Entry>, getContexts: int -> seq<int>, a: string, b: string)
    requires Enumerates(keys, m.Keys)
    ensures (a, b) in CandidateRelations(keys, m, getContexts) <==>
              a in m && b in m && Meet(getContexts(m[a].0), getContexts(m[b].0)) && m[a].1 > m[b].1
  {
    var cmp := Judge(m, getContexts);
    if (a, b) in CandidateRelations(keys, m, getContexts) {
      AllPairsSound(keys, cmp, |keys|, (a, b));
      var p, q :| p < |keys| && JudgedAt(keys, cmp, p, q, (a, b));
      JudgeMembers(m, getContexts, keys[p], keys[q], (a, b));
    }
    if a in m && b in m && Meet(getContexts(m[a].0), getContexts(m[b].0)) && m[a].1 > m[b].1 {
      var p :| 0 <= p < |keys| && keys[p] == a;
      var q :| 0 <= q < |keys| && keys[q] == b;
      JudgeMembers(m, getContexts, a, b, (a, b));
      assert JudgedAt(keys, cmp, p, q, (a, b));
      AllPairsComplete(keys, cmp, |keys|, p, q, (a, b));
    }
  }

  /** Three words sharing one context, with decreasing df in key order: the
      code finds only the relations with the last word, missing `(a, b)`,
      which the intended comparison finds. */
  lemma LastKeyOnlyExample()
    ensures var m := map["a" := (1, 3), "b" := (2, 2), "c" := (3, 1)];
            var getContexts := (id: int) => [7];
            ("a", "b") !in LastKeyRelations(["a", "b", "c"], Judge(m, getContexts), 3) &&
            ("a", "c") in LastKeyRelations(["a", "b", "c"], Judge(m, getContexts), 3) &&
            ("a", "b") in CandidateRelations(["a", "b", "c"], m, getContexts)
  {
    var m := map["a" := (1, 3), "b" := (2, 2), "c" := (3, 1)];
    var getContexts := (id: int) => [7];
    var keys := ["a", "b", "c"];
    assert Enumerates(keys, m.Keys);
    assert Meet([7], [7]) by {
      assert 7 in [7];
    }
    LastKeyOnly(keys, m, getContexts, "a", "b");
    LastKeyOnly(keys, m, getContexts, "a", "c");
    CandidateMembers(keys, m, getContexts, "a", "b");
  }

  class INRIASAC {
    /** `self.dwords`: word -> (id, df). */
    const dwords: DictWords
    /** `self.drels.getContexts`. */
    const getContexts: int -> seq<int>
    /** `self.rels`: set to [] by the constructor only. */
    var rels: seq<Rel>

    constructor (dwords: DictWords, getContexts: int -> seq<int>)
      ensures this.dwords == dwords && this.getContexts == getContexts && rels == []
    {
      this.dwords := dwords;
      this.getContexts := getContexts;
      rels := [];
    }

    /** `identifyRelations()`, with `keys` the order in which Python iterates
        `self.dwords`. Appends to the relations of earlier calls. */
    method IdentifyRelations(keys: seq<string>)
      requires Enumerates(keys, dwords.items.Keys)
      modifies this
      ensures rels == old(rels) + LastKeyRelations(keys, Judge(dwords.items, getContexts), |keys|)
    {
      var m := dwords.items;
      var i := 0;
      while i < |keys|
        invariant 0 <= i <= |keys|
        invariant m == dwords.items
        invariant rels == old(rels) + LastKeyRelations(keys, Judge(m, getContexts), i)
      {
        var w1 := keys[i];
        var id1, df1 := m[w1].0, m[w1].1;
        var ctx1 := getContexts(id1);
        // The inner loop runs over the same non-empty dictionary, so it always
        // rebinds these; only the values of its last round survive it.
        var w2, id2, df2, ctx2 := w1, id1, df1, ctx1;
        var j := 0;
        while j < |keys|
          invariant 0 <= j <= |keys|
          invariant j > 0 ==> w2 == keys[j - 1] && id2 == m[w2].0 && df2 == m[w2].1 && ctx2 == getContexts(id2)
        {
          w2 := keys[j];
          id2, df2 := m[w2].0, m[w2].1;
          ctx2 := getContexts(id2);
          j := j + 1;
        }
        assert Judge(m, getContexts)(w1, w2) == Compare(w1, df1, ctx1, w2, df2, ctx2);
        if Meet(ctx1, ctx2) {
          if df1 > df2 {
            rels := rels + [(w1, w2)];
          } else if df2 > df1 {
            rels := rels + [(w2, w1)];
          }
        }
        i := i + 1;
      }
    }
  }
}
