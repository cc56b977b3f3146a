/**
 * The WordNet gold standard of hrex/resources/wordnet.py. NLTK's
 * `wn.synsets(word, pos=wn.NOUN)` is the parameter `nounSynsets`, giving each
 * noun synset of a word by its lemma names; the tables `_loadSynsets` fills
 * are the fields of `Gold`.
 */
module WordNet {
  import opened PyBuiltins
  import opened Dictionaries
  import opened PairScan

  /** `self.dwords` (word -> (id, tf)), `self.dHset` (id -> hypernym lemmas) and
      `self.dwsyn` (id -> lemmas of the word's synsets). */
  datatype Gold = Gold(dwords: map<string, Entry>, dHset: map<int, set<string>>, dwsyn: map<int, set<string>>)

  // ---------------------------------------------------------------------------
  // `allLemmas`.

  /** `allLemmas(word)` as written: each round rebinds `lemmas` to the synset's
      lemma names and then extends the list with itself, so only the last noun
      synset's names survive; the word itself only when it has no noun synset. */
  method AllLemmas(nounSynsets: string -> seq<seq<string>>, word: string) returns (r: set<string>)
    ensures nounSynsets(word) == [] ==> r == {word}
    ensures nounSynsets(word) != [] ==> forall w :: w in r <==> w in nounSynsets(word)[|nounSynsets(word)| - 1]
  {
    var syns := nounSynsets(word);
    var lemmas := [word];
    var i := 0;
    while i < |syns|
      invariant 0 <= i <= |syns|
      invariant i == 0 ==> lemmas == [word]
      invariant i > 0 ==> lemmas == syns[i - 1] + syns[i - 1]
    {
      lemmas := syns[i];
      lemmas := lemmas + lemmas;
      i := i + 1;
    }
    r := set w | w in lemmas;
  }

  /** The evidently intended `allLemmas`: the word and the lemma names of all
      its noun synsets. */
  method AllLemmasUnion(nounSynsets: string -> seq<seq<string>>, word: string) returns (r: set<string>)
    ensures forall w :: w in r <==> w == word || exists k :: 0 <= k < |nounSynsets(word)| && w in nounSynsets(word)[k]
  {
    var syns := nounSynsets(word);
    var lemmas := [word];
    var i := 0;
    while i < |syns|
      invariant 0 <= i <= |syns|
      invariant forall w :: w in lemmas <==> w == word || exists k :: 0 <= k < i && w in syns[k]
    {
      lemmas := lemmas + syns[i];
      i := i + 1;
    }
    r := set w | w in lemmas;
  }

  /** 'bank' with the synsets {bank, depository} and {bank, riverside}: as
      written 'depository' is lost. */
  method AllLemmasExample() returns (asWritten: set<string>, intended: set<string>)
    ensures "depository" !in asWritten && "depository" in intended
  {
    var ns := (w: string) => if w == "bank" then [["bank", "depository"], ["bank", "riverside"]] else [];
    asWritten := AllLemmas(ns, "bank");
    intended := AllLemmasUnion(ns, "bank");
    assert "depository" in ns("bank")[0];
  }

  // ---------------------------------------------------------------------------
  // `isHypernym` and `hasWord`.

  /** The test of `isHypernym` on two ids: `dHset[idw2]` is looked up first,
      then `dwsyn[idw1]`. */
  function HypernymTest(g: Gold, id1: int, id2: int): Result<bool>
  {
    if id2 !in g.dHset || id1 !in g.dwsyn then Err(KeyError)
    else Ok(g.dHset[id2] * g.dwsyn[id1] != {})
  }

  /** `isHypernym(v1, v2, mode)`: in word mode the ids are unpacked from
      `self.dwords`; any other mode leaves `idw2` unbound (UnboundLocalError,
      a NameError). */
  function IsHypernym(g: Gold, v1: Value, v2: Value, mode: string): Result<bool>
  {
    if mode == "id" then
      if v1.IntValue? && v2.IntValue? then HypernymTest(g, v1.i, v2.i) else Err(KeyError)
    else if mode == "word" then
      if v1.StrValue? && v1.s in g.dwords && v2.StrValue? && v2.s in g.dwords then
        HypernymTest(g, g.dwords[v1.s].0, g.dwords[v2.s].0)
      else Err(KeyError)
    else Err(NameError)
  }

  /** True exactly when the hypernym lemmas of `v2` meet the lemmas of `v1`;
      a KeyError exactly when one of the two is not loaded. */
  lemma IsHypernymCases(g: Gold, id1: int, id2: int)
    ensures IsHypernym(g, IntValue(id1), IntValue(id2), "id") == Ok(true) <==>
              id2 in g.dHset && id1 in g.dwsyn && g.dHset[id2] * g.dwsyn[id1] != {}
    ensures IsHypernym(g, IntValue(id1), IntValue(id2), "id") == Ok(false) <==>
              id2 in g.dHset && id1 in g.dwsyn && g.dHset[id2] * g.dwsyn[id1] == {}
    ensures IsHypernym(g, IntValue(id1), IntValue(id2), "id") == Err(KeyError) <==>
              id2 !in g.dHset || id1 !in g.dwsyn
  {
  }

  /** Word mode is id mode on the stored ids; other modes fail. */
  lemma IsHypernymModes(g: Gold, v1: Value, v2: Value, mode: string)
    ensures mode != "id" && mode != "word" ==> IsHypernym(g, v1, v2, mode) == Err(NameError)
    ensures mode == "word" && v1.StrValue? && v1.s in g.dwords && v2.StrValue? && v2.s in g.dwords ==>
              IsHypernym(g, v1, v2, mode) == IsHypernym(g, IntValue(g.dwords[v1.s].0), IntValue(g.dwords[v2.s].0), "id")
    ensures mode == "word" && !(v1.StrValue? && v1.s in g.dwords && v2.StrValue? && v2.s in g.dwords) ==>
              IsHypernym(g, v1, v2, mode) == Err(KeyError)
  {
  }

  predicate HasWord(nounSynsets: string -> seq<seq<string>>, word: string)
  {
    nounSynsets(word) != []
  }

  // ---------------------------------------------------------------------------
  // `filterDictionary` and `allRelations`.

  /** The words WordNet has, with their `(id, tf)`. */
  function Kept(nounSynsets: string -> seq<seq<string>>, dic: map<string, Entry>): map<string, Entry>
  {
    map w | w in dic && HasWord(nounSynsets, w) :: dic[w]
  }

  /** `filterDictionary(dic)`: an empty `dic` means `self.dwords`, and both
      empty exit; otherwise exactly the words with a noun synset are kept,
      with their `(id, tf)`. */
  method FilterDictionary(g: Gold, nounSynsets: string -> seq<seq<string>>, given: map<string, Entry>)
    returns (r: Result<map<string, Entry>>)
    ensures |given| == 0 && |g.dwords| == 0 ==> r == Err(SystemExit)
    ensures !(|given| == 0 && |g.dwords| == 0) ==>
              r == Ok(Kept(nounSynsets, if |given| > 0 then given else g.dwords))
  {
    if |given| == 0 && |g.dwords| == 0 {
      return Err(SystemExit);
    }
    var dic := if |given| > 0 then given else g.dwords;
    var dicf: map<string, Entry> := map[];
    var todo := dic.Keys;
    while todo != {}
      invariant todo <= dic.Keys
      invariant dicf == map w | w in dic.Keys - todo && HasWord(nounSynsets, w) :: dic[w]
      decreases todo
    {
      NonEmptySet(todo);
      var word :| word in todo;
      if nounSynsets(word) != [] {
        var (id, tf) := dic[word];
        dicf := InsertPair(dicf, word, (id, tf));
      }
      todo := todo - {word};
    }
    assert dic.Keys - todo == dic.Keys;
    r := Ok(dicf);
  }

  /** Keeping is a filter: it only drops words, keeps the rest unchanged, and
      keeping twice is keeping once. */
  lemma KeptFilters(nounSynsets: string -> seq<seq<string>>, dic: map<string, Entry>)
    ensures Kept(nounSynsets, dic).Keys <= dic.Keys
    ensures forall w :: w in dic ==> (w in Kept(nounSynsets, dic) <==> HasWord(nounSynsets, w))
    ensures Kept(nounSynsets, Kept(nounSynsets, dic)) == Kept(nounSynsets, dic)
  {
  }

  /** The body of `allRelations` for `(w1, w2)`. */
  function RelatedPair(g: Gold, w1: string, w2: string): seq<Rel>
  {
    if w1 != w2 && IsHypernym(g, StrValue(w1), StrValue(w2), "word") == Ok(true) then [(w1, w2)] else []
  }

  function Related(g: Gold): (string, string) -> seq<Rel>
  {
    (w1: string, w2: string) => RelatedPair(g, w1, w2)
  }

  /** Every stored word WordNet has was loaded by `_loadSynsets`. */
  ghost predicate Loaded(g: Gold, nounSynsets: string -> seq<seq<string>>)
  {
    forall w :: w in g.dwords && HasWord(nounSynsets, w) ==> g.dwords[w].0 in g.dHset && g.dwords[w].0 in g.dwsyn
  }

  /** `allRelations()`, with `keys` the order in which the filtered dictionary
      `dicf` is iterated: every ordered pair of kept words is tested. */
  method AllRelations(g: Gold, nounSynsets: string -> seq<seq<string>>, keys: seq<string>) returns (r: Result<seq<Rel>>)
    requires Enumerates(keys, Kept(nounSynsets, g.dwords).Keys)
    requires Loaded(g, nounSynsets)
    ensures |g.dwords| == 0 ==> r == Err(SystemExit)
    ensures |g.dwords| > 0 ==> r == Ok(AllPairsRelations(keys, Related(g), |keys|))
    ensures |g.dwords| > 0 ==> FoundExactly(g, nounSynsets, r.value)
  {
    var f := FilterDictionary(g, nounSynsets, map[]);
    if f.Err? {
      return Err(f.error);
    }
    var dicf := f.value;
    assert Enumerates(keys, dicf.Keys);
    var rels := RelatedPairs(g, keys);
    r := Ok(rels);
    AllRelationsFound(g, nounSynsets, keys);
  }

  /** The two `for ... in dicf` loops of `allRelations`, over the order `keys`. */
  method RelatedPairs(g: Gold, keys: seq<string>) returns (rels: seq<Rel>)
    ensures rels == AllPairsRelations(keys, Related(g), |keys|)
  {
    rels := [];
    var i := 0;
    while i < |keys|
      invariant 0 <= i <= |keys|
      invariant rels == AllPairsRelations(keys, Related(g), i)
    {
      var w1 := keys[i];
      ghost var before := rels;
      var j := 0;
      while j < |keys|
        invariant 0 <= j <= |keys|
        invariant rels == before + InnerRelations(keys, Related(g), w1, j)
      {
        var w2 := keys[j];
        assert Related(g)(w1, w2) == RelatedPair(g, w1, w2);
        if w1 != w2 {
          var h := IsHypernym(g, StrValue(w1), StrValue(w2), "word");
          if h == Ok(true) {
            rels := rels + [(w1, w2)];
          }
        }
        j := j + 1;
      }
      i := i + 1;
    }
  }

  /** `rels` holds `(a, b)` exactly when `a` and `b` are distinct stored words
      with noun synsets and the hypernym lemmas of `b` meet the lemmas of `a`. */
  ghost predicate FoundExactly(g: Gold, nounSynsets: string -> seq<seq<string>>, rels: seq<Rel>)
    requires Loaded(g, nounSynsets)
  {
    forall a, b :: (a, b) in rels <==>
      a in g.dwords && b in g.dwords && HasWord(nounSynsets, a) && HasWord(nounSynsets, b) && a != b &&
      g.dHset[g.dwords[b].0] * g.dwsyn[g.dwords[a].0] != {}
  }

  /** The pairs found over an enumeration of the kept words are exactly the
      related ones. */
  lemma AllRelationsFound(g: Gold, nounSynsets: string -> seq<seq<string>>, keys: seq<string>)
    requires Enumerates(keys, Kept(nounSynsets, g.dwords).Keys)
    requires Loaded(g, nounSynsets)
    ensures FoundExactly(g, nounSynsets, AllPairsRelations(keys, Related(g), |keys|))
  {
    forall a, b {
      AllRelationsMembers(g, nounSynsets, keys, a, b);
    }
  }

  /** The body relates two kept words exactly when they differ and the
      hypernym lemmas of the second meet the lemmas of the first. */
  lemma RelatedPairCases(g: Gold, nounSynsets: string -> seq<seq<string>>, w1: string, w2: string, r: Rel)
    requires Loaded(g, nounSynsets)
    requires w1 in Kept(nounSynsets, g.dwords) && w2 in Kept(nounSynsets, g.dwords)
    ensures r in Related(g)(w1, w2) <==>
              r == (w1, w2) && w1 != w2 && g.dHset[g.dwords[w2].0] * g.dwsyn[g.dwords[w1].0] != {}
  {
    assert Related(g)(w1, w2) == RelatedPair(g, w1, w2);
  }

  /** With `keys` listing the filtered dictionary, `(a, b)` is found exactly
      when `a` and `b` are distinct stored words with noun synsets and the
      hypernym lemmas of `b` meet the lemmas of `a`. */
  lemma AllRelationsMembers(g: Gold, nounSynsets: string -> seq<seq<string>>, keys: seq<string>, a: string, b: string)
    requires Enumerates(keys, Kept(nounSynsets, g.dwords).Keys)
    requires Loaded(g, nounSynsets)
    ensures (a, b) in AllPairsRelations(keys, Related(g), |keys|) <==>
              a in g.dwords && b in g.dwords && HasWord(nounSynsets, a) && HasWord(nounSynsets, b) && a != b &&
              g.dHset[g.dwords[b].0] * g.dwsyn[g.dwords[a].0] != {}
  {
    var cmp := Related(g);
    var kept := Kept(nounSynsets, g.dwords);
    if (a, b) in AllPairsRelations(keys, cmp, |keys|) {
      AllPairsSound(keys, cmp, |keys|, (a, b));
      var p, q :| p < |keys| && JudgedAt(keys, cmp, p, q, (a, b));
      RelatedPairCases(g, nounSynsets, keys[p], keys[q], (a, b));
    }
    if a in kept && b in kept && a != b && g.dHset[g.dwords[b].0] * g.dwsyn[g.dwords[a].0] != {} {
      var p :| 0 <= p < |keys| && keys[p] == a;
      var q :| 0 <= q < |keys| && keys[q] == b;
      RelatedPairCases(g, nounSynsets, a, b, (a, b));
      AllPairsComplete(keys, cmp, |keys|, p, q, (a, b));
    }
  }

  /** No word is related to itself. */
  lemma NoSelfRelations(g: Gold, nounSynsets: string -> seq<seq<string>>, keys: seq<string>, a: string)
    requires Enumerates(keys, Kept(nounSynsets, g.dwords).Keys)
    requires Loaded(g, nounSynsets)
    ensures (a, a) !in AllPairsRelations(keys, Related(g), |keys|)
  {
    AllRelationsMembers(g, nounSynsets, keys, a, a);
  }
}
