/**
 * The Onto.PT gold standard of hrex/resources/ontopt.py: the set tests over
 * the tables an `OntoPT` object holds, the level-bounded hypernym search, the
 * dictionary filter, the relation-cleaning loop of `parse_rdf` and the pair
 * loop of `gen_OPT`.
 *
 * The tables are read from shelve files and a graph; here they are the
 * fields of `Onto`, and the graph's `get_parents` is the parameter `parents`.
 */
module OntoPT {
  import opened PyBuiltins
  import opened Dictionaries
  import opened PairScan

  /** The tables of an `OntoPT` object once loaded: `dsyns` (synset -> nouns),
      `dnouns` (noun -> synsets), `dcpt` (word -> (id, tf)), and, per corpus
      id, `dHs` (hypernym synsets) and `dwords` (own synsets). */
  datatype Onto = Onto(dsyns: map<int, seq<string>>, dnouns: map<string, seq<int>>,
                       dcpt: map<string, Entry>, dHs: map<int, set<int>>, dwords: map<int, set<int>>)

  // ---------------------------------------------------------------------------
  // `is_hypernym`.

  /** `id1` is a hypernym of `id2`: a hypernym synset of `id2` is a synset of `id1`. */
  predicate Over(o: Onto, id1: int, id2: int)
  {
    id2 in o.dHs && id1 in o.dwords && o.dHs[id2] * o.dwords[id1] != {}
  }

  /** Both tables hold an entry for `id`. */
  predicate Stored(o: Onto, id: int)
  {
    id in o.dHs && id in o.dwords
  }

  /** The comparison of two ids, with the lookups in the order Python makes them:
      `dHs[idw1]`, `dHs[idw2]`, `dwords[idw1]` and, only when the first test
      fails, `dwords[idw2]`. */
  function HypernymOrder(o: Onto, id1: int, id2: int): Result<int>
  {
    if id1 !in o.dHs || id2 !in o.dHs || id1 !in o.dwords then Err(KeyError)
    else if o.dHs[id2] * o.dwords[id1] != {} then Ok(1)
    else if id2 !in o.dwords then Err(KeyError)
    else if o.dHs[id1] * o.dwords[id2] != {} then Ok(-1)
    else Ok(0)
  }

  /** 1 when `id1` is over `id2`, which takes precedence; otherwise -1 when
      `id2` is over `id1`; otherwise 0. A KeyError exactly when a lookup that
      is reached misses. */
  lemma HypernymOrderCases(o: Onto, id1: int, id2: int)
    ensures HypernymOrder(o, id1, id2) == Err(KeyError) <==>
              id1 !in o.dHs || id2 !in o.dHs || id1 !in o.dwords || (!Over(o, id1, id2) && id2 !in o.dwords)
    ensures HypernymOrder(o, id1, id2) == Ok(1) <==> Stored(o, id1) && id2 in o.dHs && Over(o, id1, id2)
    ensures Stored(o, id1) && Stored(o, id2) ==>
              (HypernymOrder(o, id1, id2) == Ok(-1) <==> !Over(o, id1, id2) && Over(o, id2, id1))
    ensures Stored(o, id1) && Stored(o, id2) ==>
              (HypernymOrder(o, id1, id2) == Ok(0) <==> !Over(o, id1, id2) && !Over(o, id2, id1))
  {
  }

  /** Swapping the arguments negates the answer when exactly one direction
      holds and keeps 0; when both hold, both orders answer 1. */
  lemma HypernymOrderSwap(o: Onto, id1: int, id2: int)
    requires Stored(o, id1) && Stored(o, id2)
    ensures Over(o, id1, id2) != Over(o, id2, id1) ==>
              HypernymOrder(o, id2, id1) == Ok(-HypernymOrder(o, id1, id2).value)
    ensures HypernymOrder(o, id1, id2) == Ok(0) <==> HypernymOrder(o, id2, id1) == Ok(0)
    ensures Over(o, id1, id2) && Over(o, id2, id1) ==>
              HypernymOrder(o, id1, id2) == Ok(1) && HypernymOrder(o, id2, id1) == Ok(1)
  {
    HypernymOrderCases(o, id1, id2);
    HypernymOrderCases(o, id2, id1);
  }

  /** `is_hypernym(v1, v2, mode)` as written. In word mode `idw1 = self.dcpt[v1]`
      is the whole `(id, tf)` pair, which is no key of `dHs` (keyed by ids), so
      once `dcpt` holds a word the call raises KeyError (and so does a missing
      word). An unsupported mode, or word mode with an empty `dcpt`, exits. */
  function IsHypernymAsWritten(o: Onto, v1: Value, v2: Value, mode: string): Result<int>
  {
    if mode == "id" then
      if v1.IntValue? && v2.IntValue? then HypernymOrder(o, v1.i, v2.i) else Err(KeyError)
    else if mode == "word" && |o.dcpt| > 0 then Err(KeyError)
    else Err(SystemExit)
  }

  /** The evidently intended word mode: unpack the id, as `load_synsets` and
      `set_of_hypernyms` do. */
  function IsHypernym(o: Onto, v1: Value, v2: Value, mode: string): Result<int>
  {
    if mode == "id" then
      if v1.IntValue? && v2.IntValue? then HypernymOrder(o, v1.i, v2.i) else Err(KeyError)
    else if mode == "word" && |o.dcpt| > 0 then
      if v1.StrValue? && v1.s in o.dcpt && v2.StrValue? && v2.s in o.dcpt then
        HypernymOrder(o, o.dcpt[v1.s].0, o.dcpt[v2.s].0)
      else Err(KeyError)
    else Err(SystemExit)
  }

  /** Both readings exit on an unsupported mode or on word mode without words,
      and agree in id mode; in word mode over known words the written one
      always fails while the corrected one compares the words' ids. */
  lemma IsHypernymModes(o: Onto, v1: Value, v2: Value, mode: string)
    ensures mode != "id" && (mode != "word" || |o.dcpt| == 0) ==>
              IsHypernymAsWritten(o, v1, v2, mode) == Err(SystemExit) && IsHypernym(o, v1, v2, mode) == Err(SystemExit)
    ensures mode == "id" ==> IsHypernymAsWritten(o, v1, v2, mode) == IsHypernym(o, v1, v2, mode)
    ensures mode == "id" && v1.IntValue? && v2.IntValue? ==>
              IsHypernym(o, v1, v2, mode) == HypernymOrder(o, v1.i, v2.i)
    ensures mode == "word" && v1.StrValue? && v1.s in o.dcpt && v2.StrValue? && v2.s in o.dcpt ==>
              IsHypernymAsWritten(o, v1, v2, mode) == Err(KeyError) &&
              IsHypernym(o, v1, v2, mode) == HypernymOrder(o, o.dcpt[v1.s].0, o.dcpt[v2.s].0)
  {
  }

  /** 'animal' is a hypernym of 'cao': the written word mode raises KeyError,
      the corrected one answers -1. */
  lemma WordModeExample()
    ensures var o := Onto(map[], map[], map["cao" := (1, 5), "animal" := (2, 3)],
                          map[1 := {10}, 2 := {}], map[1 := {11}, 2 := {10}]);
            IsHypernymAsWritten(o, StrValue("cao"), StrValue("animal"), "word") == Err(KeyError) &&
            IsHypernym(o, StrValue("cao"), StrValue("animal"), "word") == Ok(-1)
  {
    var o := Onto(map[], map[], map["cao" := (1, 5), "animal" := (2, 3)],
                  map[1 := {10}, 2 := {}], map[1 := {11}, 2 := {10}]);
    assert "cao" in o.dcpt && "animal" in o.dcpt;
    assert 10 in o.dHs[1] * o.dwords[2];
  }

  // ---------------------------------------------------------------------------
  // `has_word` and `all_lemmas`.

  predicate HasWord(o: Onto, word: string)
  {
    word in o.dnouns
  }

  /** `all_lemmas(word)`: the nouns of every synset of `word`, as a set; a
      KeyError for an unknown word or a synset missing from `dsyns`. */
  method AllLemmas(o: Onto, word: string) returns (r: Result<set<string>>)
    ensures r.Err? <==> !HasWord(o, word) || exists q :: 0 <= q < |o.dnouns[word]| && o.dnouns[word][q] !in o.dsyns
    ensures r.Err? ==> r.error == KeyError
    ensures r.Ok? ==> HasWord(o, word) && forall x :: x in r.value <==>
              exists q :: 0 <= q < |o.dnouns[word]| && o.dnouns[word][q] in o.dsyns && x in o.dsyns[o.dnouns[word][q]]
  {
    if word !in o.dnouns {
      return Err(KeyError);
    }
    var syns := o.dnouns[word];
    var lemmas: seq<string> := [];
    var i := 0;
    while i < |syns|
      invariant 0 <= i <= |syns|
      invariant forall q :: 0 <= q < i ==> syns[q] in o.dsyns
      invariant forall x :: x in lemmas <==> exists q :: 0 <= q < i && syns[q] in o.dsyns && x in o.dsyns[syns[q]]
    {
      if syns[i] !in o.dsyns {
        return Err(KeyError);
      }
      lemmas := lemmas + o.dsyns[syns[i]];
      i := i + 1;
    }
    r := Ok(set x | x in lemmas);
  }

  // ---------------------------------------------------------------------------
  // `nlevel_synset_hypernyms`.

  /** The parents of every synset of `front`. */
  function Up(front: set<int>, parents: int -> seq<int>): set<int>
  {
    set s, p | s in front && p in parents(s) :: p
  }

  /** The synsets `l` levels above `start`. */
  function Frontier(start: set<int>, parents: int -> seq<int>, l: nat): set<int>
  {
    if l == 0 then start else Up(Frontier(start, parents, l - 1), parents)
  }

  /** Levels 1 to `n` together. */
  function Reach(start: set<int>, parents: int -> seq<int>, n: nat): set<int>
  {
    if n == 0 then {} else Reach(start, parents, n - 1) + Frontier(start, parents, n)
  }

  /** What `nlevel_synset_hypernyms` returns from the start synsets. */
  function NLevel(start: set<int>, parents: int -> seq<int>, levels: int): set<int>
  {
    if levels == 0 then start else if levels < 0 then {} else Reach(start, parents, levels)
  }

  lemma UpMembers(front: set<int>, parents: int -> seq<int>, x: int)
    ensures x in Up(front, parents) <==> exists s :: s in front && x in parents(s)
  {
  }

  lemma UpAdd(front: set<int>, s: int, parents: int -> seq<int>)
    ensures Up(front + {s}, parents) == Up(front, parents) + (set p | p in parents(s))
  {
    forall x | x in Up(front + {s}, parents) ensures x in Up(front, parents) + (set p | p in parents(s)) {
      UpMembers(front + {s}, parents, x);
      var t :| t in front + {s} && x in parents(t);
      if t != s {
        UpMembers(front, parents, x);
      }
    }
    forall x | x in Up(front, parents) ensures x in Up(front + {s}, parents) {
      UpMembers(front, parents, x);
      UpMembers(front + {s}, parents, x);
    }
    forall x | x in parents(s) ensures x in Up(front + {s}, parents) {
      UpMembers(front + {s}, parents, x);
      assert s in front + {s};
    }
  }

  lemma {:induction false} ReachSound(start: set<int>, parents: int -> seq<int>, n: nat, x: int)
    requires x in Reach(start, parents, n)
    ensures exists l: nat :: 1 <= l <= n && x in Frontier(start, parents, l)
  {
    if x in Frontier(start, parents, n) {
      assert 1 <= n <= n;
    } else {
      ReachSound(start, parents, n - 1, x);
    }
  }

  lemma {:induction false} ReachComplete(start: set<int>, parents: int -> seq<int>, n: nat, l: nat, x: int)
    requires 1 <= l <= n && x in Frontier(start, parents, l)
    ensures x in Reach(start, parents, n)
  {
    if l < n {
      ReachComplete(start, parents, n - 1, l, x);
    }
  }

  /** The search up to level `n` finds exactly the synsets of levels 1 to `n`. */
  lemma ReachMembers(start: set<int>, parents: int -> seq<int>, n: nat, x: int)
    ensures x in Reach(start, parents, n) <==> exists l: nat :: 1 <= l <= n && x in Frontier(start, parents, l)
  {
    if x in Reach(start, parents, n) {
      ReachSound(start, parents, n, x);
    }
    if exists l: nat :: 1 <= l <= n && x in Frontier(start, parents, l) {
      var l: nat :| 1 <= l <= n && x in Frontier(start, parents, l);
      ReachComplete(start, parents, n, l, x);
    }
  }

  /** A deeper search finds everything a shallower one does. */
  lemma {:induction false} ReachGrows(start: set<int>, parents: int -> seq<int>, m: nat, n: nat)
    requires m <= n
    ensures Reach(start, parents, m) <= Reach(start, parents, n)
  {
    if m < n {
      ReachGrows(start, parents, m, n - 1);
    }
  }

  lemma SetOfConcat(a: seq<int>, b: seq<int>)
    ensures (set x | x in a + b) == (set x | x in a) + (set x | x in b)
  {
  }

  /** One round of the level loop of `nlevel_synset_hypernyms`: the parents of
      every synset of the frontier, gathered in `ltmp`, each prefix of which is
      appended to `synH`. */
  method ParentsRound(stmp: set<int>, parents: int -> seq<int>, synH0: seq<int>) returns (ltmp: seq<int>, synH: seq<int>)
    ensures (set x | x in ltmp) == Up(stmp, parents)
    ensures (set x | x in synH) == (set x | x in synH0) + Up(stmp, parents)
  {
    ltmp, synH := [], synH0;
    var todo := stmp;
    while todo != {}
      invariant todo <= stmp
      invariant (set x | x in ltmp) == Up(stmp - todo, parents)
      invariant (set x | x in synH) == (set x | x in synH0) + (set x | x in ltmp)
      decreases todo
    {
      NonEmptyIntSet(todo);
      var synset :| synset in todo;
      UpAdd(stmp - todo, synset, parents);
      assert stmp - (todo - {synset}) == (stmp - todo) + {synset};
      SetOfConcat(ltmp, parents(synset));
      ltmp := ltmp + parents(synset);
      SetOfConcat(synH, ltmp);
      synH := synH + ltmp;
      todo := todo - {synset};
    }
    assert stmp - todo == stmp;
  }

  /** `nlevel_synset_hypernyms(word, levels)`, with `parents` for
      `self.grels.get_parents`: the word's own synsets for level 0, the
      synsets of levels 1 to `levels` otherwise, none for a negative level. */
  method NLevelSynsetHypernyms(o: Onto, parents: int -> seq<int>, word: string, levels: int)
    returns (r: Result<set<int>>)
    ensures !HasWord(o, word) ==> r == Err(KeyError)
    ensures HasWord(o, word) ==> r == Ok(NLevel((set s | s in o.dnouns[word]), parents, levels))
  {
    if word !in o.dnouns {
      return Err(KeyError);
    }
    var start := set s | s in o.dnouns[word];
    var stmp := start;
    var synH: seq<int> := [];
    if levels == 0 {
      return Ok(stmp);
    }
    var n := if levels < 0 then 0 else levels;
    var level := 0;
    while level < n
      invariant 0 <= level <= n
      invariant stmp == Frontier(start, parents, level)
      invariant (set x | x in synH) == Reach(start, parents, level)
    {
      var ltmp;
      ltmp, synH := ParentsRound(stmp, parents, synH);
      stmp := set x | x in ltmp;
      level := level + 1;
    }
    r := Ok(set x | x in synH);
  }

  // ---------------------------------------------------------------------------
  // `filter_dictionary`.

  /** The dictionary filtered: the argument when it is non-empty, else `self.dcpt`. */
  function Chosen(o: Onto, given: map<string, Entry>): map<string, Entry>
  {
    if |given| > 0 then given else o.dcpt
  }

  /** The result of `filter_dictionary`: keyed by word, or by id with `transpose`. */
  datatype Filtered = ByWord(words: map<string, Entry>) | ById(ids: map<int, (string, int)>)

  /** The words Onto.PT has, with their `(id, tf)`. */
  function KeptWords(o: Onto, dic: map<string, Entry>): map<string, Entry>
  {
    map w | w in dic && HasWord(o, w) :: dic[w]
  }

  /** The transposed result: its ids are exactly those of the kept words, each
      entry holds a kept word of that id, and an id that only one kept word
      carries holds that word's own `(word, tf)`. */
  ghost predicate TransposedKept(o: Onto, dic: map<string, Entry>, ids: map<int, (string, int)>)
  {
    (forall id :: id in ids <==> exists w :: w in dic && HasWord(o, w) && dic[w].0 == id) &&
    (forall id :: id in ids ==> ids[id].0 in dic && HasWord(o, ids[id].0) && dic[ids[id].0].0 == id) &&
    (forall id :: id in ids && (forall w :: w in dic && HasWord(o, w) && dic[w].0 == id ==> w == ids[id].0) ==>
       ids[id].1 == dic[ids[id].0].1)
  }

  /** The loop of `filter_dictionary` without `transpose`: `dfiltered[word] = (id, tf)`. */
  method KeepByWord(o: Onto, dcpt: map<string, Entry>) returns (byWord: map<string, Entry>)
    ensures byWord == KeptWords(o, dcpt)
  {
    byWord := map[];
    var todo := dcpt.Keys;
    while todo != {}
      invariant todo <= dcpt.Keys
      invariant byWord == map w | w in dcpt.Keys - todo && HasWord(o, w) :: dcpt[w]
      decreases todo
    {
      NonEmptySet(todo);
      var word :| word in todo;
      if word in o.dnouns {
        var (id, tf) := dcpt[word];
        byWord := InsertPair(byWord, word, (id, tf));
      }
      todo := todo - {word};
    }
  }

  /** The loop of `filter_dictionary` with `transpose`: `dfiltered[id] = (word, tf)`,
      which for an id already present adds `tf` to it. */
  method KeepById(o: Onto, dcpt: map<string, Entry>) returns (byId: map<int, (string, int)>)
    ensures TransposedKept(o, dcpt, byId)
  {
    byId := map[];
    var todo := dcpt.Keys;
    while todo != {}
      invariant todo <= dcpt.Keys
      invariant TransposedKept(o, dcpt - todo, byId)
      decreases todo
    {
      NonEmptySet(todo);
      var word :| word in todo;
      ghost var done := dcpt - todo;
      ghost var prev := byId;
      if word in o.dnouns {
        var (id, tf) := dcpt[word];
        byId := InsertPair(byId, id, (word, tf));
        KeepByIdStep(o, done, prev, word, dcpt[word]);
      }
      if word !in o.dnouns {
        KeepByIdSkip(o, done, byId, word, dcpt[word]);
      }
      assert dcpt - (todo - {word}) == done[word := dcpt[word]];
      todo := todo - {word};
    }
    assert dcpt - todo == dcpt;
  }

  lemma KeepByIdSkip(o: Onto, done: map<string, Entry>, ids: map<int, (string, int)>, word: string, e: Entry)
    requires TransposedKept(o, done, ids) && !HasWord(o, word)
    ensures TransposedKept(o, done[word := e], ids)
  {
    var done' := done[word := e];
    forall id | id in ids ensures exists w :: w in done' && HasWord(o, w) && done'[w].0 == id {
      var w :| w in done && HasWord(o, w) && done[w].0 == id;
      assert done'[w].0 == id;
    }
    forall id | id in ids && (forall w :: w in done' && HasWord(o, w) && done'[w].0 == id ==> w == ids[id].0)
      ensures ids[id].1 == done'[ids[id].0].1
    {
      forall w | w in done && HasWord(o, w) && done[w].0 == id ensures w == ids[id].0 {
        assert done'[w].0 == id;
      }
    }
  }

  lemma KeepByIdStep(o: Onto, done: map<string, Entry>, ids: map<int, (string, int)>, word: string, e: Entry)
    requires TransposedKept(o, done, ids) && word !in done && HasWord(o, word)
    ensures TransposedKept(o, done[word := e], InsertPair(ids, e.0, (word, e.1)))
  {
    var done' := done[word := e];
    var ids' := InsertPair(ids, e.0, (word, e.1));
    forall id | id in ids' ensures exists w :: w in done' && HasWord(o, w) && done'[w].0 == id {
      if id == e.0 {
        assert done'[word].0 == id;
      } else {
        var w :| w in done && HasWord(o, w) && done[w].0 == id;
        assert done'[w].0 == id;
      }
    }
    forall id, w | w in done' && HasWord(o, w) && done'[w].0 == id ensures id in ids' {
      if w != word {
        assert done[w].0 == id;
      }
    }
    forall id | id in ids' && (forall w :: w in done' && HasWord(o, w) && done'[w].0 == id ==> w == ids'[id].0)
      ensures ids'[id].1 == done'[ids'[id].0].1
    {
      if id == e.0 && id in ids {
        assert false;
      } else if id != e.0 {
        forall w | w in done && HasWord(o, w) && done[w].0 == id ensures w == ids[id].0 {
          assert done'[w].0 == id;
        }
      }
    }
  }

  /** `filter_dictionary(dcpt, transpose)`: exits when both dictionaries are
      empty; otherwise keeps exactly the words Onto.PT has, with their
      `(id, tf)`, or, transposed, keyed by their ids. */
  method FilterDictionary(o: Onto, given: map<string, Entry>, transpose: bool) returns (r: Result<Filtered>)
    ensures r == Err(SystemExit) <==> |given| == 0 && |o.dcpt| == 0
    ensures r.Err? ==> r == Err(SystemExit)
    ensures r.Ok? && !transpose ==> r.value == ByWord(KeptWords(o, Chosen(o, given)))
    ensures r.Ok? && transpose ==> r.value.ById? && TransposedKept(o, Chosen(o, given), r.value.ids)
  {
    if |given| == 0 && |o.dcpt| == 0 {
      return Err(SystemExit);
    }
    var dcpt := Chosen(o, given);
    if transpose {
      var byId := KeepById(o, dcpt);
      r := Ok(ById(byId));
    } else {
      var byWord := KeepByWord(o, dcpt);
      r := Ok(ByWord(byWord));
    }
  }

  /** Over a dictionary with distinct ids, each id holds its own word's entry. */
  lemma TransposedInjective(o: Onto, dic: map<string, Entry>, ids: map<int, (string, int)>, id: int)
    requires TransposedKept(o, dic, ids) && InjectiveIds(dic) && id in ids
    ensures ids[id] == (ids[id].0, dic[ids[id].0].1)
  {
    forall w | w in dic && HasWord(o, w) && dic[w].0 == id ensures w == ids[id].0 {
      assert dic[ids[id].0].0 == id;
    }
  }

  // ---------------------------------------------------------------------------
  // The relation-cleaning loop of `parse_rdf`.

  /** The tests a hypernym pair `(idH, idh)` must pass: both are noun synsets,
      both have lexical forms, and the reverse pair is not a relation. */
  predicate Kept(dNomeSyn: set<int>, dallsyns: map<int, seq<Value>>, dHh: set<(int, int)>, p: (int, int))
  {
    p.0 in dNomeSyn && p.1 in dNomeSyn && p.0 in dallsyns && p.1 in dallsyns && (p.1, p.0) !in dHh
  }

  /** The loop over `dHh`, whose keys are listed in `pairs`; `drels` and
      `dsyns` are DictLists. Every recorded hypernym comes from a kept pair,
      every kept pair is recorded (except a hypernym id 0, which DictList drops
      as false), no two synsets are recorded as each other's hypernym, and the
      nouns of every synset of a kept pair are copied once. */
  method CleanRelations(dNomeSyn: set<int>, dallsyns: map<int, seq<Value>>, dHh: set<(int, int)>, pairs: seq<(int, int)>)
    returns (dsyns: map<int, seq<Value>>, drels: map<int, seq<Value>>)
    requires forall i :: 0 <= i < |pairs| ==> pairs[i] in dHh
    ensures forall h, x :: h in drels && x in drels[h] ==>
              exists i :: 0 <= i < |pairs| && Kept(dNomeSyn, dallsyns, dHh, pairs[i]) && pairs[i].1 == h && x == IntValue(pairs[i].0)
    ensures forall i :: 0 <= i < |pairs| && Kept(dNomeSyn, dallsyns, dHh, pairs[i]) && pairs[i].0 != 0 ==>
              pairs[i].1 in drels && IntValue(pairs[i].0) in drels[pairs[i].1]
    ensures forall h, hH :: h in drels && IntValue(hH) in drels[h] ==> !(hH in drels && IntValue(h) in drels[hH])
    ensures forall id :: id in dsyns ==> id in dallsyns && dsyns[id] == dallsyns[id]
    ensures forall id :: id in dsyns ==>
              exists i :: 0 <= i < |pairs| && Kept(dNomeSyn, dallsyns, dHh, pairs[i]) && (pairs[i].0 == id || pairs[i].1 == id)
    ensures forall i :: 0 <= i < |pairs| && Kept(dNomeSyn, dallsyns, dHh, pairs[i]) ==>
              (dallsyns[pairs[i].0] != [] ==> pairs[i].0 in dsyns) && (dallsyns[pairs[i].1] != [] ==> pairs[i].1 in dsyns)
  {
    dsyns, drels := map[], map[];
    var k := 0;
    while k < |pairs|
      invariant 0 <= k <= |pairs|
      invariant forall h, x :: h in drels && x in drels[h] ==>
                  exists i :: 0 <= i < k && Kept(dNomeSyn, dallsyns, dHh, pairs[i]) && pairs[i].1 == h && x == IntValue(pairs[i].0)
      invariant forall i :: 0 <= i < k && Kept(dNomeSyn, dallsyns, dHh, pairs[i]) && pairs[i].0 != 0 ==>
                  pairs[i].1 in drels && IntValue(pairs[i].0) in drels[pairs[i].1]
      invariant forall id :: id in dsyns ==> id in dallsyns && dsyns[id] == dallsyns[id]
      invariant forall id :: id in dsyns ==>
                  exists i :: 0 <= i < k && Kept(dNomeSyn, dallsyns, dHh, pairs[i]) && (pairs[i].0 == id || pairs[i].1 == id)
      invariant forall i :: 0 <= i < k && Kept(dNomeSyn, dallsyns, dHh, pairs[i]) ==>
                  (dallsyns[pairs[i].0] != [] ==> pairs[i].0 in dsyns) && (dallsyns[pairs[i].1] != [] ==> pairs[i].1 in dsyns)
    {
      var (idH, idh) := pairs[k];
      if idH in dNomeSyn && idh in dNomeSyn && idH in dallsyns && idh in dallsyns && (idh, idH) !in dHh {
        assert Kept(dNomeSyn, dallsyns, dHh, pairs[k]);
        drels := AppendItem(drels, idh, One(IntValue(idH)));
        if idH !in dsyns {
          dsyns := AppendItem(dsyns, idH, Many(dallsyns[idH]));
        }
        if idh !in dsyns {
          dsyns := AppendItem(dsyns, idh, Many(dallsyns[idh]));
        }
      }
      k := k + 1;
    }
    forall h, hH | h in drels && IntValue(hH) in drels[h] ensures !(hH in drels && IntValue(h) in drels[hH]) {
      var i :| 0 <= i < |pairs| && Kept(dNomeSyn, dallsyns, dHh, pairs[i]) && pairs[i].1 == h && IntValue(hH) == IntValue(pairs[i].0);
      assert (h, hH) !in dHh;
    }
  }

  // ---------------------------------------------------------------------------
  // The pair loop of `gen_OPT`.

  /** The line the body writes for `(icpt1, icpt2)`: `icpt1 icpt2` on order 1,
      `icpt2 icpt1` on order -1. */
  function OrderedPair(o: Onto, a: int, b: int): seq<(int, int)>
  {
    var order := HypernymOrder(o, a, b);
    if order == Ok(1) then [(a, b)] else if order == Ok(-1) then [(b, a)] else []
  }

  function Order(o: Onto): (int, int) -> seq<(int, int)>
  {
    (a: int, b: int) => OrderedPair(o, a, b)
  }

  lemma OrderOriented(o: Onto)
    ensures Oriented(Order(o))
  {
  }

  /** The loop over `i < j` of `gen_OPT`, with `keys` for `dcpt_t.keys()`,
      computing the lines it writes. */
  method GenOPT(o: Onto, keys: seq<int>) returns (lines: seq<(int, int)>)
    requires forall i :: 0 <= i < |keys| ==> Stored(o, keys[i])
    ensures lines == Scan(keys, Order(o))
  {
    lines := [];
    var index1 := 0;
    while index1 < |keys|
      invariant 0 <= index1 <= |keys|
      invariant lines == Rows(keys, Order(o), index1)
    {
      var icpt1 := keys[index1];
      ghost var before := lines;
      var index2 := index1 + 1;
      while index2 < |keys|
        invariant index1 + 1 <= index2 <= |keys|
        invariant lines == before + Row(keys, Order(o), index1, index2)
      {
        var icpt2 := keys[index2];
        var order := HypernymOrder(o, icpt1, icpt2);
        assert Order(o)(icpt1, icpt2) == OrderedPair(o, icpt1, icpt2);
        if order == Ok(1) {
          lines := lines + [(icpt1, icpt2)];
        }
        if order == Ok(-1) {
          lines := lines + [(icpt2, icpt1)];
        }
        RowSnoc(keys, Order(o), index1, index2);
        index2 := index2 + 1;
      }
      assert Rows(keys, Order(o), index1 + 1) == Rows(keys, Order(o), index1) + Row(keys, Order(o), index1, |keys|);
      index1 := index1 + 1;
    }
  }

  /** Over distinct stored ids, `a b` is written exactly when `a` is over `b`
      and, should `b` also be over `a`, `a` comes first; no line is written
      twice and never both orders of a pair. */
  lemma GenOPTLines(o: Onto, keys: seq<int>, a: int, b: int)
    requires NoRepeats(keys) && forall i :: 0 <= i < |keys| ==> Stored(o, keys[i])
    ensures NoRepeats(Scan(keys, Order(o)))
    ensures (a, b) in Scan(keys, Order(o)) ==> (b, a) !in Scan(keys, Order(o))
    ensures (a, b) in Scan(keys, Order(o)) <==>
              exists p, q :: 0 <= p < |keys| && 0 <= q < |keys| && keys[p] == a && keys[q] == b && p != q &&
                Over(o, a, b) && (p < q || !Over(o, b, a))
  {
    OrderOriented(o);
    ScanOnce(keys, Order(o), a, b);
    ScanMembers(keys, Order(o), (a, b));
    if (a, b) in Scan(keys, Order(o)) {
      var p, q :| ComparedAt(keys, Order(o), p, q, (a, b));
      HypernymOrderCases(o, keys[p], keys[q]);
      if (a, b) == (keys[p], keys[q]) {
        assert keys[p] == a && keys[q] == b && p < q;
      } else {
        assert keys[q] == a && keys[p] == b && q != p;
      }
    }
    if exists p, q :: 0 <= p < |keys| && 0 <= q < |keys| && keys[p] == a && keys[q] == b && p != q &&
                Over(o, a, b) && (p < q || !Over(o, b, a)) {
      var p, q :| 0 <= p < |keys| && 0 <= q < |keys| && keys[p] == a && keys[q] == b && p != q &&
                Over(o, a, b) && (p < q || !Over(o, b, a));
      if p < q {
        HypernymOrderCases(o, a, b);
        assert ComparedAt(keys, Order(o), p, q, (a, b));
      } else {
        HypernymOrderCases(o, b, a);
        assert ComparedAt(keys, Order(o), q, p, (a, b));
      }
    }
  }
}
