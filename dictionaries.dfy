/**
 * The dictionaries of hrex/structure/dictionaries.py.
 *
 * A `DictWords` maps a term to `(id, freq)`: inserting a number adds to the
 * frequency of a known term and gives an unknown term the next id of a counter;
 * inserting a pair `(id, freq)` stores an explicit id without touching the
 * counter. A `DictList` maps a key to a list and appends to it. The pure
 * functions below say what one insertion does to the map; the classes hold the
 * map and change it in place exactly as those functions say.
 *
 * `DictRels`, the `(idw, idc) -> weight` dictionary, is used by the corpus code
 * but defined in no file of this model: it is modelled here, by assumption, as a
 * map with the same insert-or-add rule.
 */
module Dictionaries {
  import opened PyBuiltins

  /** The value `(id, freq)` a DictWords stores for a term. */
  type Entry = (int, int)

  /** The state of a DictWords: its map and its `self.id` counter, which is
      `None` when the dictionary was built from a non-empty input dict (the
      constructor never sets `self.id` then). */
  datatype Index = Index(items: map<string, Entry>, next: Option<int>)

  /** A DictWords created empty: `self.id = 1`. */
  const EmptyIndex := Index(map[], Some(1))

  /** `d[key] = value` with a number `value`. */
  function Insert(ix: Index, key: string, value: int): Result<Index>
  {
    if key in ix.items then
      Ok(Index(ix.items[key := (ix.items[key].0, ix.items[key].1 + value)], ix.next))
    else if ix.next.None? then
      Err(AttributeError)
    else
      Ok(Index(ix.items[key := (ix.next.value, value)], Some(ix.next.value + 1)))
  }

  /** `d[key] = (id, freq)`: a known key keeps its value's first component and
      adds `freq`; an unknown key stores the pair as given. Generic because the
      cached inverse dictionary of `id2key` is filled the same way. */
  function InsertPair<K, V>(m: map<K, (V, int)>, key: K, pair: (V, int)): map<K, (V, int)>
  {
    if key in m then m[key := (m[key].0, m[key].1 + pair.1)] else m[key := pair]
  }

  /** `setid`: only an existing key changes, and only its id. */
  function WithId(m: map<string, Entry>, key: string, newId: int): map<string, Entry>
  {
    if key in m then m[key := (newId, m[key].1)] else m
  }

  /** `setfreq`: only an existing key changes, and only its frequency. */
  function WithFreq(m: map<string, Entry>, key: string, newFreq: int): map<string, Entry>
  {
    if key in m then m[key := (m[key].0, newFreq)] else m
  }

  /** `getfreq(key)` with `transposed=False`. */
  function FreqOf(m: map<string, Entry>, key: string): Option<int>
  {
    if key in m then Some(m[key].1) else None
  }

  /** No two keys share an id. */
  ghost predicate InjectiveIds<K, V>(m: map<K, (V, int)>)
  {
    forall a, b :: a in m && b in m && a != b ==> m[a].0 != m[b].0
  }

  /** Every value's id, as a set. */
  function Ids(m: map<string, Entry>): set<int>
  {
    set k | k in m :: m[k].0
  }

  /** The invariant of a DictWords filled only by numeric insertions from empty:
      the ids are distinct and are exactly 1 .. self.id - 1. */
  ghost predicate Dense(ix: Index)
  {
    && ix.next.Some?
    && ix.next.value >= 1
    && |ix.items| == ix.next.value - 1
    && (forall k :: k in ix.items ==> 1 <= ix.items[k].0 < ix.next.value)
    && InjectiveIds(ix.items)
  }

  lemma {:induction false} InsertNewKeyDense(ix: Index, key: string, value: int)
    requires Dense(ix) && key !in ix.items
    ensures Dense(Index(ix.items[key := (ix.next.value, value)], Some(ix.next.value + 1)))
  {
    var m := ix.items[key := (ix.next.value, value)];
    assert m.Keys == ix.items.Keys + {key};
    assert |m| == |ix.items| + 1;
    forall a, b | a in m && b in m && a != b
      ensures m[a].0 != m[b].0
    {
      if a != key && b != key {
        assert m[a] == ix.items[a] && m[b] == ix.items[b];
      }
    }
  }

  lemma {:induction false} InsertKnownKeyDense(ix: Index, key: string, value: int)
    requires Dense(ix) && key in ix.items
    ensures Dense(Index(ix.items[key := (ix.items[key].0, ix.items[key].1 + value)], ix.next))
  {
    var m := ix.items[key := (ix.items[key].0, ix.items[key].1 + value)];
    assert m.Keys == ix.items.Keys;
    forall a, b | a in m && b in m && a != b
      ensures m[a].0 != m[b].0
    {
      assert m[a].0 == ix.items[a].0 && m[b].0 == ix.items[b].0;
    }
  }

  /** Numeric insertion keeps the DictWords dense: a new key takes the next id,
      a known key keeps its id. */
  lemma {:induction false} InsertPreservesDense(ix: Index, key: string, value: int)
    requires Dense(ix)
    ensures Insert(ix, key, value).Ok?
    ensures Dense(Insert(ix, key, value).value)
  {
    if key !in ix.items {
      InsertNewKeyDense(ix, key, value);
    } else {
      InsertKnownKeyDense(ix, key, value);
    }
  }

  /** The documented example: `d['w1'] = 3; d['w1'] = 4` gives `{'w1': (1, 7)}`. */
  lemma InsertTwiceExample()
    ensures Insert(EmptyIndex, "w1", 3).Ok?
    ensures Insert(Insert(EmptyIndex, "w1", 3).value, "w1", 4) == Ok(Index(map["w1" := (1, 7)], Some(2)))
  {
    assert Insert(EmptyIndex, "w1", 3) == Ok(Index(map["w1" := (1, 3)], Some(2)));
    assert map["w1" := (1, 3)]["w1" := (1, 7)] == map["w1" := (1, 7)];
  }

  /** A DictWords built from a non-empty dict has no counter, so inserting a new
      key by number fails (AttributeError), while a known key still accumulates. */
  lemma {:induction false} FromDictInsertNewKeyFails(input: map<string, Entry>, key: string, value: int)
    requires |input| > 0
    ensures Insert(Index(input, None), key, value).Err? <==> key !in input
    ensures key in input ==> Insert(Index(input, None), key, value).value.items[key] == (input[key].0, input[key].1 + value)
  {
  }

  /** `setid` and `setfreq` each change only their own component, only for a
      key that is present. */
  lemma {:induction false} SetIdAndFreqAreSeparate(m: map<string, Entry>, key: string, newId: int, newFreq: int)
    ensures WithId(m, key, newId).Keys == m.Keys && WithFreq(m, key, newFreq).Keys == m.Keys
    ensures forall k :: k in m ==> FreqOf(WithId(m, key, newId), k) == FreqOf(m, k)
    ensures forall k :: k in m ==> WithFreq(m, key, newFreq)[k].0 == m[k].0
    ensures key in m ==> FreqOf(WithFreq(m, key, newFreq), key) == Some(newFreq)
    ensures key in m ==> WithId(m, key, newId)[key].0 == newId
    ensures forall k :: k in m && k != key ==> WithId(m, key, newId)[k] == m[k] && WithFreq(m, key, newFreq)[k] == m[k]
    ensures key !in m ==> WithId(m, key, newId) == m && WithFreq(m, key, newFreq) == m
  {
  }

  /** `getfreq` after numeric insertion: the frequency grows by the value
      inserted, or is the value for a new key; other keys are unaffected. */
  lemma {:induction false} FreqAfterInsert(ix: Index, key: string, value: int, other: string)
    requires Insert(ix, key, value).Ok?
    ensures FreqOf(Insert(ix, key, value).value.items, key)
            == Some(if key in ix.items then ix.items[key].1 + value else value)
    ensures other != key ==> FreqOf(Insert(ix, key, value).value.items, other) == FreqOf(ix.items, other)
  {
  }

  /** Pair insertion: a new key stores the pair as given, a known key keeps its
      id (ignoring the given one) and adds the frequency; the counter is not an
      argument, so it cannot move. */
  lemma {:induction false} InsertPairKeepsOldId(m: map<string, Entry>, key: string, id: int, freq: int)
    ensures key !in m ==> InsertPair(m, key, (id, freq))[key] == (id, freq)
    ensures key in m ==> InsertPair(m, key, (id, freq))[key] == (m[key].0, m[key].1 + freq)
    ensures InsertPair(m, key, (id, freq)).Keys == m.Keys + {key}
  {
  }

  // ---------------------------------------------------------------------------
  // First-seen order: feeding a sequence of terms one by one (`d[w] = 1`).

  function Count<T(==)>(s: seq<T>, x: T): nat
  {
    if s == [] then 0 else Count(s[..|s| - 1], x) + (if s[|s| - 1] == x then 1 else 0)
  }

  function FirstIndex<T(==)>(s: seq<T>, x: T): (i: nat)
    requires x in s
    ensures i < |s| && s[i] == x && x !in s[..i]
  {
    if s[0] == x then 0 else 1 + FirstIndex(s[1..], x)
  }

  lemma FirstIndexOfExtension<T>(s: seq<T>, y: T, x: T)
    requires x in s
    ensures x in s + [y] && FirstIndex(s + [y], x) == FirstIndex(s, x)
  {
    if s[0] != x {
      assert (s + [y])[1..] == s[1..] + [y];
      FirstIndexOfExtension(s[1..], y, x);
    }
  }

  /** The DictWords after `d[w] = 1` for every `w` of `ws`, in order. */
  function ObserveAll(ix: Index, ws: seq<string>): (r: Index)
    requires Dense(ix)
    ensures Dense(r)
  {
    if ws == [] then ix
    else
      var prev := ObserveAll(ix, ws[..|ws| - 1]);
      InsertPreservesDense(prev, ws[|ws| - 1], 1);
      Insert(prev, ws[|ws| - 1], 1).value
  }

  lemma {:induction false} ObserveAllKeys(ws: seq<string>)
    ensures ObserveAll(EmptyIndex, ws).items.Keys == set w | w in ws
  {
    if ws != [] {
      var init := ws[..|ws| - 1];
      assert ws == init + [ws[|ws| - 1]];
      ObserveAllKeys(init);
      assert (set w | w in ws) == (set w | w in init) + {ws[|ws| - 1]};
    }
  }

  lemma {:induction false} ObserveAllCounts(ws: seq<string>)
    ensures ObserveAll(EmptyIndex, ws).items.Keys == set w | w in ws
    ensures forall w :: w in ws ==> ObserveAll(EmptyIndex, ws).items[w].1 == Count(ws, w)
  {
    ObserveAllKeys(ws);
    if ws != [] {
      var init := ws[..|ws| - 1];
      var x := ws[|ws| - 1];
      assert ws == init + [x];
      ObserveAllCounts(init);
      var prev := ObserveAll(EmptyIndex, init);
      var r := ObserveAll(EmptyIndex, ws);
      assert r == Insert(prev, x, 1).value;
      forall w | w in ws ensures r.items[w].1 == Count(ws, w) {
        assert Count(ws, w) == Count(init, w) + (if x == w then 1 else 0);
        if w !in init {
          CountAbsent(init, w);
        }
      }
    }
  }

  lemma {:induction false} ObserveAllOrder(ws: seq<string>)
    ensures ObserveAll(EmptyIndex, ws).items.Keys == set w | w in ws
    ensures forall a, b :: a in ws && b in ws ==>
              (ObserveAll(EmptyIndex, ws).items[a].0 < ObserveAll(EmptyIndex, ws).items[b].0
               <==> FirstIndex(ws, a) < FirstIndex(ws, b))
  {
    ObserveAllKeys(ws);
    if ws != [] {
      var init := ws[..|ws| - 1];
      var x := ws[|ws| - 1];
      assert ws == init + [x];
      ObserveAllOrder(init);
      forall a, b | a in ws && b in ws
        ensures ObserveAll(EmptyIndex, ws).items[a].0 < ObserveAll(EmptyIndex, ws).items[b].0
                <==> FirstIndex(ws, a) < FirstIndex(ws, b)
      {
        ObserveAllOrderStep(init, x, a, b);
      }
    }
  }

  lemma ObserveAllOrderStep(init: seq<string>, x: string, a: string, b: string)
    requires ObserveAll(EmptyIndex, init).items.Keys == set w | w in init
    requires forall a, b :: a in init && b in init ==>
              (ObserveAll(EmptyIndex, init).items[a].0 < ObserveAll(EmptyIndex, init).items[b].0
               <==> FirstIndex(init, a) < FirstIndex(init, b))
    requires a in init + [x] && b in init + [x]
    ensures a in ObserveAll(EmptyIndex, init + [x]).items && b in ObserveAll(EmptyIndex, init + [x]).items
    ensures ObserveAll(EmptyIndex, init + [x]).items[a].0 < ObserveAll(EmptyIndex, init + [x]).items[b].0
            <==> FirstIndex(init + [x], a) < FirstIndex(init + [x], b)
  {
    var ws := init + [x];
    ObserveAllExtendKeeps(init, x);
    if a in init { FirstIndexOfExtension(init, x, a); }
    if b in init { FirstIndexOfExtension(init, x, b); }
    if a !in init || b !in init {
      ObserveAllExtendNew(init, x);
      if a !in init { assert a == x; assert FirstIndex(ws, a) == |init|; }
      if b !in init { assert b == x; assert FirstIndex(ws, b) == |init|; }
    }
  }

  /** Observing one more term keeps the ids of the terms already seen. */
  lemma ObserveAllExtendKeeps(init: seq<string>, x: string)
    requires ObserveAll(EmptyIndex, init).items.Keys == set w | w in init
    ensures ObserveAll(EmptyIndex, init + [x]).items.Keys == (set w | w in init) + {x}
    ensures forall y :: y in init ==> ObserveAll(EmptyIndex, init + [x]).items[y].0 == ObserveAll(EmptyIndex, init).items[y].0
  {
    var ws := init + [x];
    assert ws[..|ws| - 1] == init && ws[|ws| - 1] == x;
  }

  /** A term not seen before gets an id above every id already given out. */
  lemma ObserveAllExtendNew(init: seq<string>, x: string)
    requires ObserveAll(EmptyIndex, init).items.Keys == set w | w in init
    requires x !in init
    ensures x in ObserveAll(EmptyIndex, init + [x]).items
    ensures forall y :: y in init ==> ObserveAll(EmptyIndex, init).items[y].0 < ObserveAll(EmptyIndex, init + [x]).items[x].0
  {
    var ws := init + [x];
    assert ws[..|ws| - 1] == init && ws[|ws| - 1] == x;
  }

  /** Starting from an empty DictWords, the keys are the distinct terms seen,
      each frequency is the number of occurrences, and ids follow first-seen
      order: `a` has a smaller id than `b` exactly when `a` was seen first. */
  lemma ObserveAllFirstSeen(ws: seq<string>)
    ensures ObserveAll(EmptyIndex, ws).items.Keys == set w | w in ws
    ensures forall w :: w in ws ==> ObserveAll(EmptyIndex, ws).items[w].1 == Count(ws, w)
    ensures forall a, b :: a in ws && b in ws ==>
              (ObserveAll(EmptyIndex, ws).items[a].0 < ObserveAll(EmptyIndex, ws).items[b].0
               <==> FirstIndex(ws, a) < FirstIndex(ws, b))
  {
    ObserveAllCounts(ws);
    ObserveAllOrder(ws);
  }

  lemma CountAbsent<T>(s: seq<T>, x: T)
    requires x !in s
    ensures Count(s, x) == 0
  {
    if s != [] {
      assert x !in s[..|s| - 1];
      CountAbsent(s[..|s| - 1], x);
    }
  }

  // ---------------------------------------------------------------------------
  // The DictWords class.

  class DictWords {
    var items: map<string, Entry>
    /** `self.id`; `None` when the constructor was given a non-empty dict. */
    var nextId: Option<int>
    /** `self.dict_t`: the inverse `id -> (term, freq)`, built once by `id2key`. */
    var cache: map<int, (string, int)>

    function State(): Index
      reads this
    {
      Index(items, nextId)
    }

    /** `DictWords()`. */
    constructor ()
      ensures State() == EmptyIndex && cache == map[]
    {
      items, nextId, cache := map[], Some(1), map[];
    }

    /** `DictWords(input)`: an empty input counts as no input. */
    constructor FromDict(input: map<string, Entry>)
      ensures State() == if |input| == 0 then EmptyIndex else Index(input, None)
      ensures cache == map[]
    {
      if |input| == 0 {
        items, nextId := map[], Some(1);
      } else {
        items, nextId := input, None;
      }
      cache := map[];
    }

    /** `d[key] = value` with a number. */
    method SetItem(key: string, value: int) returns (r: Result<()>)
      modifies this
      ensures Insert(old(State()), key, value).Ok? ==> r.Ok? && State() == Insert(old(State()), key, value).value
      ensures Insert(old(State()), key, value).Err? ==> r == Err(AttributeError) && State() == old(State())
      ensures cache == old(cache)
    {
      if key in items {
        items := items[key := (items[key].0, items[key].1 + value)];
        r := Ok(());
      } else if nextId.None? {
        r := Err(AttributeError);
      } else {
        items := items[key := (nextId.value, value)];
        nextId := Some(nextId.value + 1);
        r := Ok(());
      }
    }

    /** `d[key] = (id, freq)`. */
    method SetItemPair(key: string, id: int, freq: int)
      modifies this
      ensures items == InsertPair(old(items), key, (id, freq))
      ensures nextId == old(nextId) && cache == old(cache)
    {
      if key in items {
        items := items[key := (items[key].0, items[key].1 + freq)];
      } else {
        items := items[key := (id, freq)];
      }
    }

    /** `setid(key, newid)`; an absent key is only logged. */
    method SetId(key: string, newId: int)
      modifies this
      ensures items == WithId(old(items), key, newId)
      ensures nextId == old(nextId) && cache == old(cache)
    {
      if key in items {
        items := items[key := (newId, items[key].1)];
      }
    }

    /** `setfreq(key, newf)`; an absent key is only logged. */
    method SetFreq(key: string, newFreq: int)
      modifies this
      ensures items == WithFreq(old(items), key, newFreq)
      ensures nextId == old(nextId) && cache == old(cache)
    {
      if key in items {
        items := items[key := (items[key].0, newFreq)];
      }
    }

    /** `id2key()`: builds the inverse once, when the cache is empty, by pair
        insertion, and returns the cache. Later insertions are not reflected. */
    method Id2Key() returns (r: map<int, (string, int)>)
      modifies this`cache
      ensures old(cache) != map[] ==> cache == old(cache)
      ensures old(cache) == map[] ==> cache.Keys == Ids(items)
      ensures old(cache) == map[] ==> forall id :: id in cache ==> cache[id].0 in items && items[cache[id].0].0 == id
      ensures old(cache) == map[] && InjectiveIds(items) ==>
                forall k :: k in items ==> cache[items[k].0] == (k, items[k].1)
      ensures r == cache
    {
      if cache == map[] {
        var t: map<int, (string, int)> := map[];
        var todo := items.Keys;
        while todo != {}
          invariant todo <= items.Keys
          invariant t.Keys == set k | k in items.Keys - todo :: items[k].0
          invariant forall id :: id in t ==> t[id].0 in items.Keys - todo && items[t[id].0].0 == id
          invariant InjectiveIds(items) ==> forall k :: k in items.Keys - todo ==> t[items[k].0] == (k, items[k].1)
          decreases todo
        {
          var key :| key in todo;
          var (id, f) := items[key];
          t := InsertPair(t, id, (key, f));
          todo := todo - {key};
        }
        cache := t;
      }
      r := cache;
    }

    /** `has_id(id)`: answered from the cache, built first if empty. */
    method HasId(id: int) returns (b: bool)
      modifies this`cache
      ensures old(cache) != map[] ==> cache == old(cache)
      ensures old(cache) == map[] ==> cache.Keys == Ids(items)
      ensures b <==> id in cache
    {
      var _ := Id2Key();
      b := id in cache;
    }

    /** `simplify(transposed)`: a plain copy, or the (cached) inverse. */
    method Simplify(transposed: bool) returns (plain: map<string, Entry>, inverse: map<int, (string, int)>)
      modifies this`cache
      ensures !transposed ==> plain == items && cache == old(cache)
      ensures transposed ==> inverse == cache
      ensures transposed && old(cache) != map[] ==> cache == old(cache)
      ensures transposed && old(cache) == map[] ==> inverse.Keys == Ids(items)
      ensures transposed && old(cache) == map[] ==>
                forall id :: id in inverse ==> inverse[id].0 in items && items[inverse[id].0].0 == id
      ensures transposed && old(cache) == map[] && InjectiveIds(items) ==>
                forall k :: k in items ==> inverse[items[k].0] == (k, items[k].1)
    {
      plain, inverse := map[], map[];
      if transposed {
        inverse := Id2Key();
      } else {
        plain := items;
      }
    }

    /** `getfreq(key)` with `transposed=False`. */
    method GetFreq(key: string) returns (f: Option<int>)
      ensures f == FreqOf(items, key)
    {
      if key in items {
        f := Some(items[key].1);
      } else {
        f := None;
      }
    }

    /** `getfreq(id, transposed=True)` as written: after `id2key()` it reads the
        undefined global name `dict_t`, so a present id raises NameError. */
    method GetFreqTransposedAsWritten(id: int) returns (f: Result<Option<int>>)
      modifies this`cache
      ensures old(cache) != map[] ==> cache == old(cache)
      ensures old(cache) == map[] ==> cache.Keys == Ids(items)
      ensures f == if id in cache then Err(NameError) else Ok(None)
    {
      var _ := Id2Key();
      if id in cache {
        f := Err(NameError);
      } else {
        f := Ok(None);
      }
    }

    /** `getfreq(id, transposed=True)` as evidently intended (`self.dict_t[key]`). */
    method GetFreqTransposed(id: int) returns (f: Result<Option<int>>)
      modifies this`cache
      ensures old(cache) != map[] ==> cache == old(cache)
      ensures old(cache) == map[] ==> cache.Keys == Ids(items)
      ensures f == Ok(if id in cache then Some(cache[id].1) else None)
      ensures old(cache) == map[] && InjectiveIds(items) ==> forall k :: k in items && items[k].0 == id ==> f == Ok(Some(items[k].1))
    {
      var _ := Id2Key();
      if id in cache {
        f := Ok(Some(cache[id].1));
      } else {
        f := Ok(None);
      }
    }
  }

  /** The inverse is a cache: a term inserted after the first `id2key()` is not
      seen by `has_id`. */
  method StaleInverseExample() returns (before: bool, after: bool)
    ensures before && !after
  {
    var d := new DictWords();
    var _ := d.SetItem("w1", 3);
    before := d.HasId(1);
    var _ := d.SetItem("w2", 1);
    assert d.items["w2"].0 == 2;
    after := d.HasId(2);
  }

  /** `getfreq(1, transposed=True)` on `{'w1': (1, 3)}`: NameError as written. */
  method GetFreqTransposedExample() returns (asWritten: Result<Option<int>>, intended: Result<Option<int>>)
    ensures asWritten == Err(NameError)
    ensures intended == Ok(Some(3))
  {
    var d := new DictWords();
    var _ := d.SetItem("w1", 3);
    assert d.items == map["w1" := (1, 3)];
    assert Ids(d.items) == {1} by {
      assert d.items["w1"].0 == 1;
    }
    asWritten := d.GetFreqTransposedAsWritten(1);
    var e := new DictWords();
    var _ := e.SetItem("w1", 3);
    assert e.items == map["w1" := (1, 3)];
    intended := e.GetFreqTransposed(1);
  }

  // ---------------------------------------------------------------------------
  // DictList: `{key: [value_1, value_2, ...]}`.

  /** The Python values stored in a DictList. */
  datatype Value = IntValue(i: int) | StrValue(s: string)

  /** What `d[key] = value` receives: a single value or a list. */
  datatype Item = One(v: Value) | Many(vs: seq<Value>)

  /** Python truthiness of the item: 0, '' and [] are false. */
  predicate Truthy(x: Item)
  {
    match x
    case One(IntValue(i)) => i != 0
    case One(StrValue(s)) => s != []
    case Many(vs) => vs != []
  }

  function Elements(x: Item): seq<Value>
  {
    match x
    case One(v) => [v]
    case Many(vs) => vs
  }

  /** `DictList.__setitem__`: a falsy item is ignored; a present key's list is
      extended by a list or appended a value; a new key stores the list as given
      or a one-element list. */
  function AppendItem<K>(m: map<K, seq<Value>>, key: K, x: Item): map<K, seq<Value>>
  {
    if !Truthy(x) then m
    else if key in m then m[key := m[key] + Elements(x)]
    else m[key := Elements(x)]
  }

  /** Every stored list of a DictList is non-empty, and insertion keeps it so;
      what is inserted ends up, in order, at the end of the key's list. */
  lemma {:induction false} AppendItemKeepsListsNonEmpty<K>(m: map<K, seq<Value>>, key: K, x: Item)
    requires forall k :: k in m ==> m[k] != []
    ensures forall k :: k in AppendItem(m, key, x) ==> AppendItem(m, key, x)[k] != []
    ensures !Truthy(x) ==> AppendItem(m, key, x) == m
    ensures Truthy(x) ==> (key in AppendItem(m, key, x)
              && AppendItem(m, key, x)[key] == (if key in m then m[key] else []) + Elements(x))
    ensures forall k :: k in m && k != key ==> k in AppendItem(m, key, x) && AppendItem(m, key, x)[k] == m[k]
  {
    if Truthy(x) {
      match x
      case One(v) =>
      case Many(vs) =>
    }
  }

  class DictList<K(==)> {
    var lists: map<K, seq<Value>>

    constructor ()
      ensures lists == map[]
    {
      lists := map[];
    }

    method SetItem(key: K, x: Item)
      modifies this
      ensures lists == AppendItem(old(lists), key, x)
    {
      if Truthy(x) {
        if key in lists {
          lists := lists[key := lists[key] + Elements(x)];
        } else {
          lists := lists[key := Elements(x)];
        }
      }
    }
  }

  // ---------------------------------------------------------------------------
  // DictRels (assumed): `(idw, idc) -> weight` with insert-or-add.

  function AddTo(m: map<(int, int), int>, key: (int, int), value: int): map<(int, int), int>
  {
    if key in m then m[key := m[key] + value] else m[key := value]
  }

  class DictRels {
    var cells: map<(int, int), int>

    constructor ()
      ensures cells == map[]
    {
      cells := map[];
    }

    method Add(key: (int, int), value: int)
      modifies this
      ensures cells == AddTo(old(cells), key, value)
    {
      if key in cells {
        cells := cells[key := cells[key] + value];
      } else {
        cells := cells[key := value];
      }
    }
  }
}
