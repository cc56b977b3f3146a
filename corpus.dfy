/**
 * Windowed co-occurrence extraction, `Corpus._window` of hrex/corpus/corpus.py.
 *
 * For every pair of token positions `i < j <= min(i + n, len(doc) - 1)` of a
 * document, with `n = (size - 1) / 2`, a recognised pair of part-of-speech tags
 * produces one or two events `(target, context)`; each event adds 1 to the
 * target's frequency in `dwords`, to the context's frequency in `dctxs` and to
 * the `(idt, idc)` cell of `drels`. The model splits this into the sequence of
 * events a document produces (`Events`) and the effect of recording a sequence
 * of events (`RecordAll`); `Corpus.Window` is the nested loop, proved to have
 * exactly the effect of recording `Events` in order.
 */
module Corpus {
  import opened PyBuiltins
  import opened Dictionaries
  import opened Stanford
  import opened PairScan

  /** `self.window`: an int, or a string that is either digits or a sentinel
      meaning the whole document. */
  datatype WindowSize = IntSize(size: int) | TextSize(text: string)

  /** The half window `n`: `(int(window) - 1) / 2` with Python's floor division,
      or `len(doc)` when the window is not numeric. */
  function HalfWindow(w: WindowSize, docLen: nat): (n: int)
    ensures w.IntSize? ==> 2 * n <= w.size - 1 < 2 * n + 2
    ensures w.TextSize? && IsDigitString(w.text) ==> 2 * n <= DigitsValue(w.text) - 1 < 2 * n + 2
    ensures w.TextSize? && !IsDigitString(w.text) ==> n == docLen
  {
    match w
    case IntSize(s) => (s - 1) / 2
    case TextSize(t) => if IsDigitString(t) then (DigitsValue(t) - 1) / 2 else docLen
  }

  /** One recorded co-occurrence: a target word and a marked context. */
  datatype Event = Event(target: string, context: string)

  /** `word + '#' + pos + side`. */
  function Mark(t: Term, side: string): string
  {
    t.word + "#" + t.pos + side
  }

  /** The events of the position pair `(doc[i], doc[j])`, `i < j`, in the order
      the source records them. */
  function PairEvents(a: Term, b: Term): seq<Event>
  {
    if a.pos == "n" && b.pos == "v" then [Event(a.word, Mark(b, "-r"))]
    else if a.pos == "v" && b.pos == "n" then [Event(b.word, Mark(a, "-l"))]
    else if a.pos == "n" && b.pos == "n" then [Event(b.word, Mark(a, "-l")), Event(a.word, Mark(b, "-r"))]
    else if a.pos == "n" && b.pos == "j" then [Event(a.word, Mark(b, "-r"))]
    else if a.pos == "j" && b.pos == "n" then [Event(b.word, Mark(a, "-l"))]
    else []
  }

  /** The pairs the extractor recognises. */
  predicate Recognised(a: string, b: string)
  {
    (a == "n" && (b == "v" || b == "n" || b == "j")) || (b == "n" && (a == "v" || a == "j"))
  }

  /** What a pair records: nothing unless the tags are recognised; two events
      exactly for noun-noun; the target is always a noun, and its context is
      the other token marked `-r` when that token is to its right and `-l`
      when it is to its left. */
  lemma {:induction false} PairEventsShape(a: Term, b: Term)
    ensures PairEvents(a, b) != [] <==> Recognised(a.pos, b.pos)
    ensures |PairEvents(a, b)| == 2 <==> a.pos == "n" && b.pos == "n"
    ensures |PairEvents(a, b)| <= 2
    ensures forall e :: e in PairEvents(a, b) ==>
              (a.pos == "n" && e == Event(a.word, Mark(b, "-r")))
              || (b.pos == "n" && e == Event(b.word, Mark(a, "-l")))
    ensures a.pos == "n" && b.pos == "n" ==>
              PairEvents(a, b) == [Event(b.word, Mark(a, "-l")), Event(a.word, Mark(b, "-r"))]
  {
    assert "n" != "v" && "n" != "j" && "v" != "j";
  }

  /** Events of row `i` for `j` in `[i + 1, hi)`, skipping `j > len(doc) - 1`. */
  function RowEvents(doc: seq<Term>, i: nat, hi: int): seq<Event>
    requires i < |doc|
    decreases hi - i
  {
    if hi <= i + 1 then []
    else RowEvents(doc, i, hi - 1) + (if hi - 1 <= |doc| - 1 then PairEvents(doc[i], doc[hi - 1]) else [])
  }

  /** Events of rows `0 .. k - 1`. */
  function AllRows(doc: seq<Term>, n: int, k: nat): seq<Event>
    requires k <= |doc|
  {
    if k == 0 then [] else AllRows(doc, n, k - 1) + RowEvents(doc, k - 1, k + n)
  }

  /** The events of a document with half window `n`, in recording order. */
  function Events(doc: seq<Term>, n: int): seq<Event>
  {
    AllRows(doc, n, |doc|)
  }

  /** Position pairs the extractor examines. */
  predicate Eligible(docLen: nat, n: int, i: int, j: int)
  {
    0 <= i < j && j <= i + n && j <= docLen - 1
  }

  lemma {:induction false} RowEventsMembers(doc: seq<Term>, i: nat, hi: int, e: Event)
    requires i < |doc|
    ensures e in RowEvents(doc, i, hi) <==>
              exists j :: i < j < hi && j <= |doc| - 1 && e in PairEvents(doc[i], doc[j])
    decreases hi - i
  {
    if hi > i + 1 {
      RowEventsMembers(doc, i, hi - 1, e);
      if hi - 1 <= |doc| - 1 && e in PairEvents(doc[i], doc[hi - 1]) {
        assert i < hi - 1 < hi;
      }
    }
  }

  /** `e` is produced by the examined position pair `(i, j)`. */
  predicate ProducedAt(doc: seq<Term>, n: int, i: int, j: int, e: Event)
  {
    Eligible(|doc|, n, i, j) && e in PairEvents(doc[i], doc[j])
  }

  /** The rows `0 .. k - 1`, one list each. */
  function RowList(doc: seq<Term>, n: int, k: nat): (rs: seq<seq<Event>>)
    requires k <= |doc|
    ensures |rs| == k && forall i :: 0 <= i < k ==> rs[i] == RowEvents(doc, i, i + 1 + n)
  {
    seq(k, i requires 0 <= i < k => RowEvents(doc, i, i + 1 + n))
  }

  lemma {:induction false} AllRowsFlatten(doc: seq<Term>, n: int, k: nat)
    requires k <= |doc|
    ensures AllRows(doc, n, k) == Flatten(RowList(doc, n, k))
  {
    if k > 0 {
      AllRowsFlatten(doc, n, k - 1);
      assert RowList(doc, n, k)[..k - 1] == RowList(doc, n, k - 1);
    }
  }

  lemma RowSound(doc: seq<Term>, n: int, i: nat, e: Event)
    requires i < |doc| && e in RowEvents(doc, i, i + 1 + n)
    ensures exists j :: ProducedAt(doc, n, i, j, e)
  {
    RowEventsMembers(doc, i, i + 1 + n, e);
    var j :| i < j < i + 1 + n && j <= |doc| - 1 && e in PairEvents(doc[i], doc[j]);
    assert ProducedAt(doc, n, i, j, e);
  }

  lemma AllRowsSound(doc: seq<Term>, n: int, k: nat, e: Event)
    requires k <= |doc|
    requires e in AllRows(doc, n, k)
    ensures exists i, j :: 0 <= i < k && ProducedAt(doc, n, i, j, e)
  {
    AllRowsFlatten(doc, n, k);
    FlattenSound(RowList(doc, n, k), e);
    var i :| 0 <= i < k && e in RowList(doc, n, k)[i];
    RowSound(doc, n, i, e);
  }

  lemma AllRowsComplete(doc: seq<Term>, n: int, k: nat, i: int, j: int, e: Event)
    requires k <= |doc|
    requires 0 <= i < k && ProducedAt(doc, n, i, j, e)
    ensures e in AllRows(doc, n, k)
  {
    RowEventsMembers(doc, i, i + 1 + n, e);
    AllRowsFlatten(doc, n, k);
    FlattenComplete(RowList(doc, n, k), i, e);
  }

  lemma AllRowsMembers(doc: seq<Term>, n: int, k: nat, e: Event)
    requires k <= |doc|
    ensures e in AllRows(doc, n, k) <==> exists i, j :: 0 <= i < k && ProducedAt(doc, n, i, j, e)
  {
    if e in AllRows(doc, n, k) {
      AllRowsSound(doc, n, k, e);
    }
    if exists i, j :: 0 <= i < k && ProducedAt(doc, n, i, j, e) {
      var i, j :| 0 <= i < k && ProducedAt(doc, n, i, j, e);
      AllRowsComplete(doc, n, k, i, j, e);
    }
  }

  /** An event is recorded exactly when some examined position pair produces
      it; with a non-numeric window (`n = len(doc)`) every pair `i < j` is
      examined. */
  lemma EventsMembers(doc: seq<Term>, n: int, e: Event)
    ensures e in Events(doc, n) <==> exists i, j :: ProducedAt(doc, n, i, j, e)
    ensures n >= |doc| ==> (e in Events(doc, n) <==>
              exists i, j :: 0 <= i < j < |doc| && e in PairEvents(doc[i], doc[j]))
  {
    AllRowsMembers(doc, n, |doc|, e);
    if n >= |doc| {
      if exists i, j :: 0 <= i < j < |doc| && e in PairEvents(doc[i], doc[j]) {
        var i, j :| 0 <= i < j < |doc| && e in PairEvents(doc[i], doc[j]);
        assert ProducedAt(doc, n, i, j, e);
      }
    }
  }

  // ---------------------------------------------------------------------------
  // Recording events into (dwords, dctxs, drels).

  datatype Counts = Counts(words: Index, ctxs: Index, rels: map<(int, int), int>)

  const EmptyCounts := Counts(EmptyIndex, EmptyIndex, map[])

  /** Both dictionaries were created empty, so `self.id` is set and scalar
      insertion cannot fail. */
  predicate Ready(c: Counts)
  {
    c.words.next.Some? && c.ctxs.next.Some?
  }

  /** `self.dwords[t] = 1; self.dctxs[c] = 1; self.drels[(idt, idc)] = 1`. */
  function Record(c: Counts, e: Event): (r: Counts)
    requires Ready(c)
    ensures Ready(r)
  {
    var w := Insert(c.words, e.target, 1).value;
    var x := Insert(c.ctxs, e.context, 1).value;
    Counts(w, x, AddTo(c.rels, (w.items[e.target].0, x.items[e.context].0), 1))
  }

  function RecordAll(c: Counts, evs: seq<Event>): (r: Counts)
    requires Ready(c)
    ensures Ready(r)
  {
    if evs == [] then c else Record(RecordAll(c, evs[..|evs| - 1]), evs[|evs| - 1])
  }

  lemma {:induction false} RecordAllAppend(c: Counts, a: seq<Event>, b: seq<Event>)
    requires Ready(c)
    ensures RecordAll(c, a + b) == RecordAll(RecordAll(c, a), b)
    decreases |b|
  {
    if b == [] {
      assert a + b == a;
    } else {
      var b' := b[..|b| - 1];
      assert (a + b)[..|a + b| - 1] == a + b';
      assert (a + b)[|a + b| - 1] == b[|b| - 1];
      RecordAllAppend(c, a, b');
    }
  }

  /** The weight of the `(t, x)` cell, 0 when absent. */
  function Cell(c: Counts, t: string, x: string): int
    requires t in c.words.items && x in c.ctxs.items
  {
    var key := (c.words.items[t].0, c.ctxs.items[x].0);
    if key in c.rels then c.rels[key] else 0
  }

  /** The targets of `evs`, in order. */
  function TargetSeq(evs: seq<Event>): (ts: seq<string>)
    ensures |ts| == |evs| && forall k :: 0 <= k < |evs| ==> ts[k] == evs[k].target
  {
    if evs == [] then [] else TargetSeq(evs[..|evs| - 1]) + [evs[|evs| - 1].target]
  }

  /** The contexts of `evs`, in order. */
  function ContextSeq(evs: seq<Event>): (xs: seq<string>)
    ensures |xs| == |evs| && forall k :: 0 <= k < |evs| ==> xs[k] == evs[k].context
  {
    if evs == [] then [] else ContextSeq(evs[..|evs| - 1]) + [evs[|evs| - 1].context]
  }

  /** Recording events touches `dwords` exactly as feeding it the targets one
      by one, and `dctxs` exactly as feeding it the contexts. */
  lemma {:induction false} RecordAllIndexes(evs: seq<Event>)
    ensures RecordAll(EmptyCounts, evs).words == ObserveAll(EmptyIndex, TargetSeq(evs))
    ensures RecordAll(EmptyCounts, evs).ctxs == ObserveAll(EmptyIndex, ContextSeq(evs))
  {
    if evs != [] {
      var init := evs[..|evs| - 1];
      RecordAllIndexes(init);
      assert TargetSeq(evs)[..|evs| - 1] == TargetSeq(init);
      assert ContextSeq(evs)[..|evs| - 1] == ContextSeq(init);
    }
  }

  /** The `drels` part of recording `evs`: every event's keys are known, each
      `(idt, idc)` cell counts the events with that target and context, and
      every cell is indexed by known ids. */
  ghost predicate CellTallies(c: Counts, evs: seq<Event>)
  {
    && Dense(c.words) && Dense(c.ctxs)
    && (forall f :: f in evs ==> f.target in c.words.items && f.context in c.ctxs.items)
    && (forall t, x :: t in c.words.items && x in c.ctxs.items ==> Cell(c, t, x) == Count(evs, Event(t, x)))
    && (forall key :: key in c.rels ==> key.0 in Ids(c.words.items) && key.1 in Ids(c.ctxs.items))
  }

  lemma {:induction false} RecordKeepsCellTallies(c: Counts, evs: seq<Event>, e: Event)
    requires CellTallies(c, evs)
    ensures CellTallies(Record(c, e), evs + [e])
  {
    var r := Record(c, e);
    var evs' := evs + [e];
    assert evs'[..|evs'| - 1] == evs && evs'[|evs'| - 1] == e;
    InsertPreservesDense(c.words, e.target, 1);
    InsertPreservesDense(c.ctxs, e.context, 1);
    var idt := r.words.items[e.target].0;
    var idc := r.ctxs.items[e.context].0;
    assert r.rels == AddTo(c.rels, (idt, idc), 1);
    forall t, x | t in r.words.items && x in r.ctxs.items
      ensures Cell(r, t, x) == Count(evs', Event(t, x))
    {
      RecordCell(c, evs, e, t, x);
    }
    forall key | key in r.rels ensures key.0 in Ids(r.words.items) && key.1 in Ids(r.ctxs.items) {
      if key == (idt, idc) {
        assert e.target in r.words.items && e.context in r.ctxs.items;
      } else {
        assert key in c.rels;
        var t :| t in c.words.items && c.words.items[t].0 == key.0;
        var x :| x in c.ctxs.items && c.ctxs.items[x].0 == key.1;
        assert r.words.items[t].0 == key.0 && r.ctxs.items[x].0 == key.1;
      }
    }
    forall f | f in evs' ensures f.target in r.words.items && f.context in r.ctxs.items {
      if f != e {
        assert f in evs;
      }
    }
  }

  lemma {:induction false} RecordCell(c: Counts, evs: seq<Event>, e: Event, t: string, x: string)
    requires CellTallies(c, evs)
    requires t in Record(c, e).words.items && x in Record(c, e).ctxs.items
    ensures Cell(Record(c, e), t, x) == Count(evs + [e], Event(t, x))
  {
    var r := Record(c, e);
    var evs' := evs + [e];
    assert evs'[..|evs'| - 1] == evs && evs'[|evs'| - 1] == e;
    InsertPreservesDense(c.words, e.target, 1);
    InsertPreservesDense(c.ctxs, e.context, 1);
    var idt := r.words.items[e.target].0;
    var idc := r.ctxs.items[e.context].0;
    var key := (r.words.items[t].0, r.ctxs.items[x].0);
    assert (t, x) == (e.target, e.context) <==> key == (idt, idc);
    if t in c.words.items && x in c.ctxs.items {
      assert key == (c.words.items[t].0, c.ctxs.items[x].0);
    } else {
      assert Event(t, x) !in evs;
      CountAbsent(evs, Event(t, x));
      if t !in c.words.items {
        assert key.0 == c.words.next.value && key.0 !in Ids(c.words.items);
      } else {
        assert key.1 == c.ctxs.next.value && key.1 !in Ids(c.ctxs.items);
      }
      assert key !in c.rels;
    }
  }

  lemma CellTalliesEmpty()
    ensures CellTallies(EmptyCounts, [])
  {
    assert Ids(map[]) == {};
  }

  lemma {:induction false} RecordAllCells(evs: seq<Event>)
    ensures CellTallies(RecordAll(EmptyCounts, evs), evs)
  {
    if evs == [] {
      CellTalliesEmpty();
    } else {
      var init := evs[..|evs| - 1];
      var e := evs[|evs| - 1];
      assert evs == init + [e];
      RecordAllCells(init);
      var p := RecordAll(EmptyCounts, init);
      RecordKeepsCellTallies(p, init, e);
      assert RecordAll(EmptyCounts, evs) == Record(p, e);
    }
  }

  /** Recording events into empty dictionaries: the target and context
      dictionaries hold the distinct targets and contexts with their numbers of
      occurrences, ids in first-seen order, and each `(idt, idc)` cell holds
      the number of events with that target and context. */
  lemma RecordAllCounts(evs: seq<Event>)
    ensures RecordAll(EmptyCounts, evs).words == ObserveAll(EmptyIndex, TargetSeq(evs))
    ensures RecordAll(EmptyCounts, evs).ctxs == ObserveAll(EmptyIndex, ContextSeq(evs))
    ensures CellTallies(RecordAll(EmptyCounts, evs), evs)
  {
    RecordAllIndexes(evs);
    RecordAllCells(evs);
  }

  /** The worked example document `[(dog,n), (chase,v), (cat,n)]`. */
  const ExampleDoc := [Term("dog", "n"), Term("chase", "v"), Term("cat", "n")]

  const ExampleEvents := [Event("dog", "chase#v-r"), Event("cat", "dog#n-l"), Event("dog", "cat#n-r"), Event("cat", "chase#v-l")]

  /** With window 5 (`n = 2`) the noun-noun pair at distance 2 is in range:
      four events, the noun-noun one recorded in both directions. */
  lemma WindowExampleEvents()
    ensures Events(ExampleDoc, HalfWindow(IntSize(5), |ExampleDoc|)) == ExampleEvents
  {
    var doc := ExampleDoc;
    assert HalfWindow(IntSize(5), 3) == 2;
    assert "n" != "v" && "n" != "j" && "v" != "j";
    var e0, e1, e2, e3 := Event("dog", "chase#v-r"), Event("cat", "dog#n-l"), Event("dog", "cat#n-r"), Event("cat", "chase#v-l");
    assert Mark(doc[1], "-r") == "chase#v-r";
    assert Mark(doc[0], "-l") == "dog#n-l";
    assert Mark(doc[2], "-r") == "cat#n-r";
    assert Mark(doc[1], "-l") == "chase#v-l";
    assert PairEvents(doc[0], doc[1]) == [e0];
    assert PairEvents(doc[0], doc[2]) == [e1, e2];
    assert PairEvents(doc[1], doc[2]) == [e3];
    assert RowEvents(doc, 0, 2) == [e0];
    assert RowEvents(doc, 0, 3) == [e0, e1, e2];
    assert RowEvents(doc, 1, 3) == [e3];
    assert RowEvents(doc, 1, 4) == [e3];
    assert RowEvents(doc, 2, 5) == [];
    assert AllRows(doc, 2, 1) == [e0, e1, e2];
    assert AllRows(doc, 2, 2) == [e0, e1, e2, e3];
  }

  const ExampleCounts1 := Counts(Index(map["dog" := (1, 1)], Some(2)), Index(map["chase#v-r" := (1, 1)], Some(2)), map[(1, 1) := 1])

  const ExampleCounts2 := Counts(Index(map["dog" := (1, 1), "cat" := (2, 1)], Some(3)),
                                 Index(map["chase#v-r" := (1, 1), "dog#n-l" := (2, 1)], Some(3)),
                                 map[(1, 1) := 1, (2, 2) := 1])

  const ExampleCounts3 := Counts(Index(map["dog" := (1, 2), "cat" := (2, 1)], Some(3)),
                                 Index(map["chase#v-r" := (1, 1), "dog#n-l" := (2, 1), "cat#n-r" := (3, 1)], Some(4)),
                                 map[(1, 1) := 1, (2, 2) := 1, (1, 3) := 1])

  const ExampleCounts4 := Counts(Index(map["dog" := (1, 2), "cat" := (2, 2)], Some(3)),
                                 Index(map["chase#v-r" := (1, 1), "dog#n-l" := (2, 1), "cat#n-r" := (3, 1), "chase#v-l" := (4, 1)], Some(5)),
                                 map[(1, 1) := 1, (2, 2) := 1, (1, 3) := 1, (2, 4) := 1])

  lemma ExampleStep1()
    ensures Record(EmptyCounts, ExampleEvents[0]) == ExampleCounts1
  {
  }

  lemma ExampleStep2()
    ensures Record(ExampleCounts1, ExampleEvents[1]) == ExampleCounts2
  {
    assert "dog" != "cat" && "chase#v-r" != "dog#n-l";
  }

  lemma ExampleStep3()
    ensures Record(ExampleCounts2, ExampleEvents[2]) == ExampleCounts3
  {
    var e := ExampleEvents[2];
    assert e == Event("dog", "cat#n-r");
    assert "dog" != "cat";
    assert "chase#v-r" != "cat#n-r" && "dog#n-l" != "cat#n-r";
    var w := Insert(ExampleCounts2.words, "dog", 1).value;
    assert w == ExampleCounts3.words;
    var x := Insert(ExampleCounts2.ctxs, "cat#n-r", 1).value;
    assert x == ExampleCounts3.ctxs;
    assert w.items["dog"].0 == 1 && x.items["cat#n-r"].0 == 3;
  }

  lemma ExampleStep4Words()
    ensures Record(ExampleCounts3, Event("cat", "chase#v-l")).words == ExampleCounts4.words
  {
    assert "dog" != "cat";
  }

  lemma ExampleStep4Contexts()
    ensures Record(ExampleCounts3, Event("cat", "chase#v-l")).ctxs == ExampleCounts4.ctxs
  {
    assert "chase#v-r"[8] != "chase#v-l"[8] && "dog#n-l"[0] != "chase#v-l"[0] && "cat#n-r"[1] != "chase#v-l"[1];
  }

  lemma ExampleStep4()
    ensures Record(ExampleCounts3, ExampleEvents[3]) == ExampleCounts4
  {
    ExampleStep4Words();
    ExampleStep4Contexts();
    assert ExampleEvents[3] == Event("cat", "chase#v-l");
  }

  /** Recording the example's events gives four cells of weight 1, and dog and
      cat each end with frequency 2. */
  lemma WindowExampleCounts()
    ensures RecordAll(EmptyCounts, ExampleEvents) == ExampleCounts4
  {
    var evs := ExampleEvents;
    ExampleStep1();
    ExampleStep2();
    ExampleStep3();
    ExampleStep4();
    assert RecordAll(EmptyCounts, evs[..1]) == ExampleCounts1 by {
      assert evs[..1][..0] == [];
    }
    assert RecordAll(EmptyCounts, evs[..2]) == ExampleCounts2 by {
      assert evs[..2][..1] == evs[..1];
    }
    assert RecordAll(EmptyCounts, evs[..3]) == ExampleCounts3 by {
      assert evs[..3][..2] == evs[..2];
    }
    assert evs[..3] == evs[..|evs| - 1];
  }

  /** One step of a row: recording the events of `j` after those of
      `i + 1 .. j - 1`. */
  lemma RecordRowStep(c: Counts, doc: seq<Term>, i: nat, j: int)
    requires Ready(c) && i < |doc| && i + 1 <= j
    ensures RecordAll(c, RowEvents(doc, i, j + 1))
            == RecordAll(RecordAll(c, RowEvents(doc, i, j)), if j <= |doc| - 1 then PairEvents(doc[i], doc[j]) else [])
  {
    var done := RowEvents(doc, i, j);
    if j <= |doc| - 1 {
      RecordAllAppend(c, done, PairEvents(doc[i], doc[j]));
    } else {
      assert RowEvents(doc, i, j + 1) == done + [];
      assert done + [] == done;
    }
  }

  lemma RecordAllRowsStep(c: Counts, doc: seq<Term>, n: int, i: nat)
    requires Ready(c) && i < |doc|
    ensures RecordAll(c, AllRows(doc, n, i + 1)) == RecordAll(RecordAll(c, AllRows(doc, n, i)), RowEvents(doc, i, i + n + 1))
  {
    RecordAllAppend(c, AllRows(doc, n, i), RowEvents(doc, i, i + n + 1));
  }

  // ---------------------------------------------------------------------------
  // The extractor object.

  /** The source's if-chain for one position pair: at most one event before
      the flag is tested (the `n-n` left event), then the flagged one. */
  lemma PairEventsSplit(a: Term, b: Term, first: seq<Event>, record: bool, last: Event)
    requires first == (if a.pos == "n" && b.pos == "n" then [Event(b.word, Mark(a, "-l"))] else [])
    requires record == Recognised(a.pos, b.pos)
    requires record ==> last == (if a.pos == "n" && (b.pos == "v" || b.pos == "n" || b.pos == "j") then Event(a.word, Mark(b, "-r"))
                                 else Event(b.word, Mark(a, "-l")))
    ensures PairEvents(a, b) == if record then first + [last] else []
  {
  }

  lemma RecordAllSnoc(c: Counts, first: seq<Event>, mid: Counts, e: Event)
    requires Ready(c) && |first| <= 1
    requires mid == RecordAll(c, first)
    ensures RecordAll(c, first + [e]) == Record(mid, e)
  {
    assert (first + [e])[..|first|] == first;
  }

  class Corpus {
    const dwords: DictWords
    const dctxs: DictWords
    const drels: DictRels
    /** `self.window`, set by `extractWindow` before `_window` runs. */
    var window: WindowSize

    ghost predicate Valid()
      reads this, dwords, dctxs
    {
      dwords != dctxs && Dense(dwords.State()) && Dense(dctxs.State())
    }

    function State(): Counts
      reads this, dwords, dctxs, drels
    {
      Counts(dwords.State(), dctxs.State(), drels.cells)
    }

    constructor (window: WindowSize)
      ensures Valid() && State() == EmptyCounts && this.window == window
      ensures fresh(dwords) && fresh(dctxs) && fresh(drels)
    {
      dwords := new DictWords();
      dctxs := new DictWords();
      drels := new DictRels();
      this.window := window;
    }

    /** Records one event: the three in-place increments of the source. */
    method RecordEvent(tword: string, cword: string)
      requires Valid()
      modifies dwords, dctxs, drels
      ensures Valid()
      ensures State() == Record(old(State()), Event(tword, cword))
    {
      InsertPreservesDense(dwords.State(), tword, 1);
      InsertPreservesDense(dctxs.State(), cword, 1);
      var _ := dwords.SetItem(tword, 1);
      var _ := dctxs.SetItem(cword, 1);
      var idt := dwords.items[tword].0;
      var idc := dctxs.items[cword].0;
      drels.Add((idt, idc), 1);
    }

    /** The body of the inner loop for one position pair `(doc[i], doc[j])`. */
    method RecordPair(a: Term, b: Term)
      requires Valid()
      modifies dwords, dctxs, drels
      ensures Valid()
      ensures State() == RecordAll(old(State()), PairEvents(a, b))
    {
      ghost var start := State();
      var record := false;
      var tword, cword := "", "";
      if a.pos == "n" && b.pos == "v" {
        tword, cword, record := a.word, Mark(b, "-r"), true;
      } else if a.pos == "v" && b.pos == "n" {
        tword, cword, record := b.word, Mark(a, "-l"), true;
      }
      ghost var first: seq<Event> := [];
      if a.pos == "n" && b.pos == "n" {
        RecordEvent(b.word, Mark(a, "-l"));
        first := [Event(b.word, Mark(a, "-l"))];
        tword, cword, record := a.word, Mark(b, "-r"), true;
      }
      if a.pos == "n" && b.pos == "j" {
        tword, cword, record := a.word, Mark(b, "-r"), true;
      } else if a.pos == "j" && b.pos == "n" {
        tword, cword, record := b.word, Mark(a, "-l"), true;
      }
      PairEventsSplit(a, b, first, record, Event(tword, cword));
      if record {
        ghost var mid := State();
        RecordEvent(tword, cword);
        RecordAllSnoc(start, first, mid, Event(tword, cword));
      } else {
        assert RecordAll(start, []) == start;
      }
    }

    /** One round of the inner loop: the pair `(i, j)` when `j` is a position. */
    method WindowPair(doc: seq<Term>, i: nat, j: int)
      requires Valid() && i < |doc| && i < j
      modifies dwords, dctxs, drels
      ensures Valid()
      ensures State() == RecordAll(old(State()), if j <= |doc| - 1 then PairEvents(doc[i], doc[j]) else [])
    {
      if j <= |doc| - 1 {
        RecordPair(doc[i], doc[j]);
      }
    }

    /** The inner loop of `_window` for row `i`: `j` from `i + 1` to `i + n`. */
    method WindowRow(doc: seq<Term>, n: int, i: nat)
      requires Valid() && i < |doc|
      modifies dwords, dctxs, drels
      ensures Valid()
      ensures State() == RecordAll(old(State()), RowEvents(doc, i, i + n + 1))
    {
      ghost var start := State();
      var j := i + 1;
      assert RecordAll(start, RowEvents(doc, i, j)) == start;
      while j < i + n + 1
        invariant i + 1 <= j && (j <= i + n + 1 || j == i + 1)
        invariant Valid()
        invariant State() == RecordAll(start, RowEvents(doc, i, j))
      {
        WindowPair(doc, i, j);
        RecordRowStep(start, doc, i, j);
        j := j + 1;
      }
      assert RowEvents(doc, i, j) == RowEvents(doc, i, i + n + 1);
    }

    /** `_window(doc)`. */
    method Window(doc: seq<Term>)
      requires Valid()
      modifies dwords, dctxs, drels
      ensures Valid()
      ensures State() == RecordAll(old(State()), Events(doc, HalfWindow(window, |doc|)))
    {
      ghost var start := State();
      var n := HalfWindow(window, |doc|);
      var i := 0;
      while i < |doc|
        invariant 0 <= i <= |doc|
        invariant Valid()
        invariant State() == RecordAll(start, AllRows(doc, n, i))
      {
        WindowRow(doc, n, i);
        RecordAllRowsStep(start, doc, n, i);
        i := i + 1;
      }
    }
  }
}
