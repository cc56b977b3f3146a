/**
 * The directional-similarity methods of hrex/methods/dsim.py.
 *
 * For two words the code builds two vectors over the union of their context
 * ids (`_buildVectors`), masks them to the contexts where both weights are
 * non-zero (`_intersectedFeatures`) and compares a precision with a recall:
 * Weeds sums each word's own weights over the shared contexts, ClarkeDE sums
 * the smaller of the two weights; both divide by each word's full sum. The
 * vectors follow the arbitrary iteration order of a Python set; the lemmas
 * show the quotients are the order-free sums of the documented formulae.
 *
 * The sums are numpy float64 values, so a division by zero is not an error:
 * `Quotient` gives an infinity or NaN, and `Greater` is IEEE `>`, false
 * whenever NaN is involved. Rounding is not modelled: weights are `real`.
 */
module DSim {
  import opened PyBuiltins
  import opened Dictionaries
  import opened PairScan

  // ---------------------------------------------------------------------------
  // float64 division and comparison.

  datatype Float = Fin(r: real) | PosInf | NegInf | NaN

  /** `a / b` on float64 values: x/0 is an infinity of the sign of x, 0/0 is NaN. */
  function Quotient(a: real, b: real): Float
  {
    if b != 0.0 then Fin(a / b)
    else if a > 0.0 then PosInf
    else if a < 0.0 then NegInf
    else NaN
  }

  /** IEEE `x > y`. */
  predicate Greater(x: Float, y: Float)
  {
    if x.NaN? || y.NaN? then false
    else if x.Fin? && y.Fin? then x.r > y.r
    else if x.PosInf? then !y.PosInf?
    else if y.NegInf? then !x.NegInf?
    else false
  }

  /** `>` is a strict order on the non-NaN values, and NaN is incomparable. */
  lemma GreaterStrictOrder(x: Float, y: Float, z: Float)
    ensures !Greater(x, x)
    ensures Greater(x, y) ==> !Greater(y, x)
    ensures Greater(x, y) && Greater(y, z) ==> Greater(x, z)
    ensures x.NaN? ==> !Greater(x, y) && !Greater(y, x)
    ensures !x.NaN? && !y.NaN? && x != y ==> Greater(x, y) || Greater(y, x)
  {
  }

  lemma QuotientCases(a: real, b: real)
    ensures b != 0.0 ==> Quotient(a, b) == Fin(a / b)
    ensures b == 0.0 ==> (Quotient(a, b).NaN? <==> a == 0.0)
    ensures b == 0.0 && a != 0.0 ==> !Quotient(a, b).Fin?
  {
  }

  // ---------------------------------------------------------------------------
  // Context lists, dictionaries and vectors.

  /** A word's contexts: context id -> weight. */
  type Features = map<int, real>

  /** The weight of a context, 0 when absent (`_buildVectors` appends 0). */
  function Weight(d: Features, f: int): real
  {
    if f in d then d[f] else 0.0
  }

  /** `dict(l)`: pairs are stored left to right, a later pair replacing an
      earlier one with the same id. */
  function DictOf(l: seq<(int, real)>): Features
  {
    if l == [] then map[] else DictOf(l[..|l| - 1])[l[|l| - 1].0 := l[|l| - 1].1]
  }

  lemma {:induction false} DictOfKeys(l: seq<(int, real)>)
    ensures DictOf(l).Keys == set p | p in l :: p.0
  {
    if l != [] {
      var init := l[..|l| - 1];
      DictOfKeys(init);
      assert l == init + [l[|l| - 1]];
      assert (set p | p in l :: p.0) == (set p | p in init :: p.0) + {l[|l| - 1].0};
    }
  }

  /** The pair that comes last for its id is the one kept. */
  lemma {:induction false} DictOfLastWins(l: seq<(int, real)>, k: nat)
    requires k < |l|
    requires forall q :: k < q < |l| ==> l[q].0 != l[k].0
    ensures l[k].0 in DictOf(l) && DictOf(l)[l[k].0] == l[k].1
  {
    if k < |l| - 1 {
      DictOfLastWins(l[..|l| - 1], k);
    }
  }

  /** The vector of a word's weights along `order`. */
  function Project(d: Features, order: seq<int>): (v: seq<real>)
    ensures |v| == |order|
    ensures forall k :: 0 <= k < |order| ==> v[k] == Weight(d, order[k])
  {
    if order == [] then [] else Project(d, order[..|order| - 1]) + [Weight(d, order[|order| - 1])]
  }

  /** `v.sum()`. */
  function Sum(v: seq<real>): real
  {
    if v == [] then 0.0 else Sum(v[..|v| - 1]) + v[|v| - 1]
  }

  /** `(l1[both], l2[both])` for the mask `both = (l1 != 0) & (l2 != 0)`. */
  function IntersectedFeatures(l1: seq<real>, l2: seq<real>): (r: (seq<real>, seq<real>))
    requires |l1| == |l2|
    ensures |r.0| == |r.1| <= |l1|
    ensures forall k :: 0 <= k < |r.0| ==> r.0[k] != 0.0 && r.1[k] != 0.0
  {
    if l1 == [] then ([], [])
    else
      var n := |l1| - 1;
      var prev := IntersectedFeatures(l1[..n], l2[..n]);
      if l1[n] != 0.0 && l2[n] != 0.0 then (prev.0 + [l1[n]], prev.1 + [l2[n]]) else prev
  }

  lemma IntersectedFeaturesPrefix()
    ensures IntersectedFeatures([10.0, 0.0], [20.0, 30.0]).0 == [10.0]
    ensures IntersectedFeatures([10.0, 0.0], [20.0, 30.0]).1 == [20.0]
  {
    var a, b := [10.0, 0.0], [20.0, 30.0];
    assert a[..1] == [10.0] && b[..1] == [20.0];
    assert a[..1][..0] == [] && b[..1][..0] == [];
  }

  /** The documented example of `_intersectedFeatures`. */
  lemma IntersectedFeaturesExample()
    ensures IntersectedFeatures([10.0, 0.0, 5.0], [20.0, 30.0, 2.0]).0 == [10.0, 5.0]
    ensures IntersectedFeatures([10.0, 0.0, 5.0], [20.0, 30.0, 2.0]).1 == [20.0, 2.0]
  {
    var a, b := [10.0, 0.0, 5.0], [20.0, 30.0, 2.0];
    assert a[..2] == [10.0, 0.0] && b[..2] == [20.0, 30.0];
    IntersectedFeaturesPrefix();
  }

  /** The ClarkeDE numerator: `min` of the two weights, summed in order. */
  function SumMin(a: seq<real>, b: seq<real>): real
    requires |a| == |b|
  {
    if a == [] then 0.0
    else
      var n := |a| - 1;
      SumMin(a[..n], b[..n]) + (if a[n] <= b[n] then a[n] else b[n])
  }

  /** The ids of `order` whose weight is non-zero for both words, in order. */
  function SharedIn(d1: Features, d2: Features, order: seq<int>): (s: seq<int>)
    ensures forall x :: x in s <==> x in order && Weight(d1, x) != 0.0 && Weight(d2, x) != 0.0
  {
    if order == [] then []
    else
      var n := |order| - 1;
      var x := order[n];
      SharedIn(d1, d2, order[..n]) + (if Weight(d1, x) != 0.0 && Weight(d2, x) != 0.0 then [x] else [])
  }

  // ---------------------------------------------------------------------------
  // Sums over sets of contexts: the formulae of the documentation.

  ghost function Pick(s: set<int>): int
    requires s != {}
  {
    NonEmptyIntSet(s);
    var x :| x in s; x
  }

  /** The sum of `d`'s weights over the contexts in `s`. */
  ghost function SetSum(d: Features, s: set<int>): real
    decreases |s|
  {
    if s == {} then 0.0 else Weight(d, Pick(s)) + SetSum(d, s - {Pick(s)})
  }

  /** `F_u ∩ F_v`: contexts with a non-zero weight for both words. */
  function Shared(d1: Features, d2: Features): set<int>
  {
    set f | f in d1 && f in d2 && d1[f] != 0.0 && d2[f] != 0.0
  }

  /** `min(I(u, f), I(v, f))` for the contexts both words have. */
  function MinWeights(d1: Features, d2: Features): Features
  {
    map f | f in d1 && f in d2 :: if d1[f] <= d2[f] then d1[f] else d2[f]
  }

  /** `sum_{f in F_u} I(u, f)`. */
  ghost function Total(d: Features): real
  {
    SetSum(d, d.Keys)
  }

  ghost function WeedsPrec(u: Features, v: Features): Float
  {
    Quotient(SetSum(u, Shared(u, v)), Total(u))
  }

  ghost function WeedsRec(u: Features, v: Features): Float
  {
    Quotient(SetSum(v, Shared(u, v)), Total(v))
  }

  ghost function ClarkePrec(u: Features, v: Features): Float
  {
    Quotient(SetSum(MinWeights(u, v), Shared(u, v)), Total(u))
  }

  ghost function ClarkeRec(u: Features, v: Features): Float
  {
    Quotient(SetSum(MinWeights(u, v), Shared(u, v)), Total(v))
  }

  lemma {:induction false} SetSumRemove(d: Features, s: set<int>, y: int)
    requires y in s
    ensures SetSum(d, s) == Weight(d, y) + SetSum(d, s - {y})
    decreases |s|
  {
    var x := Pick(s);
    if x != y {
      SetSumRemove(d, s - {x}, y);
      SetSumRemove(d, s - {y}, x);
      assert s - {x} - {y} == s - {y} - {x};
    }
  }

  lemma SumProjectSnoc(d: Features, init: seq<int>, y: int)
    ensures Sum(Project(d, init + [y])) == Sum(Project(d, init)) + Weight(d, y)
  {
    ProjectSnoc(d, init, y);
    var v := Project(d, init) + [Weight(d, y)];
    assert v[..|v| - 1] == Project(d, init);
  }

  lemma SetSumSnoc(d: Features, init: seq<int>, y: int)
    requires y !in init
    ensures SetSum(d, set x | x in init + [y]) == SetSum(d, set x | x in init) + Weight(d, y)
  {
    SetOfSnoc(init, y);
    var s := set x | x in init + [y];
    assert s - {y} == set x | x in init;
    SetSumRemove(d, s, y);
  }

  /** Summing a vector along an order without repeats is summing over the set
      of its ids: the order of the Python set does not matter. */
  lemma {:induction false} SumProject(d: Features, order: seq<int>)
    requires NoRepeats(order)
    ensures Sum(Project(d, order)) == SetSum(d, set x | x in order)
  {
    if order != [] {
      var n := |order| - 1;
      var init, y := order[..n], order[n];
      NoRepeatsInit(order);
      SumProject(d, init);
      assert order == init + [y];
      SumProjectSnoc(d, init, y);
      SetSumSnoc(d, init, y);
    }
  }

  /** Contexts of weight 0 add nothing to a sum. */
  lemma {:induction false} SetSumZeros(d: Features, s: set<int>, z: set<int>)
    requires forall x :: x in z ==> Weight(d, x) == 0.0
    ensures SetSum(d, s + z) == SetSum(d, s)
    decreases |z|
  {
    if z - s != {} {
      var x := Pick(z - s);
      SetSumRemove(d, s + z, x);
      assert (s + z) - {x} == s + (z - {x});
      SetSumZeros(d, s, z - {x});
    } else {
      assert s + z == s;
    }
  }

  /** Two weight maps that agree on `s` have the same sum over `s`. */
  lemma {:induction false} SetSumAgree(d: Features, e: Features, s: set<int>)
    requires forall x :: x in s ==> Weight(d, x) == Weight(e, x)
    ensures SetSum(d, s) == SetSum(e, s)
    decreases |s|
  {
    if s != {} {
      SetSumRemove(d, s, Pick(s));
      SetSumRemove(e, s, Pick(s));
      SetSumAgree(d, e, s - {Pick(s)});
    }
  }

  /** The mask on the projected vectors is the projection on the shared ids. */
  lemma {:induction false} IntersectedProject(d1: Features, d2: Features, order: seq<int>)
    ensures IntersectedFeatures(Project(d1, order), Project(d2, order))
            == (Project(d1, SharedIn(d1, d2, order)), Project(d2, SharedIn(d1, d2, order)))
  {
    if order != [] {
      var n := |order| - 1;
      var x := order[n];
      var v1, v2 := Project(d1, order), Project(d2, order);
      assert v1[..n] == Project(d1, order[..n]) && v2[..n] == Project(d2, order[..n]);
      IntersectedProject(d1, d2, order[..n]);
      var sh := SharedIn(d1, d2, order[..n]);
      if Weight(d1, x) != 0.0 && Weight(d2, x) != 0.0 {
        var s := sh + [x];
        assert SharedIn(d1, d2, order) == s;
        assert s[..|s| - 1] == sh;
      } else {
        assert SharedIn(d1, d2, order) == sh + [];
        assert sh + [] == sh;
      }
    }
  }

  lemma {:induction false} SharedInNoRepeats(d1: Features, d2: Features, order: seq<int>)
    requires NoRepeats(order)
    ensures NoRepeats(SharedIn(d1, d2, order))
  {
    if order != [] {
      var n := |order| - 1;
      assert NoRepeats(order[..n]);
      SharedInNoRepeats(d1, d2, order[..n]);
      assert order[n] !in order[..n];
    }
  }

  /** The ClarkeDE loop sums the per-context minimum along the shared ids. */
  lemma {:induction false} SumMinProject(d1: Features, d2: Features, s: seq<int>)
    requires forall k :: 0 <= k < |s| ==> s[k] in d1 && s[k] in d2
    ensures SumMin(Project(d1, s), Project(d2, s)) == Sum(Project(MinWeights(d1, d2), s))
  {
    if s != [] {
      var n := |s| - 1;
      assert Project(d1, s)[..n] == Project(d1, s[..n]);
      assert Project(d2, s)[..n] == Project(d2, s[..n]);
      assert Project(MinWeights(d1, d2), s)[..n] == Project(MinWeights(d1, d2), s[..n]);
      SumMinProject(d1, d2, s[..n]);
    }
  }

  lemma EnumeratedUnion(d1: Features, d2: Features, order: seq<int>)
    requires Enumerates(order, d1.Keys + d2.Keys)
    ensures NoRepeats(order)
    ensures (set x | x in order) == d1.Keys + (d2.Keys - d1.Keys)
  {
  }

  /** Along an enumeration of the union of both context sets, a word's vector
      sums to its full weight: the ids only the other word has count 0. */
  lemma TotalAlongUnion(d1: Features, d2: Features, order: seq<int>)
    requires Enumerates(order, d1.Keys + d2.Keys)
    ensures Sum(Project(d1, order)) == Total(d1)
  {
    EnumeratedUnion(d1, d2, order);
    SumProject(d1, order);
    SetSumZeros(d1, d1.Keys, d2.Keys - d1.Keys);
  }

  /** The masked vectors are the projections on the shared ids in order. */
  lemma MaskedAlong(d1: Features, d2: Features, order: seq<int>)
    requires NoRepeats(order)
    ensures NoRepeats(SharedIn(d1, d2, order))
    ensures IntersectedFeatures(Project(d1, order), Project(d2, order)).0 == Project(d1, SharedIn(d1, d2, order))
    ensures IntersectedFeatures(Project(d1, order), Project(d2, order)).1 == Project(d2, SharedIn(d1, d2, order))
  {
    IntersectedProject(d1, d2, order);
    SharedInNoRepeats(d1, d2, order);
  }

  /** The shared ids of an enumeration of the union are `Shared`. */
  lemma SharedInSet(d1: Features, d2: Features, order: seq<int>)
    requires Enumerates(order, d1.Keys + d2.Keys)
    ensures (set x | x in SharedIn(d1, d2, order)) == Shared(d1, d2)
  {
    var sh := SharedIn(d1, d2, order);
    forall x | x in Shared(d1, d2) ensures x in sh {
      assert x in d1.Keys + d2.Keys;
      assert x in order;
      assert Weight(d1, x) != 0.0 && Weight(d2, x) != 0.0;
    }
    forall x | x in sh ensures x in Shared(d1, d2) {
      assert Weight(d1, x) != 0.0 && Weight(d2, x) != 0.0;
    }
  }

  /** The sums over the masked vectors are the sums over `Shared`. */
  lemma SharedSums(d1: Features, d2: Features, order: seq<int>)
    requires Enumerates(order, d1.Keys + d2.Keys)
    ensures Sum(IntersectedFeatures(Project(d1, order), Project(d2, order)).0) == SetSum(d1, Shared(d1, d2))
    ensures Sum(IntersectedFeatures(Project(d1, order), Project(d2, order)).1) == SetSum(d2, Shared(d1, d2))
  {
    assert NoRepeats(order);
    MaskedAlong(d1, d2, order);
    SharedInSet(d1, d2, order);
    var sh := SharedIn(d1, d2, order);
    SumProject(d1, sh);
    SumProject(d2, sh);
  }

  /** The ClarkeDE numerator over the masked vectors is the sum of the
      minima over `Shared`. */
  lemma SharedMinSum(d1: Features, d2: Features, order: seq<int>)
    requires Enumerates(order, d1.Keys + d2.Keys)
    ensures SumMin(IntersectedFeatures(Project(d1, order), Project(d2, order)).0,
                   IntersectedFeatures(Project(d1, order), Project(d2, order)).1)
            == SetSum(MinWeights(d1, d2), Shared(d1, d2))
  {
    assert NoRepeats(order);
    MaskedAlong(d1, d2, order);
    SharedInSet(d1, d2, order);
    var sh := SharedIn(d1, d2, order);
    SumMinProject(d1, d2, sh);
    SumProject(MinWeights(d1, d2), sh);
  }

  // ---------------------------------------------------------------------------
  // What the scores mean.

  /** With non-zero full sums the scores are the documented ratios. */
  lemma ScoresAreRatios(u: Features, v: Features)
    requires Total(u) != 0.0 && Total(v) != 0.0
    ensures WeedsPrec(u, v) == Fin(SetSum(u, Shared(u, v)) / Total(u))
    ensures WeedsRec(u, v) == Fin(SetSum(v, Shared(u, v)) / Total(v))
    ensures ClarkePrec(u, v) == Fin(SetSum(MinWeights(u, v), Shared(u, v)) / Total(u))
    ensures ClarkeRec(u, v) == Fin(SetSum(MinWeights(u, v), Shared(u, v)) / Total(v))
  {
  }

  /** Distributional inclusion: when every context `u` weighs is a context
      `v` weighs too, Weeds precision is 1. */
  lemma InclusionFullPrecision(u: Features, v: Features)
    requires forall f :: f in u && u[f] != 0.0 ==> f in v && v[f] != 0.0
    requires Total(u) != 0.0
    ensures WeedsPrec(u, v) == Fin(1.0)
  {
    var sh := Shared(u, v);
    var z := u.Keys - sh;
    assert u.Keys == sh + z;
    forall x | x in z ensures Weight(u, x) == 0.0 {
      assert x in u && !(u[x] != 0.0);
    }
    SetSumZeros(u, sh, z);
    var t := Total(u);
    assert t == SetSum(u, sh + z) == SetSum(u, sh);
    assert WeedsPrec(u, v) == Quotient(t, t);
    DivSelf(t);
  }

  lemma DivSelf(t: real)
    requires t != 0.0
    ensures t / t == 1.0
  {
  }

  /** A word without contexts has no weight, so both ratios involving it are
      0/0 = NaN and no comparison succeeds. */
  lemma NoContextsNaN(v: Features)
    ensures WeedsPrec(map[], v).NaN? && WeedsRec(v, map[]).NaN?
    ensures ClarkePrec(map[], v).NaN? && ClarkeRec(v, map[]).NaN?
  {
    assert Shared(map[], v) == {} && Shared(v, map[]) == {};
    assert Total(map[]) == 0.0;
  }

  // ---------------------------------------------------------------------------
  // The relation step.

  /** What the body appends for `w1 = keys[i]`, `w2 = keys[j]`: a higher
      precision than recall makes `w2` the broader word, a higher recall `w1`. */
  function Direction(w1: string, w2: string, prec: Float, rec: Float): seq<Rel>
  {
    if Greater(prec, rec) then [(w2, w1)] else if Greater(rec, prec) then [(w1, w2)] else []
  }

  lemma DirectionMembers(w1: string, w2: string, prec: Float, rec: Float, r: Rel)
    ensures |Direction(w1, w2, prec, rec)| <= 1
    ensures (w2, w1) in Direction(w1, w2, prec, rec) <== Greater(prec, rec)
    ensures (w1, w2) in Direction(w1, w2, prec, rec) <== Greater(rec, prec)
    ensures r in Direction(w1, w2, prec, rec) ==> r == (w1, w2) || r == (w2, w1)
    ensures prec.NaN? || rec.NaN? || prec == rec ==> Direction(w1, w2, prec, rec) == []
  {
    GreaterStrictOrder(prec, rec, prec);
  }

  /** The contexts of a listed word: `dict(drels[id])`, with `drels` the list
      view returned by `dic2List`. */
  function Contexts(m: map<string, Entry>, lists: map<int, seq<(int, real)>>, w: string): Features
  {
    if w in m && m[w].0 in lists then DictOf(lists[m[w].0]) else map[]
  }

  /** The precision and recall of the chosen measure. */
  ghost function Prec(u: Features, v: Features, clarke: bool): Float
  {
    if clarke then ClarkePrec(u, v) else WeedsPrec(u, v)
  }

  ghost function Rec(u: Features, v: Features, clarke: bool): Float
  {
    if clarke then ClarkeRec(u, v) else WeedsRec(u, v)
  }

  /** Swapping the two words swaps precision and recall. */
  lemma ScoresSwap(u: Features, v: Features, clarke: bool)
    ensures Prec(u, v, clarke) == Rec(v, u, clarke) && Rec(u, v, clarke) == Prec(v, u, clarke)
  {
    assert Shared(u, v) == Shared(v, u);
    assert MinWeights(u, v) == MinWeights(v, u);
  }

  /** What the loop body appends for `w1 = a`, `w2 = b`: ClarkDE's scores
      when `clarke`, Weeds' otherwise. */
  ghost function Judge(m: map<string, Entry>, lists: map<int, seq<(int, real)>>, clarke: bool, a: string, b: string): seq<Rel>
  {
    var u, v := Contexts(m, lists, a), Contexts(m, lists, b);
    Direction(a, b, Prec(u, v, clarke), Rec(u, v, clarke))
  }

  ghost function Measure(m: map<string, Entry>, lists: map<int, seq<(int, real)>>, clarke: bool): (string, string) -> seq<Rel>
  {
    (a: string, b: string) => Judge(m, lists, clarke, a, b)
  }

  /** `b` is the broader word of `a` and `b`: the shared contexts make up more
      of `a`'s weight (precision) than of `b`'s (recall). */
  ghost predicate Broader(m: map<string, Entry>, lists: map<int, seq<(int, real)>>, clarke: bool, b: string, a: string)
  {
    var u, v := Contexts(m, lists, a), Contexts(m, lists, b);
    Greater(Prec(u, v, clarke), Rec(u, v, clarke))
  }

  /** At most one relation per unordered pair, none repeated, no self-pair:
      the scan facts hold for both measures. */
  lemma MeasureOriented(m: map<string, Entry>, lists: map<int, seq<(int, real)>>, clarke: bool)
    ensures Oriented(Measure(m, lists, clarke))
  {
    forall a, b ensures |Measure(m, lists, clarke)(a, b)| <= 1 &&
                        forall r :: r in Measure(m, lists, clarke)(a, b) ==> r == (a, b) || r == (b, a) {
      var u, v := Contexts(m, lists, a), Contexts(m, lists, b);
      var prec, rec := Prec(u, v, clarke), Rec(u, v, clarke);
      assert Measure(m, lists, clarke)(a, b) == Direction(a, b, prec, rec);
      forall r ensures r in Direction(a, b, prec, rec) ==> r == (a, b) || r == (b, a) {
        DirectionMembers(a, b, prec, rec, r);
      }
      DirectionMembers(a, b, prec, rec, (a, b));
    }
  }

  /** The body for the pair `(keys[p], keys[q])` appends `(b, a)` exactly when
      `b` is the broader word, whichever of the two comes first. */
  lemma JudgeEitherOrder(m: map<string, Entry>, lists: map<int, seq<(int, real)>>, clarke: bool, a: string, b: string)
    requires a != b
    ensures (b, a) in Judge(m, lists, clarke, a, b) <==> Broader(m, lists, clarke, b, a)
    ensures (b, a) in Judge(m, lists, clarke, b, a) <==> Broader(m, lists, clarke, b, a)
  {
    var u, v := Contexts(m, lists, a), Contexts(m, lists, b);
    ScoresSwap(u, v, clarke);
    GreaterStrictOrder(Prec(u, v, clarke), Rec(u, v, clarke), Prec(u, v, clarke));
  }

  /** With `keys` listing the dictionary, one call appends `(b, a)` exactly
      when `a` and `b` are distinct stored words and `b` is the broader one:
      the result does not depend on the order of the keys, each relation is
      appended once and never in both directions. */
  lemma MeasureRelations(keys: seq<string>, m: map<string, Entry>, lists: map<int, seq<(int, real)>>, clarke: bool, a: string, b: string)
    requires Enumerates(keys, m.Keys)
    ensures (b, a) in Scan(keys, Measure(m, lists, clarke)) <==> a in m && b in m && a != b && Broader(m, lists, clarke, b, a)
    ensures NoRepeats(Scan(keys, Measure(m, lists, clarke)))
    ensures (b, a) in Scan(keys, Measure(m, lists, clarke)) ==> (a, b) !in Scan(keys, Measure(m, lists, clarke))
  {
    var cmp := Measure(m, lists, clarke);
    MeasureOriented(m, lists, clarke);
    ScanOnce(keys, cmp, b, a);
    ScanMembers(keys, cmp, (b, a));
    if (b, a) in Scan(keys, cmp) {
      var p, q :| ComparedAt(keys, cmp, p, q, (b, a));
      assert (b, a) == (keys[p], keys[q]) || (b, a) == (keys[q], keys[p]);
      JudgeEitherOrder(m, lists, clarke, a, b);
    }
    if a in m && b in m && a != b && Broader(m, lists, clarke, b, a) {
      JudgeEitherOrder(m, lists, clarke, a, b);
      var p :| 0 <= p < |keys| && keys[p] == a;
      var q :| 0 <= q < |keys| && keys[q] == b;
      if p < q {
        assert ComparedAt(keys, cmp, p, q, (b, a));
      } else {
        assert p != q;
        assert ComparedAt(keys, cmp, q, p, (b, a));
      }
    }
  }

  /** The docstring example of `_buildVectors`: the two context lists as
      dictionaries, ... */
  lemma BuildVectorsExample()
    ensures DictOf([(1, 1.0), (2, 2.0), (3, 3.0)]) == map[1 := 1.0, 2 := 2.0, 3 := 3.0]
    ensures DictOf([(2, 20.0), (3, 30.0), (4, 40.0)]) == map[2 := 20.0, 3 := 30.0, 4 := 40.0]
  {
    var l1: seq<(int, real)> := [(1, 1.0), (2, 2.0), (3, 3.0)];
    assert l1[..2] == [(1, 1.0), (2, 2.0)] && l1[..2][..1] == [(1, 1.0)] && l1[..2][..1][..0] == [];
    assert DictOf(l1[..2][..1]) == map[1 := 1.0];
    assert DictOf(l1[..2]) == map[1 := 1.0, 2 := 2.0];
    var l2: seq<(int, real)> := [(2, 20.0), (3, 30.0), (4, 40.0)];
    assert l2[..2] == [(2, 20.0), (3, 30.0)] && l2[..2][..1] == [(2, 20.0)] && l2[..2][..1][..0] == [];
    assert DictOf(l2[..2][..1]) == map[2 := 20.0];
    assert DictOf(l2[..2]) == map[2 := 20.0, 3 := 30.0];
  }

  /** ... the vectors the code builds over the union of their ids (here in
      the order 1, 2, 3, 4), where the docstring promises the intersection
      `[2, 3]`, `[20, 30]` ... */
  lemma BuildVectorsUnionExample()
    ensures Project(map[1 := 1.0, 2 := 2.0, 3 := 3.0], [1, 2, 3, 4]) == [1.0, 2.0, 3.0, 0.0]
    ensures Project(map[2 := 20.0, 3 := 30.0, 4 := 40.0], [1, 2, 3, 4]) == [0.0, 20.0, 30.0, 40.0]
  {
  }

  /** ... and the mask applied afterwards, which gives the documented vectors. */
  lemma BuildVectorsMaskExample()
    ensures IntersectedFeatures([1.0, 2.0, 3.0, 0.0], [0.0, 20.0, 30.0, 40.0]).0 == [2.0, 3.0]
    ensures IntersectedFeatures([1.0, 2.0, 3.0, 0.0], [0.0, 20.0, 30.0, 40.0]).1 == [20.0, 30.0]
  {
    var a, b := [1.0, 2.0, 3.0, 0.0], [0.0, 20.0, 30.0, 40.0];
    assert a[..3] == [1.0, 2.0, 3.0] && b[..3] == [0.0, 20.0, 30.0];
    assert a[..3][..2] == [1.0, 2.0] && b[..3][..2] == [0.0, 20.0];
    assert a[..3][..2][..1] == [1.0] && b[..3][..2][..1] == [0.0];
    assert a[..3][..2][..1][..0] == [] && b[..3][..2][..1][..0] == [];
    assert IntersectedFeatures(a[..3][..2][..1], b[..3][..2][..1]).0 == [];
    assert IntersectedFeatures(a[..3][..2], b[..3][..2]).0 == [2.0];
    assert IntersectedFeatures(a[..3][..2], b[..3][..2]).1 == [20.0];
    assert IntersectedFeatures(a[..3], b[..3]).0 == [2.0, 3.0];
    assert IntersectedFeatures(a[..3], b[..3]).1 == [20.0, 30.0];
  }

  // ---------------------------------------------------------------------------
  // The loops.

  lemma ProjectSnoc(d: Features, order: seq<int>, y: int)
    ensures Project(d, order + [y]) == Project(d, order) + [Weight(d, y)]
  {
    assert (order + [y])[..|order|] == order;
  }

  /** Moving `id` from the ids still to visit to the visited list keeps the
      bookkeeping of the `_buildVectors` loop. */
  lemma VisitStep(all: set<int>, rest: set<int>, both: seq<int>, id: int)
    requires rest + (set x | x in both) == all && rest !! (set x | x in both)
    requires NoRepeats(both) && id in rest
    ensures (rest - {id}) + (set x | x in both + [id]) == all
    ensures (rest - {id}) !! (set x | x in both + [id])
    ensures NoRepeats(both + [id])
  {
    SetOfSnoc(both, id);
    assert id !in both;
    forall p, q | 0 <= p < q < |both + [id]| ensures (both + [id])[p] != (both + [id])[q] {
      if q == |both| {
        assert (both + [id])[p] == both[p];
      }
    }
  }

  /** `_buildVectors(l1, l2)`: for each id of the union, in the set's
      iteration order, the weight of each word or 0. */
  method BuildVectors(l1: seq<(int, real)>, l2: seq<(int, real)>) returns (v1: seq<real>, v2: seq<real>, both: seq<int>)
    ensures Enumerates(both, DictOf(l1).Keys + DictOf(l2).Keys)
    ensures v1 == Project(DictOf(l1), both) && v2 == Project(DictOf(l2), both)
  {
    var d1 := DictOf(l1);
    var d2 := DictOf(l2);
    var rest := d1.Keys + d2.Keys;
    v1, v2, both := [], [], [];
    while rest != {}
      invariant rest + (set x | x in both) == d1.Keys + d2.Keys
      invariant rest !! (set x | x in both)
      invariant NoRepeats(both)
      invariant v1 == Project(d1, both) && v2 == Project(d2, both)
      decreases |rest|
    {
      NonEmptyIntSet(rest);
      var id :| id in rest;
      if id in d1 {
        v1 := v1 + [d1[id]];
      } else {
        v1 := v1 + [0.0];
      }
      if id in d2 {
        v2 := v2 + [d2[id]];
      } else {
        v2 := v2 + [0.0];
      }
      ProjectSnoc(d1, both, id);
      ProjectSnoc(d2, both, id);
      VisitStep(d1.Keys + d2.Keys, rest, both, id);
      both := both + [id];
      rest := rest - {id};
    }
    assert (set x | x in both) == d1.Keys + d2.Keys;
  }

  /** The ClarkeDE numerator loop. It rebinds the outer loop variable `i`,
      which does not disturb the outer `for`: its range was fixed at entry. */
  method ClarkeNumerator(a: seq<real>, b: seq<real>) returns (numerator: real)
    requires |a| == |b|
    ensures numerator == SumMin(a, b)
  {
    numerator := 0.0;
    var k := 0;
    while k < |a|
      invariant 0 <= k <= |a|
      invariant numerator == SumMin(a[..k], b[..k])
    {
      var value := if a[k] <= b[k] then a[k] else b[k];
      numerator := numerator + value;
      assert a[..k + 1][..k] == a[..k] && b[..k + 1][..k] == b[..k];
      k := k + 1;
    }
    assert a[..k] == a && b[..k] == b;
  }

  /** The scores the loop body computes for two context lists: the documented
      ratios, whatever the iteration order. */
  method Scores(ctx1: seq<(int, real)>, ctx2: seq<(int, real)>, clarke: bool) returns (prec: Float, rec: Float)
    ensures prec == Prec(DictOf(ctx1), DictOf(ctx2), clarke)
    ensures rec == Rec(DictOf(ctx1), DictOf(ctx2), clarke)
  {
    var v1, v2, vboth := BuildVectors(ctx1, ctx2);
    var both := IntersectedFeatures(v1, v2);
    var d1, d2 := DictOf(ctx1), DictOf(ctx2);
    TotalAlongUnion(d1, d2, vboth);
    TotalAlongUnion(d2, d1, vboth);
    SharedSums(d1, d2, vboth);
    SharedMinSum(d1, d2, vboth);
    if clarke {
      var numerator := ClarkeNumerator(both.0, both.1);
      prec := Quotient(numerator, Sum(v1));
      rec := Quotient(numerator, Sum(v2));
    } else {
      prec := Quotient(Sum(both.0), Sum(v1));
      rec := Quotient(Sum(both.1), Sum(v2));
    }
  }

  /** Every listed word's id has a context list (otherwise `drels[id]` raises
      KeyError). */
  predicate HasLists(m: map<string, Entry>, lists: map<int, seq<(int, real)>>)
  {
    forall w :: w in m ==> m[w].0 in lists
  }

  /** The scores of the two words' context lists decide the step as the
      measure does. */
  lemma MeasureStep(m: map<string, Entry>, lists: map<int, seq<(int, real)>>, clarke: bool,
                    w1: string, w2: string, prec: Float, rec: Float)
    requires w1 in m && w2 in m && HasLists(m, lists)
    requires prec == Prec(DictOf(lists[m[w1].0]), DictOf(lists[m[w2].0]), clarke)
    requires rec == Rec(DictOf(lists[m[w1].0]), DictOf(lists[m[w2].0]), clarke)
    ensures Measure(m, lists, clarke)(w1, w2) == Direction(w1, w2, prec, rec)
  {
    assert Contexts(m, lists, w1) == DictOf(lists[m[w1].0]);
    assert Contexts(m, lists, w2) == DictOf(lists[m[w2].0]);
  }

  /** Round `j` of the inner loop appends what `Direction` gives for the
      scores of `keys[i]` and `keys[j]`. */
  lemma ScanRowStep(keys: seq<string>, m: map<string, Entry>, lists: map<int, seq<(int, real)>>, clarke: bool,
                    i: nat, j: nat, prec: Float, rec: Float)
    requires (forall i :: 0 <= i < |keys| ==> keys[i] in m) && HasLists(m, lists)
    requires i < j < |keys|
    requires prec == Prec(DictOf(lists[m[keys[i]].0]), DictOf(lists[m[keys[j]].0]), clarke)
    requires rec == Rec(DictOf(lists[m[keys[i]].0]), DictOf(lists[m[keys[j]].0]), clarke)
    ensures Row(keys, Measure(m, lists, clarke), i, j + 1)
            == Row(keys, Measure(m, lists, clarke), i, j) + Direction(keys[i], keys[j], prec, rec)
  {
    MeasureStep(m, lists, clarke, keys[i], keys[j], prec, rec);
    RowSnoc(keys, Measure(m, lists, clarke), i, j);
  }

  /** The inner loop of both `identifyRelations` methods, for `w1 = keys[i]`. */
  method ScanRow(keys: seq<string>, m: map<string, Entry>, lists: map<int, seq<(int, real)>>, clarke: bool, i: nat)
    returns (row: seq<Rel>)
    requires (forall i :: 0 <= i < |keys| ==> keys[i] in m) && HasLists(m, lists)
    requires i < |keys|
    ensures row == Row(keys, Measure(m, lists, clarke), i, |keys|)
  {
    var w1 := keys[i];
    var ctx1 := lists[m[w1].0];
    row := [];
    var j := i + 1;
    while j < |keys|
      invariant i + 1 <= j <= |keys|
      invariant row == Row(keys, Measure(m, lists, clarke), i, j)
    {
      var w2 := keys[j];
      var ctx2 := lists[m[w2].0];
      var prec, rec := Scores(ctx1, ctx2, clarke);
      ghost var prev := row;
      if Greater(prec, rec) {
        row := row + [(w2, w1)];
      } else if Greater(rec, prec) {
        row := row + [(w1, w2)];
      }
      assert row == prev + Direction(w1, w2, prec, rec);
      ScanRowStep(keys, m, lists, clarke, i, j, prec, rec);
      j := j + 1;
    }
  }

  /** The outer loop of both `identifyRelations` methods; `clarke` selects
      ClarkDE's scores instead of Weeds'. */
  method RunScan(keys: seq<string>, m: map<string, Entry>, lists: map<int, seq<(int, real)>>, clarke: bool)
    returns (out: seq<Rel>)
    requires (forall i :: 0 <= i < |keys| ==> keys[i] in m) && HasLists(m, lists)
    ensures out == Scan(keys, Measure(m, lists, clarke))
  {
    out := [];
    var i := 0;
    while i < |keys|
      invariant 0 <= i <= |keys|
      invariant out == Rows(keys, Measure(m, lists, clarke), i)
    {
      var row := ScanRow(keys, m, lists, clarke, i);
      out := out + row;
      i := i + 1;
    }
  }

  /** `Weeds`: precision and recall of the shared contexts' own weights. */
  class Weeds {
    const dwords: DictWords
    var rels: seq<Rel>

    constructor (dwords: DictWords)
      ensures this.dwords == dwords && rels == []
    {
      this.dwords := dwords;
      rels := [];
    }

    /** `identifyRelations()`, with `lists` the result of `self.drels.dic2List()`
        and `keys` Python's order of `self.dwords.keys()`. */
    method IdentifyRelations(keys: seq<string>, lists: map<int, seq<(int, real)>>)
      requires Enumerates(keys, dwords.items.Keys) && HasLists(dwords.items, lists)
      modifies this
      ensures rels == old(rels) + Scan(keys, Measure(dwords.items, lists, false))
    {
      var found := RunScan(keys, dwords.items, lists, false);
      rels := rels + found;
    }
  }

  /** `ClarkDE`: the shared contexts weighed by the smaller of the two weights. */
  class ClarkDE {
    const dwords: DictWords
    var rels: seq<Rel>

    constructor (dwords: DictWords)
      ensures this.dwords == dwords && rels == []
    {
      this.dwords := dwords;
      rels := [];
    }

    method IdentifyRelations(keys: seq<string>, lists: map<int, seq<(int, real)>>)
      requires Enumerates(keys, dwords.items.Keys) && HasLists(dwords.items, lists)
      modifies this
      ensures rels == old(rels) + Scan(keys, Measure(dwords.items, lists, true))
    {
      var found := RunScan(keys, dwords.items, lists, true);
      rels := rels + found;
    }
  }
}
