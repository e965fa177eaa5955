/** Parameter enumeration: the `itertools.product` of five axes, the
    infeasibility filter, the sentinel resolution and the stable sort by
    number of candidates (generate.py lines 47-56). */
module Enumeration {
  import opened Common

  /** The five value lists a batch is configured with. */
  datatype Axes = Axes(
    committeeSizes: seq<int>,
    numVotersValues: seq<int>,
    numCandValues: seq<int>,
    distributions: seq<string>,
    setSizes: seq<SetSize>)

  // ---------------------------------------------------------------------------
  // The cross product, in itertools.product order
  // ---------------------------------------------------------------------------

  /** p * q, written as repeated addition so that positions inside the
      product are reasoned about linearly; MulIsProduct relates it to `*`. */
  function Mul(p: nat, q: nat): nat
  {
    if p == 0 then 0 else Mul(p - 1, q) + q
  }

  lemma {:induction false} MulIsProduct(p: nat, q: nat)
    ensures Mul(p, q) == p * q
  {
    if p > 0 {
      MulIsProduct(p - 1, q);
    }
  }

  function Flatten<T>(xss: seq<seq<T>>): seq<T>
  {
    if xss == [] then [] else xss[0] + Flatten(xss[1..])
  }

  lemma FlattenCons<T>(xs: seq<T>, rest: seq<seq<T>>)
    ensures Flatten([xs] + rest) == xs + Flatten(rest)
  {
    assert ([xs] + rest)[1..] == rest;
  }

  lemma {:induction false} FlattenLength<T>(xss: seq<seq<T>>, m: nat)
    requires forall j :: 0 <= j < |xss| ==> |xss[j]| == m
    ensures |Flatten(xss)| == Mul(|xss|, m)
  {
    if xss != [] {
      FlattenLength(xss[1..], m);
    }
  }

  /** Block `a` of a flattened sequence of equal-length blocks starts at `a * m`. */
  lemma {:induction false} FlattenAt<T>(xss: seq<seq<T>>, m: nat, a: nat, r: nat)
    requires forall j :: 0 <= j < |xss| ==> |xss[j]| == m
    requires a < |xss| && r < m
    ensures |Flatten(xss)| == Mul(|xss|, m)
    ensures Mul(a, m) + r < Mul(|xss|, m)
    ensures Flatten(xss)[Mul(a, m) + r] == xss[a][r]
  {
    FlattenLength(xss, m);
    if a > 0 {
      FlattenAt(xss[1..], m, a - 1, r);
    }
  }

  lemma {:induction false} FlattenMember<T>(xss: seq<seq<T>>, x: T)
    ensures x in Flatten(xss) <==> exists j :: 0 <= j < |xss| && x in xss[j]
  {
    if xss != [] {
      FlattenMember(xss[1..], x);
      if x in Flatten(xss[1..]) {
        var j :| 0 <= j < |xss[1..]| && x in xss[1..][j];
        assert x in xss[j + 1];
      }
      if exists j :: 0 <= j < |xss| && x in xss[j] {
        var j :| 0 <= j < |xss| && x in xss[j];
        if j > 0 { assert x in xss[1..][j - 1]; }
      }
    }
  }

  /** The combination picking element a, b, c, d, e of the five axes. */
  function Combo(x: Axes, a: nat, b: nat, c: nat, d: nat, e: nat): Scenario
    requires a < |x.committeeSizes| && b < |x.numVotersValues| && c < |x.numCandValues|
    requires d < |x.distributions| && e < |x.setSizes|
  {
    Scenario(x.committeeSizes[a], x.numVotersValues[b], x.numCandValues[c],
             x.distributions[d], x.setSizes[e])
  }

  // The product is built axis by axis: Blocks<n> lists, for each value of
  // axis n, the block of combinations that fix it and all earlier axes.

  function Blocks5(x: Axes, a: nat, b: nat, c: nat, d: nat): seq<Scenario>
    requires a < |x.committeeSizes| && b < |x.numVotersValues| && c < |x.numCandValues|
    requires d < |x.distributions|
  {
    seq(|x.setSizes|, e requires 0 <= e < |x.setSizes| => Combo(x, a, b, c, d, e))
  }

  function Blocks4(x: Axes, a: nat, b: nat, c: nat): seq<seq<Scenario>>
    requires a < |x.committeeSizes| && b < |x.numVotersValues| && c < |x.numCandValues|
  {
    seq(|x.distributions|, d requires 0 <= d < |x.distributions| => Blocks5(x, a, b, c, d))
  }

  function Blocks3(x: Axes, a: nat, b: nat): seq<seq<Scenario>>
    requires a < |x.committeeSizes| && b < |x.numVotersValues|
  {
    seq(|x.numCandValues|, c requires 0 <= c < |x.numCandValues| => Flatten(Blocks4(x, a, b, c)))
  }

  function Blocks2(x: Axes, a: nat): seq<seq<Scenario>>
    requires a < |x.committeeSizes|
  {
    seq(|x.numVotersValues|, b requires 0 <= b < |x.numVotersValues| => Flatten(Blocks3(x, a, b)))
  }

  function Blocks1(x: Axes): seq<seq<Scenario>>
  {
    seq(|x.committeeSizes|, a requires 0 <= a < |x.committeeSizes| => Flatten(Blocks2(x, a)))
  }

  /** `itertools.product(committeesizes, num_voters_values, num_cand_values,
      prob_distributions, approval_setsizes)` as a list. */
  function Product(x: Axes): seq<Scenario>
  {
    Flatten(Blocks1(x))
  }

  // Strides: how many product entries one step along an axis skips.

  function DistStride(x: Axes): nat
  {
    |x.setSizes|
  }

  function CandStride(x: Axes): nat
  {
    Mul(|x.distributions|, DistStride(x))
  }

  function VoterStride(x: Axes): nat
  {
    Mul(|x.numCandValues|, CandStride(x))
  }

  function SizeStride(x: Axes): nat
  {
    Mul(|x.numVotersValues|, VoterStride(x))
  }

  /** Position of combination (a, b, c, d, e) in the product: a mixed-radix
      number whose last digit is the approval-set-size index. */
  function ProductIndex(x: Axes, a: nat, b: nat, c: nat, d: nat, e: nat): nat
  {
    Mul(a, SizeStride(x)) + (Mul(b, VoterStride(x)) + (Mul(c, CandStride(x)) + (Mul(d, DistStride(x)) + e)))
  }

  /** The nested product form of the Horner evaluation, kept apart so the
      nonlinear rewriting stays out of the lemmas that use it. */
  lemma HornerNested(V: nat, N: nat, D: nat, S: nat, a: nat, b: nat, c: nat, d: nat, e: nat)
    ensures (((a * V + b) * N + c) * D + d) * S + e
            == a * (V * (N * (D * S))) + (b * (N * (D * S)) + (c * (D * S) + (d * S + e)))
  {
  }

  /** The position is the Horner evaluation of the digits (a, b, c, d, e) in
      the radices given by the axis lengths. */
  lemma ProductIndexHorner(x: Axes, a: nat, b: nat, c: nat, d: nat, e: nat)
    ensures ProductIndex(x, a, b, c, d, e)
            == (((a * |x.numVotersValues| + b) * |x.numCandValues| + c) * |x.distributions| + d)
               * |x.setSizes| + e
  {
    var V, N, D, S := |x.numVotersValues|, |x.numCandValues|, |x.distributions|, |x.setSizes|;
    MulIsProduct(D, S);
    assert CandStride(x) == D * S;
    MulIsProduct(N, D * S);
    assert VoterStride(x) == N * (D * S);
    MulIsProduct(V, N * (D * S));
    assert SizeStride(x) == V * (N * (D * S));
    MulIsProduct(a, V * (N * (D * S)));
    MulIsProduct(b, N * (D * S));
    MulIsProduct(c, D * S);
    MulIsProduct(d, S);
    HornerNested(V, N, D, S, a, b, c, d, e);
  }

  lemma Level4At(x: Axes, a: nat, b: nat, c: nat, d: nat, e: nat)
    requires a < |x.committeeSizes| && b < |x.numVotersValues| && c < |x.numCandValues|
    requires d < |x.distributions| && e < |x.setSizes|
    ensures |Flatten(Blocks4(x, a, b, c))| == CandStride(x)
    ensures Mul(d, DistStride(x)) + e < CandStride(x)
    ensures Flatten(Blocks4(x, a, b, c))[Mul(d, DistStride(x)) + e] == Combo(x, a, b, c, d, e)
  {
    FlattenAt(Blocks4(x, a, b, c), |x.setSizes|, d, e);
  }

  lemma Level3Length(x: Axes, a: nat, b: nat)
    requires a < |x.committeeSizes| && b < |x.numVotersValues|
    ensures forall c :: 0 <= c < |x.numCandValues| ==> |Blocks3(x, a, b)[c]| == CandStride(x)
    ensures |Flatten(Blocks3(x, a, b))| == VoterStride(x)
  {
    forall c: nat | c < |x.numCandValues| ensures |Blocks3(x, a, b)[c]| == CandStride(x) {
      FlattenLength(Blocks4(x, a, b, c), |x.setSizes|);
    }
    FlattenLength(Blocks3(x, a, b), CandStride(x));
  }

  lemma Level3At(x: Axes, a: nat, b: nat, c: nat, i: nat)
    requires a < |x.committeeSizes| && b < |x.numVotersValues| && c < |x.numCandValues|
    requires i < CandStride(x)
    ensures |Flatten(Blocks3(x, a, b))| == VoterStride(x)
    ensures Mul(c, CandStride(x)) + i < VoterStride(x)
    ensures |Flatten(Blocks4(x, a, b, c))| == CandStride(x)
    ensures Flatten(Blocks3(x, a, b))[Mul(c, CandStride(x)) + i] == Flatten(Blocks4(x, a, b, c))[i]
  {
    Level3Length(x, a, b);
    FlattenAt(Blocks3(x, a, b), CandStride(x), c, i);
    assert Blocks3(x, a, b)[c] == Flatten(Blocks4(x, a, b, c));
  }

  lemma Level2Length(x: Axes, a: nat)
    requires a < |x.committeeSizes|
    ensures forall b :: 0 <= b < |x.numVotersValues| ==> |Blocks2(x, a)[b]| == VoterStride(x)
    ensures |Flatten(Blocks2(x, a))| == SizeStride(x)
  {
    forall b: nat | b < |x.numVotersValues| ensures |Blocks2(x, a)[b]| == VoterStride(x) {
      Level3Length(x, a, b);
    }
    FlattenLength(Blocks2(x, a), VoterStride(x));
  }

  lemma Level2At(x: Axes, a: nat, b: nat, i: nat)
    requires a < |x.committeeSizes| && b < |x.numVotersValues|
    requires i < VoterStride(x)
    ensures |Flatten(Blocks2(x, a))| == SizeStride(x)
    ensures Mul(b, VoterStride(x)) + i < SizeStride(x)
    ensures |Flatten(Blocks3(x, a, b))| == VoterStride(x)
    ensures Flatten(Blocks2(x, a))[Mul(b, VoterStride(x)) + i] == Flatten(Blocks3(x, a, b))[i]
  {
    Level2Length(x, a);
    FlattenAt(Blocks2(x, a), VoterStride(x), b, i);
    assert Blocks2(x, a)[b] == Flatten(Blocks3(x, a, b));
  }

  lemma Level1Length(x: Axes)
    ensures forall a :: 0 <= a < |x.committeeSizes| ==> |Blocks1(x)[a]| == SizeStride(x)
    ensures |Product(x)| == Mul(|x.committeeSizes|, SizeStride(x))
  {
    forall a: nat | a < |x.committeeSizes| ensures |Blocks1(x)[a]| == SizeStride(x) {
      Level2Length(x, a);
    }
    FlattenLength(Blocks1(x), SizeStride(x));
  }

  lemma Level1At(x: Axes, a: nat, i: nat)
    requires a < |x.committeeSizes|
    requires i < SizeStride(x)
    ensures Mul(a, SizeStride(x)) + i < |Product(x)|
    ensures |Flatten(Blocks2(x, a))| == SizeStride(x)
    ensures Product(x)[Mul(a, SizeStride(x)) + i] == Flatten(Blocks2(x, a))[i]
  {
    Level1Length(x);
    FlattenAt(Blocks1(x), SizeStride(x), a, i);
    assert Blocks1(x)[a] == Flatten(Blocks2(x, a));
  }

  /** The product has as many entries as the product of the axis lengths. */
  lemma ProductLength(x: Axes)
    ensures |Product(x)| == |x.committeeSizes| * (|x.numVotersValues| * (|x.numCandValues|
                            * (|x.distributions| * |x.setSizes|)))
  {
    var C, V, N, D, S := |x.committeeSizes|, |x.numVotersValues|, |x.numCandValues|,
                         |x.distributions|, |x.setSizes|;
    Level1Length(x);
    MulIsProduct(D, S);
    assert CandStride(x) == D * S;
    MulIsProduct(N, D * S);
    assert VoterStride(x) == N * (D * S);
    MulIsProduct(V, N * (D * S));
    assert SizeStride(x) == V * (N * (D * S));
    MulIsProduct(C, V * (N * (D * S)));
  }

  /** The entry at the mixed-radix position of (a, b, c, d, e) is that
      combination: the last axis varies fastest, the first slowest. */
  lemma ProductAt(x: Axes, a: nat, b: nat, c: nat, d: nat, e: nat)
    requires a < |x.committeeSizes| && b < |x.numVotersValues| && c < |x.numCandValues|
    requires d < |x.distributions| && e < |x.setSizes|
    ensures ProductIndex(x, a, b, c, d, e) < |Product(x)|
    ensures Product(x)[ProductIndex(x, a, b, c, d, e)] == Combo(x, a, b, c, d, e)
  {
    var combo := Combo(x, a, b, c, d, e);
    var i4 := Mul(d, DistStride(x)) + e;
    assert i4 < CandStride(x) && Flatten(Blocks4(x, a, b, c))[i4] == combo by {
      Level4At(x, a, b, c, d, e);
    }
    var i3 := Mul(c, CandStride(x)) + i4;
    assert i3 < VoterStride(x) && Flatten(Blocks3(x, a, b))[i3] == combo by {
      Level3At(x, a, b, c, i4);
    }
    var i2 := Mul(b, VoterStride(x)) + i3;
    assert i2 < SizeStride(x) && Flatten(Blocks2(x, a))[i2] == combo by {
      Level2At(x, a, b, i3);
    }
    assert Mul(a, SizeStride(x)) + i2 < |Product(x)| && Product(x)[Mul(a, SizeStride(x)) + i2] == combo by {
      Level1At(x, a, i2);
    }
  }

  /** `s` is one of the combinations of the five axes. */
  ghost predicate IsCombo(x: Axes, s: Scenario)
  {
    exists a: nat, b: nat, c: nat, d: nat, e: nat
      | a < |x.committeeSizes| && b < |x.numVotersValues| && c < |x.numCandValues|
        && d < |x.distributions| && e < |x.setSizes|
      :: s == Combo(x, a, b, c, d, e)
  }

  lemma ProductMemberIsCombo(x: Axes, s: Scenario)
    requires s in Product(x)
    ensures IsCombo(x, s)
  {
    FlattenMember(Blocks1(x), s);
    var a :| 0 <= a < |x.committeeSizes| && s in Blocks1(x)[a];
    FlattenMember(Blocks2(x, a), s);
    var b :| 0 <= b < |x.numVotersValues| && s in Blocks2(x, a)[b];
    FlattenMember(Blocks3(x, a, b), s);
    var c :| 0 <= c < |x.numCandValues| && s in Blocks3(x, a, b)[c];
    FlattenMember(Blocks4(x, a, b, c), s);
    var d :| 0 <= d < |x.distributions| && s in Blocks4(x, a, b, c)[d];
    var e :| 0 <= e < |x.setSizes| && Blocks5(x, a, b, c, d)[e] == s;
    assert s == Combo(x, a, b, c, d, e);
  }

  lemma ComboInProduct(x: Axes, a: nat, b: nat, c: nat, d: nat, e: nat)
    requires a < |x.committeeSizes| && b < |x.numVotersValues| && c < |x.numCandValues|
    requires d < |x.distributions| && e < |x.setSizes|
    ensures Combo(x, a, b, c, d, e) in Product(x)
  {
    ProductAt(x, a, b, c, d, e);
  }

  /** The product holds exactly the combinations of the five axes. */
  lemma ProductMember(x: Axes, s: Scenario)
    ensures s in Product(x) <==> IsCombo(x, s)
  {
    if s in Product(x) {
      ProductMemberIsCombo(x, s);
    }
    forall a: nat, b: nat, c: nat, d: nat, e: nat
      | a < |x.committeeSizes| && b < |x.numVotersValues| && c < |x.numCandValues|
        && d < |x.distributions| && e < |x.setSizes|
      ensures Combo(x, a, b, c, d, e) in Product(x)
    {
      ComboInProduct(x, a, b, c, d, e);
    }
  }

  // ---------------------------------------------------------------------------
  // Filter and sentinel resolution (the loop body of lines 48-55)
  // ---------------------------------------------------------------------------

  /** A combination survives the `committeesize >= num_cand` filter. */
  predicate Feasible(s: Scenario)
  {
    s.committeeSize < s.numCand
  }

  /** Replace the set-size sentinel "committeesize" by the tuple's committee size. */
  function Resolve(s: Scenario): Scenario
  {
    if s.setSize == CommitteeSizeTag then s.(setSize := Count(s.committeeSize)) else s
  }

  /** The list the loop of lines 48-55 builds from the first |combos| combinations. */
  function Kept(combos: seq<Scenario>): seq<Scenario>
  {
    if combos == [] then []
    else
      var last := combos[|combos| - 1];
      Kept(combos[..|combos| - 1]) + (if Feasible(last) then [Resolve(last)] else [])
  }

  /** Positions of the combinations that pass the filter. */
  function FeasibleIndices(combos: seq<Scenario>): set<nat>
  {
    set i: nat | i < |combos| && Feasible(combos[i])
  }

  lemma {:induction false} KeptMember(combos: seq<Scenario>, s: Scenario)
    ensures s in Kept(combos) <==>
            exists i :: 0 <= i < |combos| && Feasible(combos[i]) && s == Resolve(combos[i])
  {
    if combos != [] {
      var n := |combos| - 1;
      var init := combos[..n];
      KeptMember(init, s);
      if exists i :: 0 <= i < |init| && Feasible(init[i]) && s == Resolve(init[i]) {
        var i :| 0 <= i < |init| && Feasible(init[i]) && s == Resolve(init[i]);
        assert combos[i] == init[i];
      }
      if exists i :: 0 <= i < |combos| && Feasible(combos[i]) && s == Resolve(combos[i]) {
        var i :| 0 <= i < |combos| && Feasible(combos[i]) && s == Resolve(combos[i]);
        if i < n { assert init[i] == combos[i]; }
      }
    }
  }

  lemma {:induction false} KeptLength(combos: seq<Scenario>)
    ensures |Kept(combos)| == |FeasibleIndices(combos)|
  {
    if combos != [] {
      var n := |combos| - 1;
      var init := combos[..n];
      KeptLength(init);
      var prev := FeasibleIndices(init);
      assert forall i: nat :: i < n ==> (i in prev <==> i in FeasibleIndices(combos));
      if Feasible(combos[n]) {
        assert FeasibleIndices(combos) == prev + {n};
      } else {
        assert FeasibleIndices(combos) == prev;
      }
    }
  }

  // ---------------------------------------------------------------------------
  // The stable sort by number of candidates (line 56)
  // ---------------------------------------------------------------------------

  predicate SortedByCand(s: seq<Scenario>)
  {
    forall i, j :: 0 <= i < j < |s| ==> s[i].numCand <= s[j].numCand
  }

  /** The entries with `num_cand == k`, in their order in `s`. */
  function WithCand(s: seq<Scenario>, k: int): seq<Scenario>
  {
    if s == [] then []
    else (if s[0].numCand == k then [s[0]] else []) + WithCand(s[1..], k)
  }

  /** Insert `x` before the first entry whose `num_cand` is not smaller. */
  function InsertByCand(x: Scenario, s: seq<Scenario>): seq<Scenario>
  {
    if s == [] || x.numCand <= s[0].numCand then [x] + s
    else [s[0]] + InsertByCand(x, s[1..])
  }

  /** `list.sort(key=itemgetter(2))`, as insertion sort. */
  function SortByCand(s: seq<Scenario>): seq<Scenario>
  {
    if s == [] then [] else InsertByCand(s[0], SortByCand(s[1..]))
  }

  lemma {:induction false} WithCandMember(s: seq<Scenario>, k: int, x: Scenario)
    ensures x in WithCand(s, k) <==> x in s && x.numCand == k
  {
    if s != [] {
      WithCandMember(s[1..], k, x);
      assert s == [s[0]] + s[1..];
    }
  }

  lemma {:induction false} InsertByCandMultiset(x: Scenario, s: seq<Scenario>)
    ensures multiset(InsertByCand(x, s)) == multiset(s) + multiset{x}
  {
    if !(s == [] || x.numCand <= s[0].numCand) {
      InsertByCandMultiset(x, s[1..]);
      assert s == [s[0]] + s[1..];
    }
  }

  lemma SortedByCandCons(y: Scenario, u: seq<Scenario>)
    requires SortedByCand(u)
    requires u == [] || y.numCand <= u[0].numCand
    ensures SortedByCand([y] + u)
  {
    var r := [y] + u;
    forall i, j | 0 <= i < j < |r| ensures r[i].numCand <= r[j].numCand {
      if i == 0 && j > 1 {
        assert u[0].numCand <= u[j - 1].numCand;
      }
    }
  }

  lemma {:induction false} InsertByCandSorted(x: Scenario, s: seq<Scenario>)
    requires SortedByCand(s)
    ensures SortedByCand(InsertByCand(x, s))
  {
    if s == [] || x.numCand <= s[0].numCand {
      SortedByCandCons(x, s);
    } else {
      var t := s[1..];
      assert SortedByCand(t);
      InsertByCandSorted(x, t);
      var u := InsertByCand(x, t);
      assert u[0] == x || u[0] == t[0];
      SortedByCandCons(s[0], u);
    }
  }

  lemma WithCandCons(y: Scenario, u: seq<Scenario>, k: int)
    ensures WithCand([y] + u, k) == (if y.numCand == k then [y] else []) + WithCand(u, k)
  {
    assert ([y] + u)[1..] == u;
  }

  lemma {:induction false} InsertByCandWithCand(x: Scenario, s: seq<Scenario>, k: int)
    ensures WithCand(InsertByCand(x, s), k) == (if x.numCand == k then [x] else []) + WithCand(s, k)
  {
    if s == [] || x.numCand <= s[0].numCand {
      WithCandCons(x, s, k);
    } else {
      var t := s[1..];
      InsertByCandWithCand(x, t, k);
      WithCandCons(s[0], InsertByCand(x, t), k);
      assert s == [s[0]] + t;
      WithCandCons(s[0], t, k);
      if s[0].numCand == k {
        assert x.numCand != k;
        assert WithCand(InsertByCand(x, s), k) == [s[0]] + WithCand(t, k);
      } else {
        assert WithCand(InsertByCand(x, s), k) == WithCand(InsertByCand(x, t), k);
      }
    }
  }

  /** The sort returns a sorted permutation that keeps, for every number of
      candidates, the entries with that number in their original order. */
  lemma {:induction false} SortByCandIsStableSort(s: seq<Scenario>)
    ensures SortedByCand(SortByCand(s))
    ensures multiset(SortByCand(s)) == multiset(s)
    ensures forall k :: WithCand(SortByCand(s), k) == WithCand(s, k)
  {
    if s != [] {
      SortByCandIsStableSort(s[1..]);
      InsertByCandMultiset(s[0], SortByCand(s[1..]));
      InsertByCandSorted(s[0], SortByCand(s[1..]));
      forall k ensures WithCand(SortByCand(s), k) == WithCand(s, k) {
        InsertByCandWithCand(s[0], SortByCand(s[1..]), k);
      }
      assert s == [s[0]] + s[1..];
    }
  }

  lemma WithCandHead(s: seq<Scenario>)
    requires s != []
    ensures WithCand(s, s[0].numCand) == [s[0]] + WithCand(s[1..], s[0].numCand)
  {
  }

  /** Two lists sorted by number of candidates that agree on the order of the
      entries for every number of candidates are the same list. */
  lemma {:induction false} SortedByCandDetermined(r: seq<Scenario>, t: seq<Scenario>)
    requires SortedByCand(r) && SortedByCand(t)
    requires forall k :: WithCand(r, k) == WithCand(t, k)
    ensures r == t
  {
    if r == [] || t == [] {
      if r != [] {
        WithCandHead(r);
        assert false;
      } else if t != [] {
        WithCandHead(t);
        assert false;
      }
    } else {
      var m, m' := r[0].numCand, t[0].numCand;
      assert t[0] in WithCand(t, m') by { WithCandMember(t, m', t[0]); }
      assert t[0] in WithCand(r, m');
      WithCandMember(r, m', t[0]);
      assert m <= m';
      assert r[0] in WithCand(r, m) by { WithCandMember(r, m, r[0]); }
      assert r[0] in WithCand(t, m);
      WithCandMember(t, m, r[0]);
      assert m' <= m;
      assert r[0] == WithCand(r, m)[0] == WithCand(t, m)[0] == t[0];
      forall k ensures WithCand(r[1..], k) == WithCand(t[1..], k) {
        if k == m {
          assert WithCand(r[1..], k) == WithCand(r, k)[1..];
          assert WithCand(t[1..], k) == WithCand(t, k)[1..];
        } else {
          assert WithCand(r[1..], k) == WithCand(r, k);
          assert WithCand(t[1..], k) == WithCand(t, k);
        }
      }
      SortedByCandDetermined(r[1..], t[1..]);
      assert r == [r[0]] + r[1..] && t == [t[0]] + t[1..];
    }
  }

  /** Any stable sort by number of candidates gives what SortByCand gives,
      so the insertion sort here stands for Python's sort without loss. */
  lemma StableSortUnique(s: seq<Scenario>, r: seq<Scenario>)
    requires SortedByCand(r)
    requires forall k :: WithCand(r, k) == WithCand(s, k)
    ensures r == SortByCand(s)
  {
    SortByCandIsStableSort(s);
    SortedByCandDetermined(r, SortByCand(s));
  }

  // ---------------------------------------------------------------------------
  // The enumeration as a whole
  // ---------------------------------------------------------------------------

  /** The parameter tuples of a batch, in processing order. */
  function Enumerate(x: Axes): seq<Scenario>
  {
    SortByCand(Kept(Product(x)))
  }

  /** Lines 47-56: build `parameter_tuples` by appending in product order,
      then sort it in place by number of candidates. */
  method EnumerateScenarios(x: Axes) returns (parameterTuples: seq<Scenario>)
    ensures parameterTuples == Enumerate(x)
  {
    var combos := Product(x);
    parameterTuples := [];
    for i := 0 to |combos|
      invariant parameterTuples == Kept(combos[..i])
    {
      assert combos[..i + 1][..i] == combos[..i];
      var s := combos[i];
      if s.committeeSize >= s.numCand {
        continue;
      }
      if s.setSize == CommitteeSizeTag {
        s := s.(setSize := Count(s.committeeSize));
      }
      parameterTuples := parameterTuples + [s];
    }
    assert combos[..|combos|] == combos;
    parameterTuples := SortByCand(parameterTuples);
  }

  /** Exactly the feasible combinations, each with its sentinel resolved,
      occur in the enumeration. */
  lemma EnumerateMember(x: Axes, s: Scenario)
    ensures s in Enumerate(x) <==>
            exists c :: IsCombo(x, c) && c.committeeSize < c.numCand && s == Resolve(c)
  {
    var P := Product(x);
    SortByCandIsStableSort(Kept(P));
    assert s in Enumerate(x) <==> s in multiset(Kept(P));
    KeptMember(P, s);
    if s in Kept(P) {
      var i :| 0 <= i < |P| && Feasible(P[i]) && s == Resolve(P[i]);
      ProductMember(x, P[i]);
    }
    if exists c :: IsCombo(x, c) && c.committeeSize < c.numCand && s == Resolve(c) {
      var c :| IsCombo(x, c) && c.committeeSize < c.numCand && s == Resolve(c);
      ProductMember(x, c);
      var i :| 0 <= i < |P| && P[i] == c;
    }
  }

  lemma ComboFields(x: Axes, c: Scenario)
    requires IsCombo(x, c)
    ensures c.committeeSize in x.committeeSizes && c.numVoters in x.numVotersValues
    ensures c.numCand in x.numCandValues && c.distribution in x.distributions
    ensures c.setSize in x.setSizes
  {
  }

  /** Every enumerated tuple is feasible and carries a concrete set size
      (the sentinel never survives): the tuple's committee size when the axis
      value was the sentinel, and the axis value itself otherwise (`None` included). */
  lemma EnumerateResolved(x: Axes, s: Scenario)
    requires s in Enumerate(x)
    ensures s.committeeSize < s.numCand
    ensures s.setSize != CommitteeSizeTag
    ensures exists v :: v in x.setSizes &&
              s.setSize == (if v == CommitteeSizeTag then Count(s.committeeSize) else v)
  {
    EnumerateMember(x, s);
    var c :| IsCombo(x, c) && c.committeeSize < c.numCand && s == Resolve(c);
    ComboFields(x, c);
    assert c.setSize in x.setSizes;
  }

  /** The enumeration is a permutation of the filtered, resolved product. */
  lemma EnumeratePermutation(x: Axes)
    ensures multiset(Enumerate(x)) == multiset(Kept(Product(x)))
  {
    SortByCandIsStableSort(Kept(Product(x)));
  }

  /** The enumeration has one tuple per feasible combination. */
  lemma EnumerateCount(x: Axes)
    ensures |Enumerate(x)| == |FeasibleIndices(Product(x))|
  {
    EnumeratePermutation(x);
    KeptLength(Product(x));
    assert |Enumerate(x)| == |multiset(Enumerate(x))|;
  }

  /** The enumeration is ordered by number of candidates, and tuples with the
      same number of candidates keep their product order. */
  lemma EnumerateOrder(x: Axes)
    ensures SortedByCand(Enumerate(x))
    ensures forall k :: WithCand(Enumerate(x), k) == WithCand(Kept(Product(x)), k)
  {
    SortByCandIsStableSort(Kept(Product(x)));
  }

  lemma ExampleProduct(x: Axes)
    requires x == Axes([3, 4], [8], [6, 4], ["IC"], [CommitteeSizeTag])
    ensures Product(x) == [Scenario(3, 8, 6, "IC", CommitteeSizeTag),
                           Scenario(3, 8, 4, "IC", CommitteeSizeTag),
                           Scenario(4, 8, 6, "IC", CommitteeSizeTag),
                           Scenario(4, 8, 4, "IC", CommitteeSizeTag)]
  {
    var c0 := Scenario(3, 8, 6, "IC", CommitteeSizeTag);
    var c1 := Scenario(3, 8, 4, "IC", CommitteeSizeTag);
    var c2 := Scenario(4, 8, 6, "IC", CommitteeSizeTag);
    var c3 := Scenario(4, 8, 4, "IC", CommitteeSizeTag);
    var none: seq<seq<Scenario>> := [];
    FlattenCons([c0], none);
    FlattenCons([c1], none);
    FlattenCons([c2], none);
    FlattenCons([c3], none);
    assert Blocks3(x, 0, 0) == [[c0], [c1]] by {
      assert Combo(x, 0, 0, 0, 0, 0) == c0 && Combo(x, 0, 0, 1, 0, 0) == c1;
      assert Blocks5(x, 0, 0, 0, 0) == [c0] && Blocks5(x, 0, 0, 1, 0) == [c1];
      assert Blocks4(x, 0, 0, 0) == [[c0]] && Blocks4(x, 0, 0, 1) == [[c1]];
      assert Flatten(Blocks4(x, 0, 0, 0)) == [c0] && Flatten(Blocks4(x, 0, 0, 1)) == [c1];
    }
    assert Blocks3(x, 1, 0) == [[c2], [c3]] by {
      assert Combo(x, 1, 0, 0, 0, 0) == c2 && Combo(x, 1, 0, 1, 0, 0) == c3;
      assert Blocks5(x, 1, 0, 0, 0) == [c2] && Blocks5(x, 1, 0, 1, 0) == [c3];
      assert Blocks4(x, 1, 0, 0) == [[c2]] && Blocks4(x, 1, 0, 1) == [[c3]];
      assert Flatten(Blocks4(x, 1, 0, 0)) == [c2] && Flatten(Blocks4(x, 1, 0, 1)) == [c3];
    }
    FlattenCons([c1], none);
    FlattenCons([c0], [[c1]]);
    FlattenCons([c2], [[c3]]);
    FlattenCons([c3], none);
    FlattenCons([c0, c1], none);
    FlattenCons([c2, c3], none);
    assert Flatten(Blocks3(x, 0, 0)) == [c0, c1] && Flatten(Blocks3(x, 1, 0)) == [c2, c3];
    assert Blocks2(x, 0) == [[c0, c1]] && Blocks2(x, 1) == [[c2, c3]];
    assert Flatten(Blocks2(x, 0)) == [c0, c1] && Flatten(Blocks2(x, 1)) == [c2, c3];
    assert Blocks1(x) == [[c0, c1], [c2, c3]];
    FlattenCons([c2, c3], none);
    FlattenCons([c0, c1], [[c2, c3]]);
  }

  lemma ExampleKeptSorted(P: seq<Scenario>)
    requires P == [Scenario(3, 8, 6, "IC", CommitteeSizeTag),
                   Scenario(3, 8, 4, "IC", CommitteeSizeTag),
                   Scenario(4, 8, 6, "IC", CommitteeSizeTag),
                   Scenario(4, 8, 4, "IC", CommitteeSizeTag)]
    ensures SortByCand(Kept(P)) == [Scenario(3, 8, 4, "IC", Count(3)),
                                    Scenario(3, 8, 6, "IC", Count(3)),
                                    Scenario(4, 8, 6, "IC", Count(4))]
  {
    var r0, r1, r2 := Scenario(3, 8, 6, "IC", Count(3)), Scenario(3, 8, 4, "IC", Count(3)),
                      Scenario(4, 8, 6, "IC", Count(4));
    assert P[..3][..2] == P[..2] && P[..2][..1] == P[..1] && P[..1][..0] == [];
    assert Kept(P[..1]) == [r0];
    assert Kept(P[..2]) == [r0, r1];
    assert Kept(P[..3]) == [r0, r1, r2];
    assert Kept(P) == [r0, r1, r2];
    assert [r0, r1, r2][1..] == [r1, r2] && [r1, r2][1..] == [r2];
    assert SortByCand([r2]) == [r2];
    assert SortByCand([r1, r2]) == [r1, r2];
    assert InsertByCand(r0, [r2]) == [r0, r2];
    assert InsertByCand(r0, [r1, r2]) == [r1, r0, r2];
  }

  /** A worked batch: committee sizes [3, 4], 8 voters, candidate counts
      [6, 4] in that order, "IC", set size "committeesize". The combination
      (4, 8, 4) is dropped, the sentinel becomes each tuple's committee size,
      and the sort moves the 4-candidate tuple to the front while the two
      6-candidate tuples keep their product order. */
  lemma EnumerateExample(x: Axes)
    requires x == Axes([3, 4], [8], [6, 4], ["IC"], [CommitteeSizeTag])
    ensures Enumerate(x)
            == [Scenario(3, 8, 4, "IC", Count(3)),
                Scenario(3, 8, 6, "IC", Count(3)),
                Scenario(4, 8, 6, "IC", Count(4))]
  {
    ExampleProduct(x);
    ExampleKeptSorted(Product(x));
  }
}
