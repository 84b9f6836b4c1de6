/**
  The optimisation profile of a network: the smallest, the largest and a typical shape of every
  input, and the axes that change, computed from the items of a dataset.
*/
module Profile {
  import opened Wrappers

  type Shape = seq<nat>

  /** The shapes of the tensors of one item, in the order in which the item is flattened. */
  type Item = seq<Shape>

  predicate SameRanks(x: Item, y: Item) {
    |x| == |y| && forall j :: 0 <= j < |x| ==> |x[j]| == |y[j]|
  }

  /** A dataset with at least one item, all of the structure of the first. */
  predicate Consistent(items: seq<Item>) {
    |items| > 0 && forall i :: 0 <= i < |items| ==> SameRanks(items[0], items[i])
  }

  // ----- the columns of shapes and their extremes -----

  /** The column lists the shapes of input `j` in the first `n` items. */
  ghost predicate IsColumn(column: seq<Shape>, items: seq<Item>, j: nat, n: nat)
    requires Consistent(items) && j < |items[0]| && n <= |items|
  {
    |column| == n && forall i :: 0 <= i < n ==> column[i] == items[i][j]
  }

  /** The shapes of every input in all items, as `shapes` collects them. */
  method Shapes(items: seq<Item>) returns (shapes: seq<seq<Shape>>)
    requires Consistent(items)
    ensures |shapes| == |items[0]|
    ensures forall j :: 0 <= j < |shapes| ==> IsColumn(shapes[j], items, j, |items|)
  {
    shapes := seq(|items[0]|, _ => []);
    for i := 0 to |items|
      invariant |shapes| == |items[0]|
      invariant forall j :: 0 <= j < |shapes| ==> IsColumn(shapes[j], items, j, i)
    {
      for j := 0 to |items[i]|
        invariant |shapes| == |items[0]|
        invariant forall k :: 0 <= k < |shapes| ==> IsColumn(shapes[k], items, k, if k < j then i + 1 else i)
      {
        shapes := shapes[j := shapes[j] + [items[i][j]]];
      }
    }
  }

  /** The larger or the smaller of two extents. */
  function Pick(largest: bool, a: nat, b: nat): nat {
    if (a < b) == largest then b else a
  }

  /** `e` bounds `x` from above or from below. */
  predicate Bounds(largest: bool, e: nat, x: nat) {
    if largest then x <= e else e <= x
  }

  predicate HasRank(column: seq<Shape>, r: nat) {
    forall i :: 0 <= i < |column| ==> |column[i]| == r
  }

  /** Extent by extent the largest or the smallest of a column of shapes. */
  function Extreme(largest: bool, column: seq<Shape>, r: nat): (s: Shape)
    requires |column| > 0 && HasRank(column, r)
    ensures |s| == r
  {
    if |column| == 1 then column[0]
    else
      var rest := Extreme(largest, column[1..], r);
      seq(r, a requires 0 <= a < r => Pick(largest, column[0][a], rest[a]))
  }

  /** An extreme bounds every shape of the column, and some shape attains it. */
  lemma {:induction false} ExtremeIsAttained(largest: bool, column: seq<Shape>, r: nat, a: nat)
    requires |column| > 0 && HasRank(column, r) && a < r
    ensures forall i :: 0 <= i < |column| ==> Bounds(largest, Extreme(largest, column, r)[a], column[i][a])
    ensures exists i :: 0 <= i < |column| && Extreme(largest, column, r)[a] == column[i][a]
    decreases |column|
  {
    if |column| <= 1 {
    } else {
      ExtremeIsAttained(largest, column[1..], r, a);
      var rest := Extreme(largest, column[1..], r)[a];
      var k :| 0 <= k < |column[1..]| && rest == column[1..][k][a];
      assert column[k + 1] == column[1..][k];
      var e := if Extreme(largest, column, r)[a] == column[0][a] then 0 else k + 1;
      assert Extreme(largest, column, r)[a] == column[e][a];
      forall i | 0 <= i < |column| ensures Bounds(largest, Extreme(largest, column, r)[a], column[i][a]) {
        if i > 0 { assert column[i] == column[1..][i - 1]; }
      }
    }
  }

  /** `s` is the smallest or the largest shape of input `j`, extent by extent. */
  ghost predicate IsExtreme(largest: bool, s: Shape, items: seq<Item>, j: nat)
    requires Consistent(items) && j < |items[0]|
  {
    && |s| == |items[0][j]|
    && forall a :: 0 <= a < |s| ==> IsExtremeAt(largest, s[a], items, j, a)
  }

  ghost predicate IsExtremeAt(largest: bool, e: nat, items: seq<Item>, j: nat, a: nat)
    requires Consistent(items) && j < |items[0]| && a < |items[0][j]|
  {
    && (forall i :: 0 <= i < |items| ==> Bounds(largest, e, items[i][j][a]))
    && (exists i :: 0 <= i < |items| && e == items[i][j][a])
  }

  /** `min_shapes` and `max_shapes`: every extent is the least or the greatest of all items. */
  method ShapeStats(items: seq<Item>, largest: bool) returns (stats: seq<Shape>)
    requires Consistent(items)
    ensures |stats| == |items[0]|
    ensures forall j :: 0 <= j < |stats| ==> IsExtreme(largest, stats[j], items, j)
  {
    var shapes := Shapes(items);
    stats := [];
    for j := 0 to |shapes|
      invariant |stats| == j
      invariant forall k :: 0 <= k < j ==> IsExtreme(largest, stats[k], items, k)
    {
      assert IsColumn(shapes[j], items, j, |items|);
      var r := |items[0][j]|;
      var s := Extreme(largest, shapes[j], r);
      forall a | 0 <= a < r ensures IsExtremeAt(largest, s[a], items, j, a) {
        ExtremeIsAttained(largest, shapes[j], r, a);
      }
      stats := stats + [s];
    }
  }

  // ----- the typical item -----

  function Numel(s: Shape): nat {
    if |s| == 0 then 1 else s[0] * Numel(s[1..])
  }

  /** The number of elements in all tensors of an item. */
  function ItemNumel(x: Item): nat {
    if |x| == 0 then 0 else Numel(x[0]) + ItemNumel(x[1..])
  }

  lemma Regroup(a: nat, b: nat, c: nat)
    ensures a * b * c == a * (b * c)
  {
  }

  /** The number of elements is the product of the extents. */
  lemma {:induction false} NumelIsProduct(s: Shape, t: Shape)
    ensures Numel([]) == 1 && forall n :: Numel([n]) == n
    ensures Numel(s + t) == Numel(s) * Numel(t)
  {
    if s == [] {
      assert s + t == t;
    } else {
      NumelIsProduct(s[1..], t);
      assert (s + t)[1..] == s[1..] + t;
      Regroup(s[0], Numel(s[1..]), Numel(t));
    }
  }

  /** The elements of an item are those of its tensors together. */
  lemma {:induction false} ItemNumelIsSum(x: Item, y: Item)
    ensures forall s :: ItemNumel([s]) == Numel(s)
    ensures ItemNumel(x + y) == ItemNumel(x) + ItemNumel(y)
  {
    if x == [] {
      assert x + y == y;
    } else {
      ItemNumelIsSum(x[1..], y);
      assert (x + y)[1..] == x[1..] + y;
    }
  }

  /** `order` is a result of `argsort`: all indices, by increasing number of elements. */
  ghost predicate IsArgsort(order: seq<nat>, numels: seq<nat>) {
    && |order| == |numels|
    && (forall i :: 0 <= i < |order| ==> order[i] < |numels|)
    && (forall i, j :: 0 <= i < j < |order| ==> order[i] != order[j])
    && (forall i, j :: 0 <= i < j < |order| ==> numels[order[i]] <= numels[order[j]])
  }

  /** The items with at most, and with at least, as many elements as item `m`. */
  function NotLarger(numels: seq<nat>, m: nat): set<nat>
    requires m < |numels|
  {
    set i: nat | i < |numels| && numels[i] <= numels[m]
  }

  function NotSmaller(numels: seq<nat>, m: nat): set<nat>
    requires m < |numels|
  {
    set i: nat | i < |numels| && numels[i] >= numels[m]
  }

  ghost predicate Distinct(order: seq<nat>) {
    forall i, j :: 0 <= i < j < |order| ==> order[i] != order[j]
  }

  /** Different indices that all lie in a set are no more than the set has. */
  lemma {:induction false} DistinctFit(order: seq<nat>, s: set<nat>)
    requires Distinct(order) && forall i :: 0 <= i < |order| ==> order[i] in s
    ensures |order| <= |s|
    decreases |order|
  {
    if |order| == 0 {
    } else {
      var last := |order| - 1;
      forall i | 0 <= i < last ensures order[..last][i] in s - {order[last]} {
        assert order[i] != order[last];
      }
      DistinctFit(order[..last], s - {order[last]});
    }
  }

  /**
    The item in the middle of the order: more than half of the items have no more elements, and at
    least half have no fewer.
  */
  lemma MiddleIsMedian(order: seq<nat>, numels: seq<nat>)
    requires IsArgsort(order, numels) && |numels| > 0
    ensures var m := order[|order| / 2];
      2 * |NotLarger(numels, m)| > |numels| && 2 * |NotSmaller(numels, m)| >= |numels|
  {
    var h := |order| / 2;
    DistinctFit(order[..h + 1], NotLarger(numels, order[h]));
    DistinctFit(order[h..], NotSmaller(numels, order[h]));
  }

  /** `median_numel_shapes`: the shapes of the item in the middle of the given order. */
  method MedianShapes(items: seq<Item>, order: seq<nat>) returns (opts: Item)
    requires Consistent(items)
    requires IsArgsort(order, seq(|items|, i requires 0 <= i < |items| => ItemNumel(items[i])))
    ensures opts == items[order[|items| / 2]]
  {
    var median := order[|order| / 2];
    opts := [];
    for j := 0 to |items[median]|
      invariant opts == items[median][..j]
    {
      opts := opts + [items[median][j]];
    }
  }

  // ----- the axes that change -----

  /** The increasing list of the axes on which two shapes differ. */
  ghost predicate ListsDifferences(axes: seq<nat>, lo: Shape, hi: Shape) {
    ListsBelow(axes, lo, hi, Lesser(|lo|, |hi|))
  }

  function Lesser(m: nat, n: nat): nat {
    if m < n then m else n
  }

  ghost predicate ListsBelow(axes: seq<nat>, lo: Shape, hi: Shape, n: nat)
    requires n <= |lo| && n <= |hi|
  {
    && (forall k, l :: 0 <= k < l < |axes| ==> axes[k] < axes[l])
    && (forall a: nat :: a in axes <==> a < n && lo[a] != hi[a])
  }

  /** The axes of one input. */
  method DifferingAxes(lo: Shape, hi: Shape) returns (axes: seq<nat>)
    ensures ListsDifferences(axes, lo, hi)
  {
    axes := [];
    for a := 0 to Lesser(|lo|, |hi|)
      invariant ListsBelow(axes, lo, hi, a)
    {
      if lo[a] != hi[a] {
        assert forall k :: 0 <= k < |axes| ==> axes[k] in axes;
        axes := axes + [a];
      }
    }
  }

  /** `infer_dynamic_axes`, for all inputs. */
  method InferDynamicAxes(mins: seq<Shape>, maxs: seq<Shape>) returns (axes: seq<seq<nat>>)
    requires |mins| == |maxs|
    ensures |axes| == |mins|
    ensures forall j :: 0 <= j < |mins| ==> ListsDifferences(axes[j], mins[j], maxs[j])
  {
    axes := [];
    for j := 0 to |mins|
      invariant |axes| == j
      invariant forall k :: 0 <= k < j ==> ListsDifferences(axes[k], mins[k], maxs[k])
    {
      var changing := DifferingAxes(mins[j], maxs[j]);
      axes := axes + [changing];
    }
  }

  // ----- the profile -----

  datatype Profile = Profile(mins: seq<Shape>, opts: seq<Shape>, maxs: seq<Shape>, axes: seq<seq<nat>>)

  predicate Within(s: Shape, lo: Shape, hi: Shape) {
    |s| == |lo| == |hi| && forall a :: 0 <= a < |s| ==> lo[a] <= s[a] <= hi[a]
  }

  /** Every shape of the item lies between the smallest and the largest of its input. */
  ghost predicate Admits(p: Profile, x: Item) {
    |x| == |p.mins| == |p.maxs| && forall j :: 0 <= j < |x| ==> Within(x[j], p.mins[j], p.maxs[j])
  }

  /** The legacy batch size: the first extent of a bound is replaced, or added when there is none. */
  function WithBatch(n: nat, s: Shape): Shape {
    if |s| == 0 then [n] else [n] + s[1..]
  }

  /** `s` is an extreme of input `j`, with the first extent replaced when a batch size is given. */
  ghost predicate IsBound(largest: bool, s: Shape, items: seq<Item>, j: nat, batch: Option<nat>)
    requires Consistent(items) && j < |items[0]|
  {
    if batch.None? then IsExtreme(largest, s, items, j)
    else exists e: Shape :: IsExtreme(largest, e, items, j) && s == WithBatch(batch.value, e)
  }

  /** A profile of the dataset; with a legacy batch size the first extents of its bounds are one and that size. */
  ghost predicate IsProfile(p: Profile, items: seq<Item>, maxBatchSize: Option<nat>)
    requires Consistent(items)
  {
    && |p.mins| == |p.opts| == |p.maxs| == |p.axes| == |items[0]|
    && (exists m :: 0 <= m < |items| && p.opts == items[m])
    && (forall j :: 0 <= j < |items[0]| ==> IsBound(false, p.mins[j], items, j, if maxBatchSize.Some? then Some(1) else None))
    && (forall j :: 0 <= j < |items[0]| ==> IsBound(true, p.maxs[j], items, j, maxBatchSize))
    && (forall j :: 0 <= j < |items[0]| ==> ListsDifferences(p.axes[j], p.mins[j], p.maxs[j]))
  }

  function WithBatches(n: nat, shapes: seq<Shape>): (r: seq<Shape>)
    ensures |r| == |shapes| && forall j :: 0 <= j < |r| ==> r[j] == WithBatch(n, shapes[j])
  {
    seq(|shapes|, j requires 0 <= j < |shapes| => WithBatch(n, shapes[j]))
  }

  /** What `torch2trt` computes for a dataset when it is given no shapes of its own. */
  method BuildProfile(items: seq<Item>, order: seq<nat>, maxBatchSize: Option<nat>) returns (p: Profile)
    requires Consistent(items)
    requires IsArgsort(order, seq(|items|, i requires 0 <= i < |items| => ItemNumel(items[i])))
    ensures IsProfile(p, items, maxBatchSize)
    ensures p.opts == items[order[|items| / 2]]
  {
    var mins := ShapeStats(items, false);
    var maxs := ShapeStats(items, true);
    var opts := MedianShapes(items, order);
    if maxBatchSize.Some? {
      mins := WithBatches(1, mins);
      maxs := WithBatches(maxBatchSize.value, maxs);
    }
    var axes := InferDynamicAxes(mins, maxs);
    p := Profile(mins, opts, maxs, axes);
  }

  lemma ExtremesAdmit(lo: Shape, hi: Shape, items: seq<Item>, j: nat, i: nat)
    requires Consistent(items) && j < |items[0]| && i < |items|
    requires IsExtreme(false, lo, items, j) && IsExtreme(true, hi, items, j)
    ensures Within(items[i][j], lo, hi)
  {
    assert SameRanks(items[0], items[i]);
    forall a | 0 <= a < |items[i][j]| ensures lo[a] <= items[i][j][a] <= hi[a] {
      assert IsExtremeAt(false, lo[a], items, j, a) && IsExtremeAt(true, hi[a], items, j, a);
    }
  }

  /** Without a batch size the profile admits every item, and so also the typical shapes. */
  lemma ProfileAdmitsItems(p: Profile, items: seq<Item>)
    requires Consistent(items) && IsProfile(p, items, None)
    ensures forall i :: 0 <= i < |items| ==> Admits(p, items[i])
    ensures Admits(p, p.opts)
  {
    forall i | 0 <= i < |items| ensures Admits(p, items[i]) {
      assert SameRanks(items[0], items[i]);
      forall j | 0 <= j < |items[i]| ensures Within(items[i][j], p.mins[j], p.maxs[j]) {
        assert IsBound(false, p.mins[j], items, j, None) && IsBound(true, p.maxs[j], items, j, None);
        ExtremesAdmit(p.mins[j], p.maxs[j], items, j, i);
      }
    }
  }

  /** Two items differ on axis `a` of input `j`. */
  ghost predicate Differ(items: seq<Item>, j: nat, a: nat)
    requires Consistent(items) && j < |items[0]| && a < |items[0][j]|
  {
    exists i, k :: 0 <= i < |items| && 0 <= k < |items| && items[i][j][a] != items[k][j][a]
  }

  lemma ExtremesDifferIff(e: nat, f: nat, items: seq<Item>, j: nat, a: nat)
    requires Consistent(items) && j < |items[0]| && a < |items[0][j]|
    requires IsExtremeAt(false, e, items, j, a) && IsExtremeAt(true, f, items, j, a)
    ensures e != f <==> Differ(items, j, a)
  {
    var i :| 0 <= i < |items| && e == items[i][j][a];
    var k :| 0 <= k < |items| && f == items[k][j][a];
    if e == f {
      forall i, k | 0 <= i < |items| && 0 <= k < |items| ensures items[i][j][a] == items[k][j][a] {
        assert Bounds(false, e, items[i][j][a]) && Bounds(true, f, items[i][j][a]);
        assert Bounds(false, e, items[k][j][a]) && Bounds(true, f, items[k][j][a]);
      }
    }
  }

  /** Without a batch size an axis is listed as dynamic exactly when two items differ on it. */
  lemma AxisIsDynamicIff(p: Profile, items: seq<Item>, j: nat, a: nat)
    requires Consistent(items) && IsProfile(p, items, None) && j < |items[0]| && a < |items[0][j]|
    ensures a in p.axes[j] <==> Differ(items, j, a)
  {
    assert IsBound(false, p.mins[j], items, j, None) && IsBound(true, p.maxs[j], items, j, None);
    assert IsExtremeAt(false, p.mins[j][a], items, j, a) && IsExtremeAt(true, p.maxs[j][a], items, j, a);
    ExtremesDifferIff(p.mins[j][a], p.maxs[j][a], items, j, a);
    assert ListsDifferences(p.axes[j], p.mins[j], p.maxs[j]);
  }

  /** The item's first extents are between one and the legacy batch size. */
  ghost predicate FitsBatch(x: Item, n: nat) {
    forall j :: 0 <= j < |x| ==> |x[j]| > 0 && 1 <= x[j][0] <= n
  }

  lemma BatchBoundsAdmitIff(lo: Shape, hi: Shape, n: nat, items: seq<Item>, j: nat, i: nat)
    requires Consistent(items) && j < |items[0]| && i < |items| && j < |items[i]|
    requires IsBound(false, lo, items, j, Some(1)) && IsBound(true, hi, items, j, Some(n))
    ensures Within(items[i][j], lo, hi) <==> |items[i][j]| > 0 && 1 <= items[i][j][0] <= n
  {
    var e :| IsExtreme(false, e, items, j) && lo == WithBatch(1, e);
    var f :| IsExtreme(true, f, items, j) && hi == WithBatch(n, f);
    ExtremesAdmit(e, f, items, j, i);
  }

  /**
    With the legacy batch size the profile admits an item, and also the typical one, exactly when
    the first extent of each of its tensors exists and is between one and the batch size.
  */
  lemma BatchProfileAdmitsIff(p: Profile, items: seq<Item>, n: nat, i: nat)
    requires Consistent(items) && IsProfile(p, items, Some(n)) && i < |items|
    ensures Admits(p, items[i]) <==> FitsBatch(items[i], n)
  {
    assert SameRanks(items[0], items[i]);
    forall j | 0 <= j < |items[i]|
      ensures Within(items[i][j], p.mins[j], p.maxs[j]) <==> |items[i][j]| > 0 && 1 <= items[i][j][0] <= n
    {
      assert IsBound(false, p.mins[j], items, j, Some(1)) && IsBound(true, p.maxs[j], items, j, Some(n));
      BatchBoundsAdmitIff(p.mins[j], p.maxs[j], n, items, j, i);
    }
  }
}
