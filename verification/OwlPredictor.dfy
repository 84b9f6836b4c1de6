/**
  The geometry of regions of interest, the thresholds of a decoded image and the batches of the
  image encoder, in the OWL predictor.  Coordinates and scores are real numbers.
*/
module OwlPredictor {
  import opened Wrappers

  import opened TreePredictor

  datatype Point = Point(x: real, y: real)

  function Half(a: real): real {
    a / 2.0
  }

  function Mul(a: real, b: real): real {
    a * b
  }

  function Larger(a: real, b: real): real {
    if a < b then b else a
  }

  // ----- the padded square -----

  /** The half extents of the scaled box. */
  function HalfWidth(b: Box, scale: real): real {
    Half(Mul(scale, b.x1 - b.x0))
  }

  function HalfHeight(b: Box, scale: real): real {
    Half(Mul(scale, b.y1 - b.y0))
  }

  function Centre(b: Box): Point {
    Point(Half(b.x0 + b.x1), Half(b.y0 + b.y1))
  }

  /** The half side of the square. */
  function Side(b: Box, scale: real): real {
    Larger(HalfWidth(b, scale), HalfHeight(b, scale))
  }

  /** The square that replaces the box. */
  function Square(b: Box, scale: real): Box {
    var c, s := Centre(b), Side(b, scale);
    Box(c.x - s, c.y - s, c.x + s, c.y + s)
  }

  /** The box with its centre kept and its extents scaled. */
  function Scaled(b: Box, scale: real): Box {
    var c, w, h := Centre(b), HalfWidth(b, scale), HalfHeight(b, scale);
    Box(c.x - w, c.y - h, c.x + w, c.y + h)
  }

  /** The part of the square's side that is padding, on each end; `half` is the half extent of the box. */
  function Pad(s: real, half: real): real
    requires s != 0.0
  {
    (s - half) / (2.0 * s)
  }

  /** Whether the mask keeps a grid coordinate between zero and one. */
  predicate Keeps(g: real, s: real, half: real)
    requires s != 0.0
  {
    g > Pad(s, half) && g < 1.0 - Pad(s, half)
  }

  /** Whether the mask keeps the grid point `(gx, gy)`. */
  predicate MaskKeeps(b: Box, scale: real, gx: real, gy: real)
    requires Side(b, scale) != 0.0
  {
    var s := Side(b, scale);
    Keeps(gx, s, HalfWidth(b, scale)) && Keeps(gy, s, HalfHeight(b, scale))
  }

  /** A box predicted in a region, in the coordinates of the image. */
  function ToGlobal(box: Box, roi: Box): Box {
    var w, h := roi.x1 - roi.x0, roi.y1 - roi.y0;
    Box(Mul(box.x0, w) + roi.x0, Mul(box.y0, h) + roi.y0, Mul(box.x1, w) + roi.x0, Mul(box.y1, h) + roi.y0)
  }

  predicate Contains(outer: Box, inner: Box) {
    outer.x0 <= inner.x0 && inner.x1 <= outer.x1 && outer.y0 <= inner.y0 && inner.y1 <= outer.y1
  }

  predicate StrictlyInside(p: Point, b: Box) {
    b.x0 < p.x < b.x1 && b.y0 < p.y < b.y1
  }

  /** The image point of a grid point of a region. */
  function Located(roi: Box, gx: real, gy: real): Point {
    Point(roi.x0 + Mul(gx, roi.x1 - roi.x0), roi.y0 + Mul(gy, roi.y1 - roi.y0))
  }

  lemma PadTimesSide(s: real, half: real)
    requires s > 0.0
    ensures Mul(Pad(s, half), 2.0 * s) == s - half
  {
  }

  lemma MulIsMonotone(a: real, b: real, k: real)
    requires k > 0.0
    ensures a < b <==> Mul(a, k) < Mul(b, k)
    ensures a <= b <==> Mul(a, k) <= Mul(b, k)
  {
    if a < b {
      Grows(a, b, k);
    } else if a > b {
      Grows(b, a, k);
    }
  }

  lemma Grows(a: real, b: real, k: real)
    requires a < b && k > 0.0
    ensures Mul(a, k) < Mul(b, k)
  {
    assert (b - a) * k > 0.0;
  }

  /** One axis of the mask: kept exactly when the coordinate is closer to the centre than the half extent. */
  lemma KeepsIff(g: real, s: real, half: real, centre: real)
    requires s > 0.0
    ensures Keeps(g, s, half) <==> centre - half < centre - s + Mul(g, 2.0 * s) < centre + half
  {
    var pad := Pad(s, half);
    PadTimesSide(s, half);
    MulIsMonotone(pad, g, 2.0 * s);
    MulIsMonotone(g, 1.0 - pad, 2.0 * s);
    assert Mul(1.0 - pad, 2.0 * s) == 2.0 * s - Mul(pad, 2.0 * s);
  }

  /** The mask keeps a grid point exactly when its image point lies strictly inside the scaled box. */
  lemma MaskKeepsIff(b: Box, scale: real, gx: real, gy: real)
    requires Side(b, scale) > 0.0
    ensures MaskKeeps(b, scale, gx, gy) <==>
      StrictlyInside(Located(Square(b, scale), gx, gy), Scaled(b, scale))
  {
    var c, s := Centre(b), Side(b, scale);
    KeepsIff(gx, s, HalfWidth(b, scale), c.x);
    KeepsIff(gy, s, HalfHeight(b, scale), c.y);
    assert c.x + s - (c.x - s) == 2.0 * s && c.y + s - (c.y - s) == 2.0 * s;
  }

  /** Scaling keeps the centre of a box and multiplies its extents, so scaling by one changes nothing. */
  lemma ScaledKeepsCentre(b: Box, scale: real)
    ensures var r := Scaled(b, scale);
      && Centre(r) == Centre(b)
      && r.x1 - r.x0 == Mul(scale, b.x1 - b.x0) && r.y1 - r.y0 == Mul(scale, b.y1 - b.y0)
    ensures Scaled(b, 1.0) == b
  {
    assert Mul(1.0, b.x1 - b.x0) == b.x1 - b.x0 && Mul(1.0, b.y1 - b.y0) == b.y1 - b.y0;
  }

  /** The square has the centre of the box, and contains the scaled box. */
  lemma SquareSharesCentre(b: Box, scale: real)
    ensures Centre(Square(b, scale)) == Centre(b) && Contains(Square(b, scale), Scaled(b, scale))
    ensures var q := Square(b, scale); q.x1 - q.x0 == q.y1 - q.y0 == 2.0 * Side(b, scale)
  {
  }

  /** For a box with an extent, the square contains the box exactly when the box is not scaled down. */
  lemma SquareContainsBoxIff(b: Box, scale: real)
    requires b.x0 <= b.x1 && b.y0 <= b.y1 && (b.x0 < b.x1 || b.y0 < b.y1)
    ensures Contains(Square(b, scale), b) <==> scale >= 1.0
  {
    var w, h := b.x1 - b.x0, b.y1 - b.y0;
    var longest := Larger(w, h);
    if scale >= 1.0 {
      NotSmaller(scale, w);
      NotSmaller(scale, h);
    } else {
      MulIsMonotone(scale, 1.0, longest);
      if w == 0.0 { assert Mul(scale, w) == 0.0; } else { MulIsMonotone(scale, 1.0, w); }
      if h == 0.0 { assert Mul(scale, h) == 0.0; } else { MulIsMonotone(scale, 1.0, h); }
    }
  }

  lemma NotSmaller(scale: real, a: real)
    requires scale >= 1.0 && a >= 0.0
    ensures Mul(scale, a) >= a
  {
    assert (scale - 1.0) * a >= 0.0;
  }

  predicate Unit(box: Box) {
    0.0 <= box.x0 && box.x1 <= 1.0 && 0.0 <= box.y0 && box.y1 <= 1.0
  }

  /** A box predicted in a region with an extent lies in the region exactly when its coordinates are unit ones. */
  lemma UnitBoxMapsInsideIff(box: Box, roi: Box)
    requires roi.x0 < roi.x1 && roi.y0 < roi.y1
    ensures Contains(roi, ToGlobal(box, roi)) <==> Unit(box)
  {
    var w, h := roi.x1 - roi.x0, roi.y1 - roi.y0;
    MulIsMonotone(0.0, box.x0, w);
    MulIsMonotone(box.x1, 1.0, w);
    MulIsMonotone(0.0, box.y0, h);
    MulIsMonotone(box.y1, 1.0, h);
  }

  /** Both corners of a predicted box are kept by the mask exactly when the box lies strictly inside
      the scaled box of the image. */
  lemma KeptBoxIsInScaledBoxIff(box: Box, b: Box, scale: real)
    requires Side(b, scale) > 0.0
    ensures var g := ToGlobal(box, Square(b, scale));
      MaskKeeps(b, scale, box.x0, box.y0) && MaskKeeps(b, scale, box.x1, box.y1) <==>
      StrictlyInside(Point(g.x0, g.y0), Scaled(b, scale)) && StrictlyInside(Point(g.x1, g.y1), Scaled(b, scale))
  {
    MaskKeepsIff(b, scale, box.x0, box.y0);
    MaskKeepsIff(b, scale, box.x1, box.y1);
  }

  // ----- decoding -----

  /** What the encoders say of one patch of an image: the best label with its score, and a box. */
  datatype Patch = Patch(best: nat, score: real, box: Box)

  predicate Passes(p: Patch, thresholds: seq<real>) {
    p.best < |thresholds| && p.score > thresholds[p.best]
  }

  /** The mask of one threshold. */
  function LabelMask(patches: seq<Patch>, i: nat, threshold: real): seq<bool> {
    seq(|patches|, k requires 0 <= k < |patches| => patches[k].best == i && patches[k].score > threshold)
  }

  function Either(a: seq<bool>, b: seq<bool>): seq<bool>
    requires |a| == |b|
  {
    seq(|a|, k requires 0 <= k < |a| => a[k] || b[k])
  }

  /** The mask of all thresholds; without a threshold there is no first mask. */
  method Mask(patches: seq<Patch>, thresholds: seq<real>) returns (mask: Option<seq<bool>>)
    ensures mask.None? <==> thresholds == []
    ensures mask.Some? ==> |mask.value| == |patches|
    ensures mask.Some? ==> forall k :: 0 <= k < |patches| ==> (mask.value[k] <==> Passes(patches[k], thresholds))
  {
    var masks: seq<seq<bool>> := [];
    for i := 0 to |thresholds|
      invariant |masks| == i
      invariant forall l :: 0 <= l < i ==> masks[l] == LabelMask(patches, l, thresholds[l])
    {
      masks := masks + [LabelMask(patches, i, thresholds[i])];
    }
    if masks == [] {
      return None;
    }
    var all := masks[0];
    for i := 1 to |masks|
      invariant |all| == |patches|
      invariant forall k :: 0 <= k < |patches| ==> (all[k] <==> Passes(patches[k], thresholds[..i]))
    {
      all := Either(all, masks[i]);
    }
    assert thresholds[..|masks|] == thresholds;
    mask := Some(all);
  }

  /** `kept` lists the positions of the patches that pass their thresholds, in order. */
  ghost predicate ListsPassing(kept: seq<nat>, patches: seq<Patch>, thresholds: seq<real>, n: nat)
    requires n <= |patches|
  {
    && (forall i, j :: 0 <= i < j < |kept| ==> kept[i] < kept[j])
    && (forall k: nat :: k in kept <==> k < n && Passes(patches[k], thresholds))
  }

  lemma NextPassing(kept: seq<nat>, patches: seq<Patch>, thresholds: seq<real>, n: nat)
    requires n < |patches| && ListsPassing(kept, patches, thresholds, n)
    ensures ListsPassing(if Passes(patches[n], thresholds) then kept + [n] else kept, patches, thresholds, n + 1)
  {
    assert forall i :: 0 <= i < |kept| ==> kept[i] in kept;
  }

  /** The patches of all images stand image after image. */
  function ImageOf(k: nat, perImage: nat): nat
    requires perImage > 0
  {
    k / perImage
  }

  lemma ImageHolds(k: nat, perImage: nat)
    requires perImage > 0
    ensures var i := ImageOf(k, perImage); i * perImage <= k < (i + 1) * perImage
  {
    var i := ImageOf(k, perImage);
    assert k == i * perImage + k % perImage;
    assert (i + 1) * perImage == i * perImage + perImage;
  }

  lemma ImageIsThere(i: nat, k: nat, images: nat, perImage: nat)
    requires i * perImage <= k < images * perImage
    ensures i < images
  {
    TimesKeepsOrder(images, i, perImage);
  }

  lemma TimesKeepsOrder(a: nat, b: nat, k: nat)
    ensures a <= b ==> a * k <= b * k
  {
    if a <= b {
      assert b * k - a * k == (b - a) * k;
      assert (b - a) * k >= 0;
    }
  }

  /** The entry has the label, score and box of the patch at `k`, and the image among whose patches `k` is. */
  ghost predicate IsPatch(f: Found, patches: seq<Patch>, k: nat, perImage: nat) {
    && k < |patches|
    && f.choice == patches[k].best && f.score == patches[k].score && f.box == patches[k].box
    && f.inputIndex * perImage <= k < (f.inputIndex + 1) * perImage
  }

  function FoundAt(patches: seq<Patch>, k: nat, perImage: nat): Found
    requires k < |patches| && perImage > 0
  {
    Found(patches[k].best, patches[k].score, patches[k].box, ImageOf(k, perImage))
  }

  /** The list holds what is at the positions that were kept. */
  ghost predicate Holds(list: seq<Found>, kept: seq<nat>, patches: seq<Patch>, perImage: nat)
    requires perImage > 0
  {
    |list| == |kept| && forall j :: 0 <= j < |kept| ==> kept[j] < |patches| && list[j] == FoundAt(patches, kept[j], perImage)
  }

  lemma NextHolds(list: seq<Found>, kept: seq<nat>, patches: seq<Patch>, perImage: nat, k: nat)
    requires perImage > 0 && k < |patches| && Holds(list, kept, patches, perImage)
    ensures Holds(list + [FoundAt(patches, k, perImage)], kept + [k], patches, perImage)
  {
  }

  lemma HeldArePatches(list: seq<Found>, kept: seq<nat>, patches: seq<Patch>, perImage: nat)
    requires perImage > 0 && Holds(list, kept, patches, perImage)
    ensures forall j :: 0 <= j < |kept| ==> IsPatch(list[j], patches, kept[j], perImage)
  {
    forall j | 0 <= j < |kept| ensures IsPatch(list[j], patches, kept[j], perImage) {
      ImageHolds(kept[j], perImage);
    }
  }

  /** The choices are among the queries and the images are there: what the tree predictor relies on. */
  lemma HeldFits(list: seq<Found>, kept: seq<nat>, patches: seq<Patch>, images: nat, perImage: nat, queries: nat)
    requires |patches| == images * perImage && |list| == |kept|
    requires forall k :: 0 <= k < |patches| ==> patches[k].best < queries
    requires forall j :: 0 <= j < |kept| ==> IsPatch(list[j], patches, kept[j], perImage)
    ensures FoundFits(list, queries, images)
  {
    forall j | 0 <= j < |list| ensures list[j].choice < queries && list[j].inputIndex < images {
      assert IsPatch(list[j], patches, kept[j], perImage);
      ImageIsThere(list[j].inputIndex, kept[j], images, perImage);
    }
  }

  /** Boolean indexing: the patches that the mask keeps, in order. */
  method Masked(patches: seq<Patch>, mask: seq<bool>, perImage: nat, thresholds: seq<real>)
    returns (list: seq<Found>, ghost kept: seq<nat>)
    requires perImage > 0 && |mask| == |patches|
    requires forall k :: 0 <= k < |patches| ==> (mask[k] <==> Passes(patches[k], thresholds))
    ensures ListsPassing(kept, patches, thresholds, |patches|) && Holds(list, kept, patches, perImage)
  {
    list, kept := [], [];
    for k := 0 to |patches|
      invariant ListsPassing(kept, patches, thresholds, k) && Holds(list, kept, patches, perImage)
    {
      NextPassing(kept, patches, thresholds, k);
      NextHolds(list, kept, patches, perImage, k);
      if mask[k] {
        list := list + [FoundAt(patches, k, perImage)];
        kept := kept + [k];
      }
    }
  }

  /**
    `decode`: the patches that pass the threshold of their best label, in order, each with the image
    it belongs to; `kept` are their positions.  The best labels are among the queries.
  */
  method Decode(patches: seq<Patch>, images: nat, perImage: nat, thresholds: seq<real>, queries: nat)
    returns (found: Option<seq<Found>>, ghost kept: seq<nat>)
    requires perImage > 0 && |patches| == images * perImage
    requires forall k :: 0 <= k < |patches| ==> patches[k].best < queries
    ensures found.None? <==> thresholds == []
    ensures found.Some? ==> FoundFits(found.value, queries, images)
    ensures found.Some? ==> |found.value| == |kept|
    ensures found.Some? ==> forall j, l :: 0 <= j < l < |kept| ==> kept[j] < kept[l]
    ensures found.Some? ==> forall k: nat :: k in kept <==>
      k < |patches| && patches[k].best < |thresholds| && patches[k].score > thresholds[patches[k].best]
    ensures found.Some? ==> forall j :: 0 <= j < |kept| ==> kept[j] < |patches|
    ensures found.Some? ==> forall j :: 0 <= j < |kept| ==> (
      && found.value[j].choice == patches[kept[j]].best
      && found.value[j].score == patches[kept[j]].score
      && found.value[j].box == patches[kept[j]].box
      && found.value[j].inputIndex * perImage <= kept[j] < (found.value[j].inputIndex + 1) * perImage)
  {
    kept := [];
    var mask := Mask(patches, thresholds);
    if mask.None? {
      return None, kept;
    }
    var list;
    list, kept := Masked(patches, mask.value, perImage, thresholds);
    HeldArePatches(list, kept, patches, perImage);
    HeldFits(list, kept, patches, images, perImage, queries);
    found := Some(list);
  }

  // ----- batches -----

  function Mapped<X, Y>(f: X -> Y, s: seq<X>): seq<Y> {
    seq(|s|, i requires 0 <= i < |s| => f(s[i]))
  }

  /** The engine encodes up to `most` images at a time, each on its own. */
  ghost predicate Serves<X(!new), Y(!new)>(engine: seq<X> -> seq<Y>, encode: X -> Y, most: nat) {
    forall s: seq<X> :: 0 < |s| <= most ==> engine(s) == Mapped(encode, s)
  }

  /** The batches of `forward`: the outputs are those of all images, whatever the size of a batch. */
  method Forward<X(!new), Y(!new)>(engine: seq<X> -> seq<Y>, images: seq<X>, maxBatchSize: nat, ghost encode: X -> Y)
    returns (results: Option<seq<Y>>)
    requires maxBatchSize > 0 && Serves(engine, encode, maxBatchSize)
    ensures results == if images == [] then None else Some(Mapped(encode, images))
  {
    var batches: seq<seq<Y>> := [];
    var outputs: seq<Y> := [];
    var start := 0;
    while start < |images|
      invariant start <= |images| && outputs == Mapped(encode, images[..start])
      invariant batches == [] <==> start == 0
    {
      var end := if start + maxBatchSize < |images| then start + maxBatchSize else |images|;
      var output := engine(images[start..end]);
      batches, outputs := batches + [output], outputs + output;
      assert images[..end] == images[..start] + images[start..end];
      start := end;
    }
    assert images[..start] == images;
    results := if batches == [] then None else Some(outputs);
  }
}
