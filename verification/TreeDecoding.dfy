/**
  What the buffers of a finished prediction hold: for every node whose input label was visited, the
  decode result for exactly the boxes of that label, box by box, and nothing else.
*/
module TreeDecoding {
  import opened PromptTree
  import opened TreeStructure
  import opened TreePredictor

  /** The boxes of the instances of a label, in their order. */
  ghost predicate IsBoxList(boxes: seq<Box>, src: Buffer) {
    |boxes| == |src| && forall i :: 0 <= i < |src| ==> boxes[i] == src[i].box
  }

  /** `x` is the k-th box found, with number `base + k`, under output `i`; its parent is the instance in
      whose box it was found. */
  ghost predicate IsFoundAs(x: Instance, src: Buffer, ds: seq<Found>, base: nat, i: nat, k: nat) {
    && k < |ds| && ds[k].choice == i && ds[k].inputIndex < |src|
    && x == Instance(base + k, src[ds[k].inputIndex].id, ds[k].box, ds[k].score)
  }

  /** `x` is the k-th instance of the input label, sorted into output `i` with its new score. */
  ghost predicate IsSortedAs(x: Instance, src: Buffer, cs: seq<Sorted>, i: nat, k: nat) {
    && k < |cs| == |src| && cs[k].choice == i
    && x == Instance(src[k].id, src[k].parent, src[k].box, cs[k].score)
  }

  ghost predicate FoundIsThere(p: Progress, outs: seq<nat>, src: Buffer, ds: seq<Found>, base: nat, k: nat)
    requires k < |ds|
  {
    ds[k].choice < |outs| && outs[ds[k].choice] in p.buffers &&
    exists x :: x in p.buffers[outs[ds[k].choice]] && IsFoundAs(x, src, ds, base, ds[k].choice, k)
  }

  ghost predicate SortedIsThere(p: Progress, outs: seq<nat>, src: Buffer, cs: seq<Sorted>, k: nat)
    requires k < |cs|
  {
    cs[k].choice < |outs| && outs[cs[k].choice] in p.buffers &&
    exists x :: x in p.buffers[outs[cs[k].choice]] && IsSortedAs(x, src, cs, cs[k].choice, k)
  }

  /** The outputs hold all boxes found, each once under its choice, and nothing else. */
  ghost predicate HoldFound(p: Progress, outs: seq<nat>, src: Buffer, ds: seq<Found>, base: nat) {
    && (forall k :: 0 <= k < |ds| ==> FoundIsThere(p, outs, src, ds, base, k))
    && (forall i :: 0 <= i < |outs| ==> outs[i] in p.buffers)
    && forall i, x :: 0 <= i < |outs| && x in p.buffers[outs[i]] ==> exists k: nat :: IsFoundAs(x, src, ds, base, i, k)
  }

  /** The outputs hold all instances of the input, each under its choice, and nothing else. */
  ghost predicate HoldSorted(p: Progress, outs: seq<nat>, src: Buffer, cs: seq<Sorted>) {
    && (forall k :: 0 <= k < |cs| ==> SortedIsThere(p, outs, src, cs, k))
    && (forall i :: 0 <= i < |outs| ==> outs[i] in p.buffers)
    && forall i, x :: 0 <= i < |outs| && x in p.buffers[outs[i]] ==> exists k: nat :: IsSortedAs(x, src, cs, i, k)
  }

  /** The outputs of node `n` hold what its model gives for the boxes of its input label. */
  ghost predicate Decoded(t: Tree, m: Models, p: Progress, n: nat) {
    && n < |t.nodes| && t.nodes[n].input in p.buffers
    && forall boxes: seq<Box> | IsBoxList(boxes, p.buffers[t.nodes[n].input]) :: HoldsResult(t, m, p, n, boxes)
  }

  ghost predicate HoldsResult(t: Tree, m: Models, p: Progress, n: nat, boxes: seq<Box>)
    requires n < |t.nodes| && t.nodes[n].input in p.buffers
  {
    var node := t.nodes[n];
    if node.op == Detect
    then exists base: nat :: HoldFound(p, node.outputs, p.buffers[node.input], m.owl(n, boxes), base)
    else HoldSorted(p, node.outputs, p.buffers[node.input], m.clip(n, boxes))
  }

  ghost predicate AllDecoded(t: Tree, m: Models, p: Progress, w: set<nat>) {
    forall n :: n in w ==> Decoded(t, m, p, n)
  }

  // ---------- buffers stay ----------

  ghost predicate SameBuffers(p: Progress, q: Progress) {
    forall l :: l in p.buffers ==> l in q.buffers && q.buffers[l] == p.buffers[l]
  }

  lemma FoundStays(p: Progress, q: Progress, outs: seq<nat>, src: Buffer, ds: seq<Found>, base: nat)
    requires SameBuffers(p, q) && HoldFound(p, outs, src, ds, base)
    ensures HoldFound(q, outs, src, ds, base)
  {
    forall k | 0 <= k < |ds| ensures FoundIsThere(q, outs, src, ds, base, k) {
      assert FoundIsThere(p, outs, src, ds, base, k);
    }
  }

  lemma SortedStays(p: Progress, q: Progress, outs: seq<nat>, src: Buffer, cs: seq<Sorted>)
    requires SameBuffers(p, q) && HoldSorted(p, outs, src, cs)
    ensures HoldSorted(q, outs, src, cs)
  {
    forall k | 0 <= k < |cs| ensures SortedIsThere(q, outs, src, cs, k) {
      assert SortedIsThere(p, outs, src, cs, k);
    }
  }

  lemma ResultStays(t: Tree, m: Models, p: Progress, q: Progress, n: nat)
    requires Decoded(t, m, p, n) && SameBuffers(p, q)
    ensures Decoded(t, m, q, n)
  {
    var node := t.nodes[n];
    var src := p.buffers[node.input];
    forall boxes: seq<Box> | IsBoxList(boxes, src) ensures HoldsResult(t, m, q, n, boxes) {
      assert HoldsResult(t, m, p, n, boxes);
      if node.op == Detect {
        var base: nat :| HoldFound(p, node.outputs, src, m.owl(n, boxes), base);
        FoundStays(p, q, node.outputs, src, m.owl(n, boxes), base);
      } else {
        SortedStays(p, q, node.outputs, src, m.clip(n, boxes));
      }
    }
  }

  // ---------- one decode ----------

  lemma BoxListIsUnique(boxes: seq<Box>, src: Buffer)
    requires IsBoxList(boxes, src)
    ensures boxes == BoxesOf(src)
  {
  }

  lemma DetectBufferIsFound(ds: seq<Found>, src: Buffer, base: nat, i: nat, x: Instance)
    requires (forall k :: 0 <= k < |ds| ==> ds[k].inputIndex < |src|) && x in DetectBuffer(ds, src, base, i)
    ensures base <= x.id && IsFoundAs(x, src, ds, base, i, x.id - base)
  {
    var b := DetectBuffer(ds, src, base, i);
    DetectBufferHolds(ds, src, base, i);
    var j :| 0 <= j < |b| && b[j] == x;
    assert IsFound(b[j], ds, src, base, i);
  }

  lemma DetectBuffersHoldFound(p: Progress, outs: seq<nat>, src: Buffer, ds: seq<Found>, base: nat)
    requires FoundFits(ds, |outs|, |src|)
    requires forall i :: 0 <= i < |outs| ==> outs[i] in p.buffers && p.buffers[outs[i]] == DetectBuffer(ds, src, base, i)
    ensures HoldFound(p, outs, src, ds, base)
  {
    forall k | 0 <= k < |ds| ensures FoundIsThere(p, outs, src, ds, base, k) {
      var b := DetectBuffer(ds, src, base, ds[k].choice);
      DetectBufferIsComplete(ds, src, base, k);
      var j :| 0 <= j < |b| && b[j].id == base + k;
      DetectBufferIsFound(ds, src, base, ds[k].choice, b[j]);
    }
    forall i, x | 0 <= i < |outs| && x in p.buffers[outs[i]] ensures exists k: nat :: IsFoundAs(x, src, ds, base, i, k) {
      DetectBufferIsFound(ds, src, base, i, x);
    }
  }

  lemma ClassifyBuffersHoldSorted(p: Progress, outs: seq<nat>, src: Buffer, cs: seq<Sorted>)
    requires SortedFits(cs, |outs|, |src|) && Ascending(src)
    requires forall i :: 0 <= i < |outs| ==> outs[i] in p.buffers && p.buffers[outs[i]] == ClassifyBuffer(cs, src, i)
    ensures HoldSorted(p, outs, src, cs)
  {
    forall k | 0 <= k < |cs| ensures SortedIsThere(p, outs, src, cs, k) {
      ClassifyBufferHolds(cs, src, cs[k].choice);
      assert IsSortedAs(src[k].(score := cs[k].score), src, cs, cs[k].choice, k);
    }
    forall i, x | 0 <= i < |outs| && x in p.buffers[outs[i]] ensures exists k: nat :: IsSortedAs(x, src, cs, i, k) {
      ClassifyBufferHolds(cs, src, i);
      assert IsSorted(x, cs, src, i);
      var k :| 0 <= k < |cs| && cs[k].choice == i && x == src[k].(score := cs[k].score);
      assert IsSortedAs(x, src, cs, i, k);
    }
  }

  lemma DetectDecodes(t: Tree, m: Models, image: Box, p: Progress, w: set<nat>, n: nat)
    requires Tidy(t) && Honest(t, m) && Inv(t, image, p, w)
    requires n < |t.nodes| && n !in w && t.nodes[n].op == Detect
    requires t.nodes[n].input in p.buffers && p.buffers[t.nodes[n].input] != []
    ensures var q := DetectStep(t, m, p, p.buffers[t.nodes[n].input], n); SameBuffers(p, q) && Decoded(t, m, q, n)
  {
    var outs, src := t.nodes[n].outputs, p.buffers[t.nodes[n].input];
    var ds := m.owl(n, BoxesOf(src));
    var bufs := DetectBuffers(ds, src, p.nextId, |outs|);
    var q := DetectStep(t, m, p, src, n);
    OutputsAreNew(t, p, w, n);
    PutAllGrows(p, outs, bufs);
    assert Grown(p, q, outs, bufs);
    DetectBuffersHoldFound(q, outs, src, ds, p.nextId);
    forall boxes: seq<Box> | IsBoxList(boxes, src) ensures HoldsResult(t, m, q, n, boxes) {
      BoxListIsUnique(boxes, src);
    }
  }

  lemma ClassifyDecodes(t: Tree, m: Models, image: Box, p: Progress, w: set<nat>, n: nat)
    requires Tidy(t) && Honest(t, m) && Inv(t, image, p, w)
    requires n < |t.nodes| && n !in w && t.nodes[n].op == Classify
    requires t.nodes[n].input in p.buffers && p.buffers[t.nodes[n].input] != []
    ensures var q := ClassifyStep(t, m, p, p.buffers[t.nodes[n].input], n); SameBuffers(p, q) && Decoded(t, m, q, n)
  {
    var outs, src := t.nodes[n].outputs, p.buffers[t.nodes[n].input];
    var cs := m.clip(n, BoxesOf(src));
    var bufs := ClassifyBuffers(cs, src, |outs|);
    var q := ClassifyStep(t, m, p, src, n);
    OutputsAreNew(t, p, w, n);
    PutAllGrows(p, outs, bufs);
    assert Grown(p, q, outs, bufs);
    assert IdsBelow(src, p.nextId);
    ClassifyBuffersHoldSorted(q, outs, src, cs);
    forall boxes: seq<Box> | IsBoxList(boxes, src) ensures HoldsResult(t, m, q, n, boxes) {
      BoxListIsUnique(boxes, src);
    }
  }

  // ---------- a visit, and a run ----------

  lemma NodeStepDecodes(t: Tree, m: Models, image: Box, p: Progress, w: set<nat>, l: nat, src: Buffer, n: nat)
    requires Tidy(t) && Honest(t, m) && Inv(t, image, p, w) && l in p.buffers && p.buffers[l] == src != []
    requires n < |t.nodes| && n !in w && t.nodes[n].input == l && AllDecoded(t, m, p, w)
    ensures AllDecoded(t, m, NodeStep(t, m, p, src, n), w + {n})
  {
    var q := NodeStep(t, m, p, src, n);
    if t.nodes[n].op == Detect {
      DetectDecodes(t, m, image, p, w, n);
    } else {
      ClassifyDecodes(t, m, image, p, w, n);
    }
    forall k | k in w ensures Decoded(t, m, q, k) {
      ResultStays(t, m, p, q, k);
    }
  }

  lemma {:induction false} NodeStepsDecode(t: Tree, m: Models, image: Box, p: Progress, w: set<nat>, l: nat, ns: seq<nat>)
    requires Tidy(t) && Honest(t, m) && Inv(t, image, p, w) && l in p.buffers && p.buffers[l] != []
    requires AreNodes(t.nodes, ns) && Distinct(ns) && AllDecoded(t, m, p, w)
    requires forall j :: 0 <= j < |ns| ==> ns[j] !in w && t.nodes[ns[j]].input == l
    ensures AllDecoded(t, m, NodeSteps(t, m, p, p.buffers[l], ns), w + AsSet(ns))
    decreases |ns|
  {
    if ns == [] {
      assert w + AsSet(ns) == w;
    } else {
      var last := |ns| - 1;
      var front := ns[..last];
      NodeStepsDecode(t, m, image, p, w, l, front);
      NodeStepsKeepInv(t, m, image, p, w, l, front);
      AsSetExtends(w, ns);
      NodeStepDecodes(t, m, image, NodeSteps(t, m, p, p.buffers[l], front), w + AsSet(front), l, p.buffers[l], ns[last]);
    }
  }

  /** One turn of the worklist decodes the nodes of the visited label, and leaves the others as they are. */
  lemma VisitDecodes(t: Tree, m: Models, image: Box, p: Progress, w: set<nat>, done: set<nat>)
    requires Tidy(t) && Honest(t, m) && Inv(t, image, p, w) && Worklist(t, p, w, done) && p.queue != []
    requires AllDecoded(t, m, p, w)
    ensures CanVisit(p) && AllDecoded(t, m, Visit(t, m, p), w + AsSet(NodesOf(t, p.queue[0])))
  {
    VisitKeeps(t, m, image, p, w, done);
    var l := p.queue[0];
    var ns := NodesOf(t, l);
    var rest := p.(queue := p.queue[1..]);
    NodesOfLabel(t, p, w, done, l);
    QueueIsIrrelevant(t, image, p, rest, w);
    forall n | n in w ensures Decoded(t, m, rest, n) {
      ResultStays(t, m, p, rest, n);
    }
    NodeStepsDecode(t, m, image, rest, w, l, ns);
    var after := NodeSteps(t, m, rest, p.buffers[l], ns);
    forall n | n in w + AsSet(ns) ensures Decoded(t, m, Visit(t, m, p), n) {
      ResultStays(t, m, after, Visit(t, m, p), n);
    }
  }
}
