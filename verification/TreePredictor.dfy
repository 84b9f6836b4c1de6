/**
  The tree predictor: a worklist over the labels of a prompt tree. A detect node decodes new
  instances in the boxes of its input label, a classify node sorts the instances of its input
  among its outputs, and the copies of an instance are merged into one detection at the end.

  The encoders and decoders are parameters. Their contract, `Honest`, is what the networks'
  output shapes promise, and only for a non-empty list of boxes.
*/
module TreePredictor {
  import opened PromptTree
  import opened TreeStructure

  datatype Box = Box(x0: real, y0: real, x1: real, y1: real)

  /** One box of an OWL decode: the chosen output, and the input box it was found in. */
  datatype Found = Found(choice: nat, score: real, box: Box, inputIndex: nat)

  /** One line of a CLIP decode: the output chosen for an input box. */
  datatype Sorted = Sorted(choice: nat, score: real)

  /** Decode results as functions of the node and the boxes of its input label. */
  datatype Models = Models(owl: (nat, seq<Box>) -> seq<Found>, clip: (nat, seq<Box>) -> seq<Sorted>)

  ghost predicate Honest(t: Tree, m: Models) {
    forall n: nat, boxes: seq<Box> :: n < |t.nodes| && boxes != [] ==>
      && FoundFits(m.owl(n, boxes), |t.nodes[n].outputs|, |boxes|)
      && SortedFits(m.clip(n, boxes), |t.nodes[n].outputs|, |boxes|)
  }

  ghost predicate FoundFits(ds: seq<Found>, outputs: nat, inputs: nat) {
    forall k :: 0 <= k < |ds| ==> ds[k].choice < outputs && ds[k].inputIndex < inputs
  }

  ghost predicate SortedFits(cs: seq<Sorted>, outputs: nat, inputs: nat) {
    |cs| == inputs && forall k :: 0 <= k < |cs| ==> cs[k].choice < outputs
  }

  /** An entry of the four per-label dictionaries, which are always written together. */
  datatype Instance = Instance(id: nat, parent: int, box: Box, score: real)

  type Buffer = seq<Instance>

  /** `order` lists the keys of `buffers` in insertion order. */
  datatype Progress = Progress(buffers: map<nat, Buffer>, order: seq<nat>, queue: seq<nat>, nextId: nat)

  function BoxesOf(src: Buffer): (boxes: seq<Box>)
    ensures |boxes| == |src|
  {
    seq(|src|, k requires 0 <= k < |src| => src[k].box)
  }

  /** The positions where `values` equals `v`, as a boolean mask selects them. */
  function Mask(values: seq<nat>, v: nat): (ks: seq<nat>)
    ensures forall j :: 0 <= j < |ks| ==> ks[j] < |values| && values[ks[j]] == v
    ensures forall i, j :: 0 <= i < j < |ks| ==> ks[i] < ks[j]
    ensures forall k :: 0 <= k < |values| && values[k] == v ==> k in ks
  {
    if values == [] then [] else
      var last := |values| - 1;
      var ks := Mask(values[..last], v);
      assert forall j :: 0 <= j < |ks| ==> values[..last][ks[j]] == values[ks[j]];
      assert forall k :: 0 <= k < last ==> values[..last][k] == values[k];
      if values[last] == v then ks + [last] else ks
  }

  function Choices(ds: seq<Found>): (r: seq<nat>)
    ensures |r| == |ds| && forall k :: 0 <= k < |r| ==> r[k] == ds[k].choice
  {
    seq(|ds|, k requires 0 <= k < |ds| => ds[k].choice)
  }

  function SortedChoices(cs: seq<Sorted>): (r: seq<nat>)
    ensures |r| == |cs| && forall k :: 0 <= k < |r| ==> r[k] == cs[k].choice
  {
    seq(|cs|, k requires 0 <= k < |cs| => cs[k].choice)
  }

  /** The instances of a detect node that chose output `i`; the k-th box found has id `base + k`. */
  function DetectBuffer(ds: seq<Found>, src: Buffer, base: nat, i: nat): Buffer
    requires forall k :: 0 <= k < |ds| ==> ds[k].inputIndex < |src|
  {
    var ks := Mask(Choices(ds), i);
    seq(|ks|, j requires 0 <= j < |ks| =>
      var d := ds[ks[j]]; Instance(base + ks[j], src[d.inputIndex].id, d.box, d.score))
  }

  /** The instances of the input label that were sorted into output `i`, with their new score. */
  function ClassifyBuffer(cs: seq<Sorted>, src: Buffer, i: nat): Buffer
    requires |cs| == |src|
  {
    var ks := Mask(SortedChoices(cs), i);
    seq(|ks|, j requires 0 <= j < |ks| => src[ks[j]].(score := cs[ks[j]].score))
  }

  function Put(p: Progress, l: nat, b: Buffer): Progress {
    p.(buffers := p.buffers[l := b], order := if l in p.buffers then p.order else p.order + [l])
  }

  function PutAll(p: Progress, outs: seq<nat>, bufs: seq<Buffer>): Progress
    requires |outs| == |bufs|
  {
    if outs == [] then p else
      var k := |outs| - 1;
      Put(PutAll(p, outs[..k], bufs[..k]), outs[k], bufs[k])
  }

  function DetectBuffers(ds: seq<Found>, src: Buffer, base: nat, count: nat): (bufs: seq<Buffer>)
    requires forall k :: 0 <= k < |ds| ==> ds[k].inputIndex < |src|
    ensures |bufs| == count && forall i :: 0 <= i < count ==> bufs[i] == DetectBuffer(ds, src, base, i)
  {
    seq(count, i requires 0 <= i < count => DetectBuffer(ds, src, base, i))
  }

  function ClassifyBuffers(cs: seq<Sorted>, src: Buffer, count: nat): (bufs: seq<Buffer>)
    requires |cs| == |src|
    ensures |bufs| == count && forall i :: 0 <= i < count ==> bufs[i] == ClassifyBuffer(cs, src, i)
  {
    seq(count, i requires 0 <= i < count => ClassifyBuffer(cs, src, i))
  }

  /** `ns` are the positions of the nodes with the given input and operator, in node order. */
  ghost predicate Finds(nodes: seq<Node>, input: nat, op: TreeOp, ns: seq<nat>) {
    && (forall j :: 0 <= j < |ns| ==> ns[j] < |nodes| && Fits(nodes[ns[j]], input, op))
    && (forall i, j :: 0 <= i < j < |ns| ==> ns[i] < ns[j])
    && forall n :: 0 <= n < |nodes| && Fits(nodes[n], input, op) ==> n in ns
  }

  /** The node is one that is looked for. */
  predicate Fits(node: Node, input: nat, op: TreeOp) {
    node.input == input && node.op == op
  }

  lemma FindsOneMore(nodes: seq<Node>, input: nat, op: TreeOp, ns: seq<nat>, node: Node)
    requires Finds(nodes, input, op, ns)
    ensures Finds(nodes + [node], input, op, if Fits(node, input, op) then ns + [|nodes|] else ns)
  {
    var more := nodes + [node];
    var found := if Fits(node, input, op) then ns + [|nodes|] else ns;
    forall n | 0 <= n < |more| && Fits(more[n], input, op) ensures n in found {
      if n < |nodes| {
        assert Fits(nodes[n], input, op) && n in ns;
      } else {
        assert found[|ns|] == n;
      }
    }
  }

  /** The positions of the nodes with the given input and operator, in node order. */
  function FindNodes(nodes: seq<Node>, input: nat, op: TreeOp): (ns: seq<nat>)
    ensures Finds(nodes, input, op, ns)
  {
    if nodes == [] then [] else
      var last := |nodes| - 1;
      var ns := FindNodes(nodes[..last], input, op);
      SplitLast(nodes);
      FindsOneMore(nodes[..last], input, op, ns, nodes[last]);
      if Fits(nodes[last], input, op) then ns + [last] else ns
  }

  predicate AreNodes(nodes: seq<Node>, ns: seq<nat>) {
    forall j :: 0 <= j < |ns| ==> ns[j] < |nodes|
  }

  // ---------- one visit as a function ----------

  ghost function DetectStep(t: Tree, m: Models, p: Progress, src: Buffer, n: nat): Progress
    requires Honest(t, m) && n < |t.nodes| && src != []
  {
    var ds := m.owl(n, BoxesOf(src));
    var outs := t.nodes[n].outputs;
    PutAll(p, outs, DetectBuffers(ds, src, p.nextId, |outs|)).(nextId := p.nextId + |ds|)
  }

  ghost function ClassifyStep(t: Tree, m: Models, p: Progress, src: Buffer, n: nat): Progress
    requires Honest(t, m) && n < |t.nodes| && src != []
  {
    var cs := m.clip(n, BoxesOf(src));
    var outs := t.nodes[n].outputs;
    PutAll(p, outs, ClassifyBuffers(cs, src, |outs|))
  }

  ghost function NodeStep(t: Tree, m: Models, p: Progress, src: Buffer, n: nat): Progress
    requires Honest(t, m) && n < |t.nodes| && src != []
  {
    if t.nodes[n].op == Detect then DetectStep(t, m, p, src, n) else ClassifyStep(t, m, p, src, n)
  }

  ghost function NodeSteps(t: Tree, m: Models, p: Progress, src: Buffer, ns: seq<nat>): Progress
    requires Honest(t, m) && src != [] && AreNodes(t.nodes, ns)
  {
    if ns == [] then p else
      var k := |ns| - 1;
      NodeStep(t, m, NodeSteps(t, m, p, src, ns[..k]), src, ns[k])
  }

  /** The outputs of the given nodes whose buffer is not empty, to be visited next. */
  function NonEmptyOutputs(t: Tree, buffers: map<nat, Buffer>, ns: seq<nat>): seq<nat>
    requires AreNodes(t.nodes, ns)
  {
    if ns == [] then [] else
      var k := |ns| - 1;
      NonEmptyOutputs(t, buffers, ns[..k]) + NonEmpty(buffers, t.nodes[ns[k]].outputs)
  }

  function NonEmpty(buffers: map<nat, Buffer>, outs: seq<nat>): seq<nat> {
    if outs == [] then [] else
      var k := |outs| - 1;
      NonEmpty(buffers, outs[..k]) + if outs[k] in buffers && buffers[outs[k]] != [] then [outs[k]] else []
  }

  ghost predicate CanVisit(p: Progress) {
    p.queue != [] && p.queue[0] in p.buffers && p.buffers[p.queue[0]] != []
  }

  ghost function NodesOf(t: Tree, l: nat): (ns: seq<nat>)
    ensures AreNodes(t.nodes, ns)
  {
    FindNodes(t.nodes, l, Detect) + FindNodes(t.nodes, l, Classify)
  }

  /** One turn of the worklist: first the detect nodes of the label, then its classify nodes. */
  ghost function Visit(t: Tree, m: Models, p: Progress): Progress
    requires Honest(t, m) && CanVisit(p)
  {
    var l := p.queue[0];
    var ns := NodesOf(t, l);
    var after := NodeSteps(t, m, p.(queue := p.queue[1..]), p.buffers[l], ns);
    after.(queue := after.queue + NonEmptyOutputs(t, after.buffers, ns))
  }

  function Root(image: Box): Instance {
    Instance(0, -1, image, 1.0)
  }

  function Initial(image: Box): Progress {
    Progress(map[0 := [Root(image)]], [0], [0], 1)
  }

  ghost predicate IsVisit(t: Tree, m: Models, p: Progress, q: Progress)
    requires Honest(t, m)
  {
    CanVisit(p) && q == Visit(t, m, p)
  }

  /** `trace` lists the states of the worklist from the image to `p`, each the visit of the one before. */
  ghost predicate IsTrace(t: Tree, m: Models, image: Box, trace: seq<Progress>, p: Progress)
    requires Honest(t, m)
  {
    && trace != [] && trace[0] == Initial(image) && trace[|trace| - 1] == p
    && forall k :: 0 <= k < |trace| - 1 ==> IsVisit(t, m, trace[k], trace[k + 1])
  }

  // ---------- the invariant ----------

  ghost predicate HasId(b: Buffer, id: nat) {
    exists j :: 0 <= j < |b| && b[j].id == id
  }

  ghost predicate Ascending(b: Buffer) {
    forall j, k :: 0 <= j < k < |b| ==> b[j].id < b[k].id
  }

  ghost predicate Written(t: Tree, w: set<nat>, l: nat) {
    exists n :: n in w && Produces(t.nodes, n, l)
  }

  /** Exactly the image and the outputs of the nodes in `w` have a buffer. */
  ghost predicate KeysAre(t: Tree, p: Progress, w: set<nat>) {
    && Distinct(p.order)
    && (forall l :: l in p.order <==> l in p.buffers)
    && (forall l :: l in p.buffers <==> l == 0 || Written(t, w, l))
    && forall n :: n in w ==> n < |t.nodes| && t.nodes[n].input in p.buffers
  }

  ghost predicate IdsBelow(b: Buffer, bound: nat) {
    Ascending(b) && forall j :: 0 <= j < |b| ==> b[j].id < bound
  }

  ghost predicate IdsAre(p: Progress) {
    forall l :: l in p.buffers ==> IdsBelow(p.buffers[l], p.nextId)
  }

  /** The labels in which instances are created: the image and the detect outputs. */
  ghost predicate IsHome(t: Tree, l: nat) {
    l == 0 || exists n: nat :: Produces(t.nodes, n, l) && t.nodes[n].op == Detect
  }

  ghost predicate IsHomeOf(t: Tree, p: Progress, l: nat, id: nat) {
    l in p.buffers && IsHome(t, l) && HasId(p.buffers[l], id)
  }

  ghost predicate OneHome(t: Tree, p: Progress) {
    forall l, k, id :: IsHomeOf(t, p, l, id) && IsHomeOf(t, p, k, id) ==> l == k
  }

  ghost predicate HasHome(t: Tree, p: Progress, id: nat) {
    exists l :: IsHomeOf(t, p, l, id)
  }

  ghost predicate AllHaveHomes(t: Tree, p: Progress) {
    forall id: nat :: id < p.nextId ==> HasHome(t, p, id)
  }

  ghost predicate Before(order: seq<nat>, l: nat, k: nat) {
    exists a, b :: 0 <= a < b < |order| && order[a] == l && order[b] == k
  }

  ghost predicate InputsComeFirst(t: Tree, p: Progress, w: set<nat>) {
    forall n, l :: n in w && Produces(t.nodes, n, l) ==> Before(p.order, t.nodes[n].input, l)
  }

  /** The same instance, up to the score. */
  ghost predicate SameInstance(x: Instance, y: Instance) {
    x.id == y.id && x.parent == y.parent && x.box == y.box
  }

  ghost predicate HasCopy(src: Buffer, x: Instance) {
    exists y :: y in src && SameInstance(x, y)
  }

  ghost predicate AreCopies(b: Buffer, src: Buffer) {
    forall x :: x in b ==> HasCopy(src, x)
  }

  ghost predicate HaveParents(b: Buffer, src: Buffer) {
    forall x :: x in b ==> 0 <= x.parent < x.id && HasId(src, x.parent)
  }

  /** How an output buffer follows from the buffer of the node's input. */
  ghost predicate Follows(op: TreeOp, b: Buffer, src: Buffer) {
    if op == Detect then HaveParents(b, src) else AreCopies(b, src)
  }

  ghost predicate BuffersFollow(t: Tree, p: Progress, w: set<nat>) {
    forall n, l :: (n in w && Produces(t.nodes, n, l) && l in p.buffers && t.nodes[n].input in p.buffers) ==>
      Follows(t.nodes[n].op, p.buffers[l], p.buffers[t.nodes[n].input])
  }

  ghost predicate RootIs(p: Progress, image: Box) {
    0 in p.buffers && p.buffers[0] == [Root(image)] && p.order != [] && p.order[0] == 0
  }

  ghost predicate Inv(t: Tree, image: Box, p: Progress, w: set<nat>) {
    && KeysAre(t, p, w) && RootIs(p, image) && IdsAre(p)
    && OneHome(t, p) && AllHaveHomes(t, p)
    && InputsComeFirst(t, p, w) && BuffersFollow(t, p, w)
  }

  // ---------- what the decode buffers hold ----------

  ghost predicate IsFound(x: Instance, ds: seq<Found>, src: Buffer, base: nat, i: nat)
    requires forall k :: 0 <= k < |ds| ==> ds[k].inputIndex < |src|
  {
    && base <= x.id < base + |ds|
    && var d := ds[x.id - base];
       d.choice == i && x == Instance(x.id, src[d.inputIndex].id, d.box, d.score)
  }

  ghost predicate IsSorted(x: Instance, cs: seq<Sorted>, src: Buffer, i: nat)
    requires |cs| == |src|
  {
    exists k :: 0 <= k < |cs| && cs[k].choice == i && x == src[k].(score := cs[k].score)
  }

  lemma DetectBufferHolds(ds: seq<Found>, src: Buffer, base: nat, i: nat)
    requires forall k :: 0 <= k < |ds| ==> ds[k].inputIndex < |src|
    ensures var b := DetectBuffer(ds, src, base, i);
      && Ascending(b)
      && forall j :: 0 <= j < |b| ==> IsFound(b[j], ds, src, base, i)
  {
    var b := DetectBuffer(ds, src, base, i);
    var ks := Mask(Choices(ds), i);
    forall j | 0 <= j < |b| ensures IsFound(b[j], ds, src, base, i) {
      assert Choices(ds)[ks[j]] == i;
      assert b[j].id == base + ks[j];
    }
  }

  lemma DetectBufferIsComplete(ds: seq<Found>, src: Buffer, base: nat, k: nat)
    requires k < |ds| && forall k :: 0 <= k < |ds| ==> ds[k].inputIndex < |src|
    ensures HasId(DetectBuffer(ds, src, base, ds[k].choice), base + k)
  {
    var b := DetectBuffer(ds, src, base, ds[k].choice);
    var ks := Mask(Choices(ds), ds[k].choice);
    assert Choices(ds)[k] == ds[k].choice;
    var j :| 0 <= j < |ks| && ks[j] == k;
    assert b[j].id == base + k;
  }

  lemma ClassifyBufferHolds(cs: seq<Sorted>, src: Buffer, i: nat)
    requires |cs| == |src| && Ascending(src)
    ensures var b := ClassifyBuffer(cs, src, i);
      && Ascending(b)
      && (forall x :: x in b ==> IsSorted(x, cs, src, i))
      && forall k :: 0 <= k < |cs| && cs[k].choice == i ==> src[k].(score := cs[k].score) in b
  {
    var b := ClassifyBuffer(cs, src, i);
    var ks := Mask(SortedChoices(cs), i);
    forall x | x in b ensures IsSorted(x, cs, src, i) {
      var j :| 0 <= j < |b| && b[j] == x;
      assert SortedChoices(cs)[ks[j]] == i;
    }
    forall k | 0 <= k < |cs| && cs[k].choice == i ensures src[k].(score := cs[k].score) in b {
      assert SortedChoices(cs)[k] == i;
      var j :| 0 <= j < |ks| && ks[j] == k;
      assert b[j] == src[k].(score := cs[k].score);
    }
  }

  // ---------- writing the outputs of a node keeps the invariant ----------

  /** `q` is `p` with new buffers `bufs` under the new keys `outs`. */
  ghost predicate Grown(p: Progress, q: Progress, outs: seq<nat>, bufs: seq<Buffer>) {
    && |outs| == |bufs| && q.order == p.order + outs
    && (forall l :: l in q.buffers <==> l in p.buffers || l in outs)
    && (forall l :: l in p.buffers ==> l !in outs && q.buffers[l] == p.buffers[l])
    && forall i :: 0 <= i < |outs| ==> q.buffers[outs[i]] == bufs[i]
  }

  ghost predicate Distinct(s: seq<nat>) {
    forall j, k :: 0 <= j < k < |s| ==> s[j] != s[k]
  }

  lemma {:induction false} PutAllGrows(p: Progress, outs: seq<nat>, bufs: seq<Buffer>)
    requires |outs| == |bufs| && Distinct(outs) && forall l :: l in p.buffers ==> l !in outs
    ensures var q := PutAll(p, outs, bufs); Grown(p, q, outs, bufs) && q.nextId == p.nextId && q.queue == p.queue
  {
    if outs == [] {
    } else {
      var k := |outs| - 1;
      PutAllGrows(p, outs[..k], bufs[..k]);
      PutGrows(p, PutAll(p, outs[..k], bufs[..k]), outs[..k], bufs[..k], outs[k], bufs[k]);
      SplitLast(outs);
      SplitLast(bufs);
    }
  }

  lemma SplitLast<T>(s: seq<T>)
    requires s != []
    ensures s == s[..|s| - 1] + [s[|s| - 1]]
  {
  }

  lemma PutGrows(p: Progress, q: Progress, outs: seq<nat>, bufs: seq<Buffer>, l: nat, b: Buffer)
    requires Grown(p, q, outs, bufs) && l !in p.buffers && l !in outs
    ensures Grown(p, Put(q, l, b), outs + [l], bufs + [b])
  {
    assert l !in q.buffers;
  }

  lemma OnlyProducer(t: Tree, k: nat, n: nat, l: nat)
    requires Tidy(t) && Produces(t.nodes, k, l) && Produces(t.nodes, n, l)
    ensures k == n
  {
    assert k < n ==> !Produces(t.nodes, n, l);
    assert n < k ==> !Produces(t.nodes, k, l);
  }

  lemma OutputsAreNew(t: Tree, p: Progress, w: set<nat>, n: nat)
    requires Tidy(t) && KeysAre(t, p, w) && n < |t.nodes| && n !in w
    ensures Distinct(t.nodes[n].outputs)
    ensures forall l :: l in p.buffers ==> l !in t.nodes[n].outputs
    ensures forall l :: l in t.nodes[n].outputs ==> l != 0
  {
    forall l | l in t.nodes[n].outputs ensures l != 0 && l !in p.buffers {
      assert Produces(t.nodes, n, l);
      forall k: nat | Produces(t.nodes, k, l) ensures k == n {
        OnlyProducer(t, k, n, l);
      }
    }
  }

  lemma BeforeExtends(order: seq<nat>, outs: seq<nat>, l: nat, k: nat)
    requires Before(order, l, k) || (l in order && k in outs)
    ensures Before(order + outs, l, k)
  {
    var all := order + outs;
    if Before(order, l, k) {
      var a, b :| 0 <= a < b < |order| && order[a] == l && order[b] == k;
      assert all[a] == l && all[b] == k;
    } else {
      var a :| 0 <= a < |order| && order[a] == l;
      var b :| 0 <= b < |outs| && outs[b] == k;
      assert all[a] == l && all[|order| + b] == k;
    }
  }

  lemma OrderListsKeys(p: Progress, q: Progress, outs: seq<nat>, bufs: seq<Buffer>)
    requires Distinct(p.order) && Distinct(outs) && forall l :: l in p.order <==> l in p.buffers
    requires Grown(p, q, outs, bufs)
    ensures Distinct(q.order) && forall l :: l in q.order <==> l in q.buffers
  {
    DistinctConcat(p.order, outs);
  }

  lemma KeysGrow(t: Tree, p: Progress, q: Progress, w: set<nat>, n: nat, bufs: seq<Buffer>)
    requires Tidy(t) && KeysAre(t, p, w)
    requires n < |t.nodes| && n !in w && t.nodes[n].input in p.buffers
    requires Grown(p, q, t.nodes[n].outputs, bufs)
    ensures KeysAre(t, q, w + {n})
  {
    OutputsAreNew(t, p, w, n);
    OrderListsKeys(p, q, t.nodes[n].outputs, bufs);
    forall l ensures l in q.buffers <==> l == 0 || Written(t, w + {n}, l) {
      WrittenGrows(t, w, n, l);
    }
  }

  lemma WrittenGrows(t: Tree, w: set<nat>, n: nat, l: nat)
    requires n < |t.nodes|
    ensures Written(t, w + {n}, l) <==> Written(t, w, l) || l in t.nodes[n].outputs
  {
    if l in t.nodes[n].outputs {
      assert n in w + {n} && Produces(t.nodes, n, l);
    } else if Written(t, w, l) {
      var k :| k in w && Produces(t.nodes, k, l);
      assert k in w + {n};
    }
  }

  lemma OrderGrows(t: Tree, p: Progress, q: Progress, w: set<nat>, n: nat, bufs: seq<Buffer>)
    requires KeysAre(t, p, w) && InputsComeFirst(t, p, w) && n < |t.nodes| && t.nodes[n].input in p.buffers
    requires Grown(p, q, t.nodes[n].outputs, bufs)
    ensures InputsComeFirst(t, q, w + {n})
  {
    forall k, l | k in w + {n} && Produces(t.nodes, k, l) ensures Before(q.order, t.nodes[k].input, l) {
      BeforeExtends(p.order, t.nodes[n].outputs, t.nodes[k].input, l);
    }
  }

  lemma BuffersFollowGrow(t: Tree, p: Progress, q: Progress, w: set<nat>, n: nat, bufs: seq<Buffer>)
    requires Tidy(t) && KeysAre(t, p, w) && BuffersFollow(t, p, w)
    requires n < |t.nodes| && n !in w && t.nodes[n].input in p.buffers
    requires Grown(p, q, t.nodes[n].outputs, bufs)
    requires forall i :: 0 <= i < |bufs| ==> Follows(t.nodes[n].op, bufs[i], p.buffers[t.nodes[n].input])
    ensures BuffersFollow(t, q, w + {n})
  {
    forall k, l | k in w + {n} && Produces(t.nodes, k, l) && l in q.buffers && t.nodes[k].input in q.buffers
      ensures Follows(t.nodes[k].op, q.buffers[l], q.buffers[t.nodes[k].input])
    {
      if k != n {
        assert Written(t, w, l);
      } else {
        var i :| 0 <= i < |t.nodes[n].outputs| && t.nodes[n].outputs[i] == l;
        assert q.buffers[l] == bufs[i];
      }
    }
  }

  lemma IdsGrow(p: Progress, q: Progress, outs: seq<nat>, bufs: seq<Buffer>)
    requires IdsAre(p) && Grown(p, q, outs, bufs) && p.nextId <= q.nextId
    requires forall i :: 0 <= i < |bufs| ==> IdsBelow(bufs[i], q.nextId)
    ensures IdsAre(q)
  {
    forall l | l in q.buffers ensures IdsBelow(q.buffers[l], q.nextId) {
      if l in p.buffers {
        assert IdsBelow(p.buffers[l], p.nextId);
      } else {
        var i :| 0 <= i < |outs| && outs[i] == l;
        assert q.buffers[l] == bufs[i];
      }
    }
  }

  lemma HomesSurvive(t: Tree, p: Progress, q: Progress, outs: seq<nat>, bufs: seq<Buffer>, id: nat)
    requires Grown(p, q, outs, bufs) && HasHome(t, p, id)
    ensures HasHome(t, q, id)
  {
    var l :| IsHomeOf(t, p, l, id);
    assert IsHomeOf(t, q, l, id);
  }

  /** The outputs of a classify node are homes of nothing. */
  lemma ClassifyOutputsAreNotHomes(t: Tree, n: nat, l: nat)
    requires Tidy(t) && Produces(t.nodes, n, l) && t.nodes[n].op == Classify
    ensures !IsHome(t, l)
  {
    forall k: nat | Produces(t.nodes, k, l) ensures k == n {
      OnlyProducer(t, k, n, l);
    }
  }

  lemma HomesGrowClassify(t: Tree, p: Progress, q: Progress, n: nat, bufs: seq<Buffer>)
    requires Tidy(t) && OneHome(t, p) && AllHaveHomes(t, p) && n < |t.nodes| && t.nodes[n].op == Classify
    requires Grown(p, q, t.nodes[n].outputs, bufs) && q.nextId == p.nextId
    ensures OneHome(t, q) && AllHaveHomes(t, q)
  {
    forall l, id | IsHomeOf(t, q, l, id) ensures IsHomeOf(t, p, l, id) {
      if l in t.nodes[n].outputs {
        assert Produces(t.nodes, n, l);
        ClassifyOutputsAreNotHomes(t, n, l);
      }
    }
    forall id: nat | id < q.nextId ensures HasHome(t, q, id) {
      HomesSurvive(t, p, q, t.nodes[n].outputs, bufs, id);
    }
  }

  /** The ids `base`, `base + 1`, ... of the boxes found are shared out among the outputs. */
  ghost predicate Shared(ds: seq<Found>, bufs: seq<Buffer>, base: nat) {
    && (forall i, id: nat :: (0 <= i < |bufs| && HasId(bufs[i], id)) ==>
          base <= id < base + |ds| && ds[id - base].choice == i)
    && forall k :: 0 <= k < |ds| ==> ds[k].choice < |bufs| && HasId(bufs[ds[k].choice], base + k)
  }

  /** The buffer of output `i` of a detect node. */
  ghost predicate DetectOutput(b: Buffer, ds: seq<Found>, src: Buffer, base: nat, i: nat) {
    && IdsBelow(b, base + |ds|) && HaveParents(b, src)
    && forall id: nat :: HasId(b, id) ==> base <= id < base + |ds| && ds[id - base].choice == i
  }

  lemma DetectOutputHolds(ds: seq<Found>, src: Buffer, base: nat, i: nat)
    requires (forall k :: 0 <= k < |ds| ==> ds[k].inputIndex < |src|) && IdsBelow(src, base)
    ensures DetectOutput(DetectBuffer(ds, src, base, i), ds, src, base, i)
  {
    var b := DetectBuffer(ds, src, base, i);
    DetectBufferHolds(ds, src, base, i);
    forall j | 0 <= j < |b|
      ensures base <= b[j].id < base + |ds| && ds[b[j].id - base].choice == i
      ensures 0 <= b[j].parent < base && HasId(src, b[j].parent)
    {
      assert IsFound(b[j], ds, src, base, i);
      assert src[ds[b[j].id - base].inputIndex].id == b[j].parent;
    }
  }

  lemma OutputsShare(ds: seq<Found>, bufs: seq<Buffer>, src: Buffer, base: nat)
    requires forall i :: 0 <= i < |bufs| ==> DetectOutput(bufs[i], ds, src, base, i)
    requires forall k :: 0 <= k < |ds| ==> ds[k].choice < |bufs| && HasId(bufs[ds[k].choice], base + k)
    ensures Shared(ds, bufs, base)
  {
  }

  lemma DetectBuffersHold(ds: seq<Found>, src: Buffer, base: nat, count: nat)
    requires FoundFits(ds, count, |src|) && IdsBelow(src, base)
    ensures var bufs := DetectBuffers(ds, src, base, count);
      && (forall i :: 0 <= i < count ==> IdsBelow(bufs[i], base + |ds|) && HaveParents(bufs[i], src))
      && Shared(ds, bufs, base)
  {
    var bufs := DetectBuffers(ds, src, base, count);
    forall i | 0 <= i < count ensures DetectOutput(bufs[i], ds, src, base, i) {
      DetectOutputHolds(ds, src, base, i);
    }
    forall k | 0 <= k < |ds| ensures HasId(bufs[ds[k].choice], base + k) {
      DetectBufferIsComplete(ds, src, base, k);
    }
    OutputsShare(ds, bufs, src, base);
  }

  lemma HomesGrowDetect(t: Tree, p: Progress, q: Progress, n: nat, ds: seq<Found>, bufs: seq<Buffer>)
    requires Tidy(t) && OneHome(t, p) && AllHaveHomes(t, p) && IdsAre(p) && n < |t.nodes| && t.nodes[n].op == Detect
    requires Grown(p, q, t.nodes[n].outputs, bufs) && q.nextId == p.nextId + |ds|
    requires Shared(ds, bufs, p.nextId)
    ensures OneHome(t, q) && AllHaveHomes(t, q)
  {
    var outs := t.nodes[n].outputs;
    forall l, id: nat | IsHomeOf(t, q, l, id)
      ensures if id < p.nextId then IsHomeOf(t, p, l, id)
              else id - p.nextId < |ds| && l == outs[ds[id - p.nextId].choice]
    {
      if l in p.buffers {
        assert IdsBelow(p.buffers[l], p.nextId);
      } else {
        var i :| 0 <= i < |outs| && outs[i] == l;
        assert HasId(bufs[i], id);
      }
    }
    forall id: nat | id < q.nextId ensures HasHome(t, q, id) {
      if id < p.nextId {
        HomesSurvive(t, p, q, outs, bufs, id);
      } else {
        var l := outs[ds[id - p.nextId].choice];
        assert Produces(t.nodes, n, l);
        assert q.buffers[l] == bufs[ds[id - p.nextId].choice];
        assert IsHomeOf(t, q, l, id);
      }
    }
  }

  /** New buffers that follow from the input buffer, with ids below the next one, keep the invariant. */
  lemma GrowthKeepsInv(t: Tree, image: Box, p: Progress, q: Progress, w: set<nat>, n: nat, bufs: seq<Buffer>)
    requires Tidy(t) && Inv(t, image, p, w) && n < |t.nodes| && n !in w && t.nodes[n].input in p.buffers
    requires Grown(p, q, t.nodes[n].outputs, bufs) && p.nextId <= q.nextId
    requires forall i :: 0 <= i < |bufs| ==>
      IdsBelow(bufs[i], q.nextId) && Follows(t.nodes[n].op, bufs[i], p.buffers[t.nodes[n].input])
    requires OneHome(t, q) && AllHaveHomes(t, q)
    ensures Inv(t, image, q, w + {n})
  {
    KeysGrow(t, p, q, w, n, bufs);
    OrderGrows(t, p, q, w, n, bufs);
    BuffersFollowGrow(t, p, q, w, n, bufs);
    IdsGrow(p, q, t.nodes[n].outputs, bufs);
  }

  ghost predicate GrownBy(p: Progress, q: Progress, outs: seq<nat>) {
    exists bufs :: Grown(p, q, outs, bufs)
  }

  /** Decoding a detect node whose input has instances keeps the invariant. */
  lemma DetectKeepsInv(t: Tree, m: Models, image: Box, p: Progress, w: set<nat>, n: nat)
    requires Tidy(t) && Honest(t, m) && Inv(t, image, p, w)
    requires n < |t.nodes| && n !in w && t.nodes[n].op == Detect
    requires t.nodes[n].input in p.buffers && p.buffers[t.nodes[n].input] != []
    ensures var q := DetectStep(t, m, p, p.buffers[t.nodes[n].input], n);
      Inv(t, image, q, w + {n}) && q.queue == p.queue && GrownBy(p, q, t.nodes[n].outputs)
  {
    var src := p.buffers[t.nodes[n].input];
    var ds := m.owl(n, BoxesOf(src));
    var outs := t.nodes[n].outputs;
    var bufs := DetectBuffers(ds, src, p.nextId, |outs|);
    var q := DetectStep(t, m, p, src, n);
    OutputsAreNew(t, p, w, n);
    PutAllGrows(p, outs, bufs);
    assert Grown(p, q, outs, bufs);
    DetectBuffersHold(ds, src, p.nextId, |outs|);
    HomesGrowDetect(t, p, q, n, ds, bufs);
    GrowthKeepsInv(t, image, p, q, w, n, bufs);
  }

  lemma ClassifyBuffersHold(cs: seq<Sorted>, src: Buffer, bound: nat, count: nat)
    requires |cs| == |src| && IdsBelow(src, bound)
    ensures var bufs := ClassifyBuffers(cs, src, count);
      forall i :: 0 <= i < count ==> IdsBelow(bufs[i], bound) && AreCopies(bufs[i], src)
  {
    var bufs := ClassifyBuffers(cs, src, count);
    forall i | 0 <= i < count ensures IdsBelow(bufs[i], bound) && AreCopies(bufs[i], src) {
      ClassifyBufferHolds(cs, src, i);
      forall x: Instance | x in bufs[i] ensures x.id < bound && HasCopy(src, x) {
        assert IsSorted(x, cs, src, i);
        var k :| 0 <= k < |cs| && cs[k].choice == i && x == src[k].(score := cs[k].score);
        assert src[k] in src && SameInstance(x, src[k]);
      }
      assert forall j :: 0 <= j < |bufs[i]| ==> bufs[i][j] in bufs[i];
    }
  }

  /** Sorting the instances of a label keeps the invariant. */
  lemma ClassifyKeepsInv(t: Tree, m: Models, image: Box, p: Progress, w: set<nat>, n: nat)
    requires Tidy(t) && Honest(t, m) && Inv(t, image, p, w)
    requires n < |t.nodes| && n !in w && t.nodes[n].op == Classify
    requires t.nodes[n].input in p.buffers && p.buffers[t.nodes[n].input] != []
    ensures var q := ClassifyStep(t, m, p, p.buffers[t.nodes[n].input], n);
      Inv(t, image, q, w + {n}) && q.queue == p.queue && GrownBy(p, q, t.nodes[n].outputs)
  {
    var src := p.buffers[t.nodes[n].input];
    var cs := m.clip(n, BoxesOf(src));
    var outs := t.nodes[n].outputs;
    var bufs := ClassifyBuffers(cs, src, |outs|);
    var q := ClassifyStep(t, m, p, src, n);
    OutputsAreNew(t, p, w, n);
    PutAllGrows(p, outs, bufs);
    assert Grown(p, q, outs, bufs);
    ClassifyBuffersHold(cs, src, p.nextId, |outs|);
    HomesGrowClassify(t, p, q, n, bufs);
    GrowthKeepsInv(t, image, p, q, w, n, bufs);
  }

  lemma InitialInv(t: Tree, image: Box)
    requires Tidy(t)
    ensures Inv(t, image, Initial(image), {})
  {
    var p := Initial(image);
    assert p.buffers[0][0].id == 0;
    assert IsHomeOf(t, p, 0, 0);
  }

  // ---------- the worklist ----------

  ghost function AsSet(ns: seq<nat>): set<nat> {
    set n | n in ns
  }

  /** The buffers of `p` are still there in `q`. */
  ghost predicate Keeps(p: Progress, q: Progress) {
    q.queue == p.queue && forall k :: k in p.buffers ==> k in q.buffers && q.buffers[k] == p.buffers[k]
  }

  lemma NodeStepKeepsInv(t: Tree, m: Models, image: Box, p: Progress, w: set<nat>, l: nat, src: Buffer, n: nat)
    requires Tidy(t) && Honest(t, m) && Inv(t, image, p, w) && l in p.buffers && p.buffers[l] == src != []
    requires n < |t.nodes| && n !in w && t.nodes[n].input == l
    ensures var q := NodeStep(t, m, p, src, n); Inv(t, image, q, w + {n}) && Keeps(p, q)
  {
    if t.nodes[n].op == Detect {
      DetectKeepsInv(t, m, image, p, w, n);
    } else {
      ClassifyKeepsInv(t, m, image, p, w, n);
    }
    var q := NodeStep(t, m, p, src, n);
    var bufs :| Grown(p, q, t.nodes[n].outputs, bufs);
  }

  /** Decoding some nodes of label `l`, which keeps its buffer, keeps the invariant. */
  lemma {:induction false} NodeStepsKeepInv(t: Tree, m: Models, image: Box, p: Progress, w: set<nat>, l: nat, ns: seq<nat>)
    requires Tidy(t) && Honest(t, m) && Inv(t, image, p, w) && l in p.buffers && p.buffers[l] != []
    requires AreNodes(t.nodes, ns) && Distinct(ns)
    requires forall j :: 0 <= j < |ns| ==> ns[j] !in w && t.nodes[ns[j]].input == l
    ensures var q := NodeSteps(t, m, p, p.buffers[l], ns); Inv(t, image, q, w + AsSet(ns)) && Keeps(p, q)
    decreases |ns|
  {
    if ns == [] {
      assert w + AsSet(ns) == w;
    } else {
      var last := |ns| - 1;
      var front := ns[..last];
      NodeStepsKeepInv(t, m, image, p, w, l, front);
      AsSetExtends(w, ns);
      NodeStepKeepsInv(t, m, image, NodeSteps(t, m, p, p.buffers[l], front), w + AsSet(front), l, p.buffers[l], ns[last]);
    }
  }

  lemma AsSetExtends(w: set<nat>, ns: seq<nat>)
    requires ns != [] && Distinct(ns) && ns[|ns| - 1] !in w
    ensures var last := |ns| - 1;
      && ns[last] !in w + AsSet(ns[..last])
      && w + AsSet(ns) == w + AsSet(ns[..last]) + {ns[last]}
  {
    var last := |ns| - 1;
    assert ns == ns[..last] + [ns[last]];
    assert ns[last] !in ns[..last];
    assert AsSet(ns) == AsSet(ns[..last]) + {ns[last]};
  }

  /** `done` are the labels visited so far; each label is visited at most once. */
  ghost predicate Worklist(t: Tree, p: Progress, w: set<nat>, done: set<nat>) {
    && Distinct(p.queue)
    && (forall l :: l in p.queue ==> l !in done)
    && (forall l :: (l in p.queue || l in done) <==> (l in p.buffers && p.buffers[l] != []))
    && forall n: nat :: n in w <==> n < |t.nodes| && t.nodes[n].input in done
  }

  lemma {:induction false} NonEmptyHolds(buffers: map<nat, Buffer>, outs: seq<nat>)
    ensures forall l :: l in NonEmpty(buffers, outs) <==> l in outs && l in buffers && buffers[l] != []
    ensures Distinct(outs) ==> Distinct(NonEmpty(buffers, outs))
  {
    if outs == [] {
    } else {
      var k := |outs| - 1;
      assert outs == outs[..k] + [outs[k]];
      NonEmptyHolds(buffers, outs[..k]);
      assert Distinct(outs) ==> outs[k] !in outs[..k];
    }
  }

  lemma DistinctConcat(a: seq<nat>, b: seq<nat>)
    requires Distinct(a) && Distinct(b) && forall l :: l in b ==> l !in a
    ensures Distinct(a + b)
  {
    forall j, k | 0 <= j < k < |a + b| ensures (a + b)[j] != (a + b)[k] {
      if j < |a| <= k { assert b[k - |a|] in b && a[j] in a; }
    }
  }

  ghost predicate ProducedBy(t: Tree, ns: seq<nat>, l: nat) {
    exists j :: 0 <= j < |ns| && Produces(t.nodes, ns[j], l)
  }

  lemma {:induction false} NonEmptyOutputsHold(t: Tree, buffers: map<nat, Buffer>, ns: seq<nat>)
    requires Tidy(t) && AreNodes(t.nodes, ns) && Distinct(ns)
    ensures var ls := NonEmptyOutputs(t, buffers, ns);
      && Distinct(ls)
      && forall l :: l in ls <==> ProducedBy(t, ns, l) && l in buffers && buffers[l] != []
    decreases |ns|
  {
    if ns == [] {
    } else {
      var k := |ns| - 1;
      var front := ns[..k];
      assert ns == front + [ns[k]];
      NonEmptyOutputsHold(t, buffers, front);
      var outs := t.nodes[ns[k]].outputs;
      NonEmptyHolds(buffers, outs);
      forall l ensures ProducedBy(t, ns, l) <==> ProducedBy(t, front, l) || l in outs {
        if ProducedBy(t, front, l) {
          var j :| 0 <= j < |front| && Produces(t.nodes, front[j], l);
          assert Produces(t.nodes, ns[j], l);
        }
        if l in outs { assert Produces(t.nodes, ns[k], l); }
      }
      forall l | l in outs ensures l !in NonEmptyOutputs(t, buffers, front) {
        forall j | 0 <= j < |front| ensures !Produces(t.nodes, front[j], l) {
          assert ns[j] != ns[k] && Produces(t.nodes, ns[k], l);
          if Produces(t.nodes, ns[j], l) { OnlyProducer(t, ns[j], ns[k], l); }
        }
      }
      DistinctConcat(NonEmptyOutputs(t, buffers, front), NonEmpty(buffers, outs));
    }
  }

  /** The nodes of a label not yet visited are not yet written, and each is found once. */
  lemma NodesOfLabel(t: Tree, p: Progress, w: set<nat>, done: set<nat>, l: nat)
    requires Worklist(t, p, w, done) && l !in done
    ensures var ns := NodesOf(t, l);
      && Distinct(ns)
      && (forall n: nat :: n in ns <==> n < |t.nodes| && t.nodes[n].input == l)
      && forall j :: 0 <= j < |ns| ==> ns[j] !in w && t.nodes[ns[j]].input == l
  {
    var ds, cs := FindNodes(t.nodes, l, Detect), FindNodes(t.nodes, l, Classify);
    var ns := NodesOf(t, l);
    forall n: nat | n < |t.nodes| && t.nodes[n].input == l ensures n in ns {
      if t.nodes[n].op == Detect {
        assert Fits(t.nodes[n], l, Detect) && n in ds;
      } else {
        assert Fits(t.nodes[n], l, Classify) && n in cs;
      }
    }
    forall j, k | 0 <= j < k < |ns| ensures ns[j] != ns[k] {
      assert j < |ds| <= k ==> t.nodes[ns[j]].op != t.nodes[ns[k]].op;
    }
  }

  /** One visit keeps the invariant and the worklist, and adds one label to the visited ones. */
  lemma VisitKeeps(t: Tree, m: Models, image: Box, p: Progress, w: set<nat>, done: set<nat>)
    requires Tidy(t) && Honest(t, m) && Inv(t, image, p, w) && Worklist(t, p, w, done) && p.queue != []
    ensures CanVisit(p) && p.queue[0] !in done
    ensures var w' := w + AsSet(NodesOf(t, p.queue[0]));
      var q := Visit(t, m, p);
      Inv(t, image, q, w') && Worklist(t, q, w', done + {p.queue[0]})
  {
    var l := p.queue[0];
    var ns := NodesOf(t, l);
    var rest := p.(queue := p.queue[1..]);
    var w' := w + AsSet(ns);
    NodesOfLabel(t, p, w, done, l);
    QueueIsIrrelevant(t, image, p, rest, w);
    NodeStepsKeepInv(t, m, image, rest, w, l, ns);
    var after := NodeSteps(t, m, rest, p.buffers[l], ns);
    var q := Visit(t, m, p);
    QueueIsIrrelevant(t, image, after, q, w');
    NonEmptyOutputsHold(t, after.buffers, ns);
    NewKeysAreProduced(t, p, after, w, ns);
    WorklistAdvances(t, p, after, w, done, ns, NonEmptyOutputs(t, after.buffers, ns));
  }

  lemma WorklistAdvances(t: Tree, p: Progress, after: Progress, w: set<nat>, done: set<nat>, ns: seq<nat>, more: seq<nat>)
    requires Worklist(t, p, w, done) && p.queue != []
    requires forall n: nat :: n in ns <==> n < |t.nodes| && t.nodes[n].input == p.queue[0]
    requires after.queue == p.queue[1..] && forall k :: k in p.buffers ==> k in after.buffers && after.buffers[k] == p.buffers[k]
    requires forall l :: l in after.buffers <==> l in p.buffers || ProducedBy(t, ns, l)
    requires forall l :: l in p.buffers ==> !ProducedBy(t, ns, l)
    requires Distinct(more)
    requires forall l :: l in more <==> ProducedBy(t, ns, l) && l in after.buffers && after.buffers[l] != []
    ensures Worklist(t, after.(queue := after.queue + more), w + AsSet(ns), done + {p.queue[0]})
  {
    assert p.queue == [p.queue[0]] + p.queue[1..];
    assert p.queue[0] !in p.queue[1..];
    DistinctConcat(p.queue[1..], more);
  }

  lemma QueueIsIrrelevant(t: Tree, image: Box, p: Progress, q: Progress, w: set<nat>)
    requires Inv(t, image, p, w) && q == p.(queue := q.queue)
    ensures Inv(t, image, q, w)
  {
    forall l, id: nat ensures IsHomeOf(t, q, l, id) <==> IsHomeOf(t, p, l, id) {
    }
    forall id: nat | id < q.nextId ensures HasHome(t, q, id) {
      assert HasHome(t, p, id);
      var l :| IsHomeOf(t, p, l, id);
      assert IsHomeOf(t, q, l, id);
    }
  }

  lemma NewKeysAreProduced(t: Tree, p: Progress, q: Progress, w: set<nat>, ns: seq<nat>)
    requires Tidy(t) && KeysAre(t, p, w) && KeysAre(t, q, w + AsSet(ns)) && AreNodes(t.nodes, ns)
    requires forall j :: 0 <= j < |ns| ==> ns[j] !in w
    ensures forall l :: l in q.buffers <==> l in p.buffers || ProducedBy(t, ns, l)
    ensures forall l :: l in p.buffers ==> !ProducedBy(t, ns, l)
  {
    forall l | l in q.buffers ensures l in p.buffers || ProducedBy(t, ns, l) {
      if l != 0 {
        var n :| n in w + AsSet(ns) && Produces(t.nodes, n, l);
        if n in w {
          assert Written(t, w, l);
        } else {
          var j :| 0 <= j < |ns| && ns[j] == n;
          assert Produces(t.nodes, ns[j], l);
        }
      }
    }
    forall l | ProducedBy(t, ns, l) ensures l in q.buffers && l !in p.buffers {
      var j :| 0 <= j < |ns| && Produces(t.nodes, ns[j], l);
      assert ns[j] in w + AsSet(ns);
      assert Written(t, w + AsSet(ns), l);
      OutputsAreNew(t, p, w, ns[j]);
    }
    forall l | l in p.buffers ensures l in q.buffers {
      if l != 0 {
        var n :| n in w && Produces(t.nodes, n, l);
        assert n in w + AsSet(ns);
      }
    }
  }

  lemma InitialWorklist(t: Tree, image: Box)
    ensures Worklist(t, Initial(image), {}, {})
  {
  }

  // ---------- the program ----------

  /** Decodes one detect node: ids are handed out from the counter, each output takes its share. */
  method DecodeDetectNode(t: Tree, m: Models, p: Progress, n: nat) returns (q: Progress)
    requires Honest(t, m) && n < |t.nodes|
    requires t.nodes[n].input in p.buffers && p.buffers[t.nodes[n].input] != []
    ensures q == DetectStep(t, m, p, p.buffers[t.nodes[n].input], n)
  {
    var outs := t.nodes[n].outputs;
    var src := p.buffers[t.nodes[n].input];
    var ds := m.owl(n, BoxesOf(src));
    ghost var bufs := DetectBuffers(ds, src, p.nextId, |outs|);
    q := p;
    for i := 0 to |outs|
      invariant q == PutAll(p, outs[..i], bufs[..i])
    {
      assert outs[..i + 1][..i] == outs[..i] && bufs[..i + 1][..i] == bufs[..i];
      q := Put(q, outs[i], DetectBuffer(ds, src, p.nextId, i));
    }
    assert outs[..|outs|] == outs && bufs[..|outs|] == bufs;
    q := q.(nextId := p.nextId + |ds|);
  }

  /** Decodes one classify node: its instances are those of the input, with the same ids. */
  method DecodeClassifyNode(t: Tree, m: Models, p: Progress, n: nat) returns (q: Progress)
    requires Honest(t, m) && n < |t.nodes|
    requires t.nodes[n].input in p.buffers && p.buffers[t.nodes[n].input] != []
    ensures q == ClassifyStep(t, m, p, p.buffers[t.nodes[n].input], n)
  {
    var outs := t.nodes[n].outputs;
    var src := p.buffers[t.nodes[n].input];
    var cs := m.clip(n, BoxesOf(src));
    ghost var bufs := ClassifyBuffers(cs, src, |outs|);
    q := p;
    for i := 0 to |outs|
      invariant q == PutAll(p, outs[..i], bufs[..i])
    {
      assert outs[..i + 1][..i] == outs[..i] && bufs[..i + 1][..i] == bufs[..i];
      q := Put(q, outs[i], ClassifyBuffer(cs, src, i));
    }
    assert outs[..|outs|] == outs && bufs[..|outs|] == bufs;
  }

  lemma InputStays(t: Tree, m: Models, image: Box, p: Progress, w: set<nat>, l: nat, ns: seq<nat>)
    requires Tidy(t) && Honest(t, m) && Inv(t, image, p, w) && l in p.buffers && p.buffers[l] != []
    requires AreNodes(t.nodes, ns) && Distinct(ns)
    requires forall j :: 0 <= j < |ns| ==> ns[j] !in w && t.nodes[ns[j]].input == l
    ensures var q := NodeSteps(t, m, p, p.buffers[l], ns); l in q.buffers && q.buffers[l] == p.buffers[l]
  {
    NodeStepsKeepInv(t, m, image, p, w, l, ns);
  }

  method DecodeNodes(t: Tree, m: Models, p: Progress, l: nat, ns: seq<nat>, ghost image: Box, ghost w: set<nat>)
    returns (q: Progress)
    requires Tidy(t) && Honest(t, m) && Inv(t, image, p, w) && l in p.buffers && p.buffers[l] != []
    requires AreNodes(t.nodes, ns) && Distinct(ns)
    requires forall j :: 0 <= j < |ns| ==> ns[j] !in w && t.nodes[ns[j]].input == l
    ensures q == NodeSteps(t, m, p, p.buffers[l], ns)
  {
    q := p;
    for k := 0 to |ns|
      invariant q == NodeSteps(t, m, p, p.buffers[l], ns[..k])
    {
      InputStays(t, m, image, p, w, l, ns[..k]);
      assert ns[..k + 1][..k] == ns[..k];
      if t.nodes[ns[k]].op == Detect {
        q := DecodeDetectNode(t, m, q, ns[k]);
      } else {
        q := DecodeClassifyNode(t, m, q, ns[k]);
      }
    }
    assert ns[..|ns|] == ns;
  }

  /** Visits the label at the head of the queue. */
  method VisitLabel(t: Tree, m: Models, p: Progress, ghost image: Box, ghost w: set<nat>, ghost done: set<nat>)
    returns (q: Progress)
    requires Tidy(t) && Honest(t, m) && Inv(t, image, p, w) && Worklist(t, p, w, done) && p.queue != []
    ensures CanVisit(p) && q == Visit(t, m, p)
  {
    VisitKeeps(t, m, image, p, w, done);
    var l := p.queue[0];
    NodesOfLabel(t, p, w, done, l);
    var ns := FindNodes(t.nodes, l, Detect) + FindNodes(t.nodes, l, Classify);
    q := p.(queue := p.queue[1..]);
    QueueIsIrrelevant(t, image, p, q, w);
    q := DecodeNodes(t, m, q, l, ns, image, w);
    q := q.(queue := q.queue + NonEmptyOutputs(t, q.buffers, ns));
  }
}
