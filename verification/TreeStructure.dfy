/**
  The structure of prompt trees: every label above 0 is the output of exactly one node, every
  output is larger than the input of its node, and the depth of a label is its bracket nesting.
*/
module TreeStructure {
  import opened PromptTree

  // ---------- label numbers ----------

  ghost function CountIn(s: seq<nat>, l: nat): nat {
    if s == [] then 0 else (if s[0] == l then 1 else 0) + CountIn(s[1..], l)
  }

  /** How often label `l` is listed as an output. */
  ghost function Listed(nodes: seq<Node>, l: nat): nat {
    if nodes == [] then 0 else CountIn(nodes[0].outputs, l) + Listed(nodes[1..], l)
  }

  lemma {:induction false} ListedConcat(a: seq<Node>, b: seq<Node>, l: nat)
    ensures Listed(a + b, l) == Listed(a, l) + Listed(b, l)
  {
    if a == [] {
      assert a + b == b;
    } else {
      ListedConcat(a[1..], b, l);
      assert (a + b)[1..] == a[1..] + b;
    }
  }

  ghost function Once(lo: nat, hi: nat, l: nat): nat {
    if lo <= l < hi then 1 else 0
  }

  lemma CountHead(x: nat, rest: seq<nat>, l: nat)
    ensures CountIn([x] + rest, l) == Once(x, x + 1, l) + CountIn(rest, l)
    ensures rest == [] ==> CountIn([x], l) == Once(x, x + 1, l)
  {
    assert ([x] + rest)[1..] == rest;
    assert [x][1..] == [];
  }

  lemma ListedParts(node: Node, inner: seq<Node>, after: seq<Node>, l: nat)
    ensures Listed([node] + inner + after, l) == CountIn(node.outputs, l) + Listed(inner, l) + Listed(after, l)
  {
    assert Listed([node], l) == CountIn(node.outputs, l);
    ListedConcat([node], inner, l);
    ListedConcat([node] + inner, after, l);
  }

  lemma {:induction false} BodyLists(b: Body, owner: nat, next: nat, l: nat)
    ensures Listed(Nodes(b, owner, next), l) == Once(next, next + Count(b), l)
    decreases b
  {
    match b
    case End =>
    case Char(_, rest) => BodyLists(rest, owner, next, l);
    case Group(op, alts, rest) =>
      var mid := next + CountAlts(alts);
      var node := Node(op, owner, Outputs(alts, next));
      ListedParts(node, NodesAlts(alts, next), Nodes(rest, owner, mid), l);
      AltsList(alts, next, l);
      BodyLists(rest, owner, mid, l);
  }

  lemma {:induction false} AltsList(a: Alts, next: nat, l: nat)
    ensures CountIn(Outputs(a, next), l) + Listed(NodesAlts(a, next), l) == Once(next, next + CountAlts(a), l)
    decreases a
  {
    match a
    case Last(b) =>
      BodyLists(b, next, next + 1, l);
      CountHead(next, [], l);
    case More(b, rest) =>
      var mid := next + 1 + Count(b);
      BodyLists(b, next, next + 1, l);
      AltsList(rest, mid, l);
      ListedConcat(Nodes(b, next, next + 1), NodesAlts(rest, mid), l);
      CountHead(next, Outputs(rest, mid), l);
  }

  ghost predicate Produces(nodes: seq<Node>, i: nat, l: nat) {
    i < |nodes| && l in nodes[i].outputs
  }

  ghost predicate HasProducer(nodes: seq<Node>, l: nat) {
    exists i: nat :: Produces(nodes, i, l)
  }

  /** No label is listed twice, in one node or in two. */
  ghost predicate UniqueOutputs(nodes: seq<Node>) {
    && (forall i: nat, a: nat, b: nat :: i < |nodes| && a < b < |nodes[i].outputs| ==>
          nodes[i].outputs[a] != nodes[i].outputs[b])
    && forall i: nat, j: nat, l: nat :: i < j && Produces(nodes, i, l) ==> !Produces(nodes, j, l)
  }

  lemma {:induction false} InIsCounted(s: seq<nat>, l: nat)
    ensures l in s <==> CountIn(s, l) >= 1
  {
    if s == [] {
    } else {
      InIsCounted(s[1..], l);
    }
  }

  lemma {:induction false} TwiceIsCountedTwice(s: seq<nat>, a: nat, b: nat)
    requires a < b < |s| && s[a] == s[b]
    ensures CountIn(s, s[a]) >= 2
  {
    if a == 0 {
      InIsCounted(s[1..], s[a]);
    } else {
      TwiceIsCountedTwice(s[1..], a - 1, b - 1);
    }
  }

  lemma {:induction false} ProducedIsListed(nodes: seq<Node>, i: nat, l: nat)
    requires Produces(nodes, i, l)
    ensures Listed(nodes, l) >= CountIn(nodes[i].outputs, l) >= 1
  {
    InIsCounted(nodes[i].outputs, l);
    if i == 0 {
    } else {
      ProducedIsListed(nodes[1..], i - 1, l);
    }
  }

  lemma {:induction false} TwoProducersListTwice(nodes: seq<Node>, i: nat, j: nat, l: nat)
    requires i < j && Produces(nodes, i, l) && Produces(nodes, j, l)
    ensures Listed(nodes, l) >= 2
  {
    if i > 0 {
      TwoProducersListTwice(nodes[1..], i - 1, j - 1, l);
    } else {
      InIsCounted(nodes[0].outputs, l);
      ProducedIsListed(nodes[1..], j - 1, l);
    }
  }

  lemma {:induction false} ListedIsProduced(nodes: seq<Node>, l: nat) returns (i: nat)
    requires Listed(nodes, l) > 0
    ensures Produces(nodes, i, l)
  {
    InIsCounted(nodes[0].outputs, l);
    if l in nodes[0].outputs { return 0; }
    var k := ListedIsProduced(nodes[1..], l);
    i := k + 1;
  }

  lemma ListedOnceIsUnique(nodes: seq<Node>)
    requires forall l :: Listed(nodes, l) <= 1
    ensures UniqueOutputs(nodes)
  {
    forall i: nat, a: nat, b: nat | i < |nodes| && a < b < |nodes[i].outputs|
      ensures nodes[i].outputs[a] != nodes[i].outputs[b]
    {
      ProducedIsListed(nodes, i, nodes[i].outputs[a]);
      if nodes[i].outputs[a] == nodes[i].outputs[b] { TwiceIsCountedTwice(nodes[i].outputs, a, b); }
    }
    forall i: nat, j: nat, l: nat | i < j && Produces(nodes, i, l) ensures !Produces(nodes, j, l) {
      if Produces(nodes, j, l) { TwoProducersListTwice(nodes, i, j, l); }
    }
  }

  /** Every output is larger than the input of its node, and every input is a label. */
  ghost predicate InputsFirst(nodes: seq<Node>) {
    forall i: nat, l: nat :: Produces(nodes, i, l) ==> nodes[i].input < l
  }

  ghost predicate InputsFrom(nodes: seq<Node>, owner: nat, lo: nat, hi: nat) {
    forall i :: 0 <= i < |nodes| ==> nodes[i].input == owner || lo <= nodes[i].input < hi
  }

  lemma InputsFirstConcat(a: seq<Node>, b: seq<Node>)
    requires InputsFirst(a) && InputsFirst(b)
    ensures InputsFirst(a + b)
  {
    forall i: nat, l: nat | Produces(a + b, i, l) ensures (a + b)[i].input < l {
      assert if i < |a| then Produces(a, i, l) else Produces(b, i - |a|, l);
    }
  }

  lemma {:induction false} OutputsAreLarge(a: Alts, next: nat)
    ensures forall l :: l in Outputs(a, next) ==> next <= l < next + CountAlts(a)
    decreases a
  {
    match a
    case Last(_) =>
    case More(b, rest) => OutputsAreLarge(rest, next + 1 + Count(b));
  }

  lemma {:induction false} BodyInputs(b: Body, owner: nat, next: nat)
    requires owner < next
    ensures var nodes := Nodes(b, owner, next); InputsFirst(nodes) && InputsFrom(nodes, owner, next, next + Count(b))
    decreases b
  {
    match b
    case End =>
    case Char(_, rest) => BodyInputs(rest, owner, next);
    case Group(op, alts, rest) =>
      var mid := next + CountAlts(alts);
      var head := [Node(op, owner, Outputs(alts, next))];
      OutputsAreLarge(alts, next);
      AltsInputs(alts, next);
      BodyInputs(rest, owner, mid);
      InputsFirstConcat(head, NodesAlts(alts, next));
      InputsFirstConcat(head + NodesAlts(alts, next), Nodes(rest, owner, mid));
  }

  lemma {:induction false} AltsInputs(a: Alts, next: nat)
    ensures var nodes := NodesAlts(a, next); InputsFirst(nodes) && InputsFrom(nodes, next, next, next + CountAlts(a))
    decreases a
  {
    match a
    case Last(b) => BodyInputs(b, next, next + 1);
    case More(b, rest) =>
      var mid := next + 1 + Count(b);
      BodyInputs(b, next, next + 1);
      AltsInputs(rest, mid);
      InputsFirstConcat(Nodes(b, next, next + 1), NodesAlts(rest, mid));
  }

  /** What the predictor relies on. */
  ghost predicate Tidy(t: Tree) {
    && |t.labels| >= 1
    && UniqueOutputs(t.nodes) && InputsFirst(t.nodes)
    && (forall i :: 0 <= i < |t.nodes| ==> t.nodes[i].input < |t.labels|)
    && (forall i: nat, l: nat :: Produces(t.nodes, i, l) ==> 1 <= l < |t.labels|)
    && forall l: nat :: 1 <= l < |t.labels| ==> HasProducer(t.nodes, l)
  }

  lemma TreesAreTidy(b: Body)
    ensures Tidy(TreeOf(b))
  {
    var t := TreeOf(b);
    BodyInputs(b, 0, 1);
    forall l: nat ensures Listed(t.nodes, l) == Once(1, |t.labels|, l) {
      BodyLists(b, 0, 1, l);
    }
    ListedOnceIsUnique(t.nodes);
    forall i: nat, l: nat | Produces(t.nodes, i, l) ensures 1 <= l < |t.labels| {
      ProducedIsListed(t.nodes, i, l);
    }
    forall l: nat | 1 <= l < |t.labels| ensures HasProducer(t.nodes, l) {
      var i := ListedIsProduced(t.nodes, l);
    }
  }

  /** Every tree the parser returns: each label from 1 is an output of exactly one node. */
  lemma ParsedTreesAreTidy(prompt: string)
    requires Parse(prompt).Ok?
    ensures Tidy(Parse(prompt).value)
  {
    ParsesIffWellFormed(prompt);
    var b :| WellFormed(b) && Print(b) == prompt;
    ParseInvertsPrint(b);
    TreesAreTidy(b);
  }

  // ---------- the label map and the depth of a label ----------

  datatype LabelMap = DuplicateOutput | LabelMap(nodeOf: map<nat, nat>)

  ghost predicate MapsLabels(nodes: seq<Node>, m: map<nat, nat>) {
    && (forall l :: l in m ==> Produces(nodes, m[l], l))
    && forall i: nat, l: nat :: Produces(nodes, i, l) ==> l in m
  }

  /** The map has the labels it had before, and the given outputs with node `i`. */
  ghost predicate Recorded(m: map<nat, nat>, before: map<nat, nat>, outs: seq<nat>, i: nat) {
    && (forall l :: l in m <==> l in before || l in outs)
    && forall l :: l in m ==> m[l] == if l in before then before[l] else i
  }

  lemma RecordNext(m: map<nat, nat>, before: map<nat, nat>, outs: seq<nat>, i: nat, x: nat)
    requires Recorded(m, before, outs, i) && x !in m
    ensures Recorded(m[x := i], before, outs + [x], i)
  {
  }

  /** Records the outputs of node `i`, up to the first that is already in the map. */
  method RecordOutputs(before: map<nat, nat>, outs: seq<nat>, i: nat) returns (m: map<nat, nat>, stop: nat)
    ensures stop <= |outs|
    ensures stop < |outs| <==> exists c :: 0 <= c < |outs| && (outs[c] in before || outs[c] in outs[..c])
    ensures stop < |outs| ==> outs[stop] in before || outs[stop] in outs[..stop]
    ensures stop == |outs| ==> Recorded(m, before, outs, i)
  {
    m, stop := before, 0;
    while stop < |outs|
      invariant stop <= |outs|
      invariant Recorded(m, before, outs[..stop], i)
      invariant forall c :: 0 <= c < stop ==> outs[c] !in before && outs[c] !in outs[..c]
    {
      if outs[stop] in m { return; }
      RecordNext(m, before, outs[..stop], i, outs[stop]);
      assert outs[..stop + 1] == outs[..stop] + [outs[stop]];
      m := m[outs[stop] := i];
      stop := stop + 1;
    }
    assert outs[..|outs|] == outs;
  }

  /** Maps each output label to its node; reports a duplicate iff some label is listed twice. */
  method BuildLabelIndexToNodeMap(nodes: seq<Node>) returns (r: LabelMap)
    ensures r.DuplicateOutput? <==> !UniqueOutputs(nodes)
    ensures r.LabelMap? ==> MapsLabels(nodes, r.nodeOf)
  {
    var m: map<nat, nat> := map[];
    for i := 0 to |nodes|
      invariant UniqueOutputs(nodes[..i]) && MapsLabels(nodes[..i], m)
    {
      var next, stop := RecordOutputs(m, nodes[i].outputs, i);
      if stop < |nodes[i].outputs| {
        DuplicateFound(nodes, m, i, stop);
        return DuplicateOutput;
      }
      MapExtends(nodes, i, m, next);
      m := next;
    }
    assert nodes[..|nodes|] == nodes;
    return LabelMap(m);
  }

  lemma DuplicateFound(nodes: seq<Node>, m: map<nat, nat>, i: nat, k: nat)
    requires i < |nodes| && k < |nodes[i].outputs| && MapsLabels(nodes[..i], m)
    requires nodes[i].outputs[k] in m || nodes[i].outputs[k] in nodes[i].outputs[..k]
    ensures !UniqueOutputs(nodes)
  {
    var l := nodes[i].outputs[k];
    if l in m {
      assert Produces(nodes[..i], m[l], l);
      assert Produces(nodes, m[l], l) && Produces(nodes, i, l);
    } else {
      var c :| 0 <= c < k && nodes[i].outputs[..k][c] == l;
      assert nodes[i].outputs[c] == l;
    }
  }

  lemma MapExtends(nodes: seq<Node>, i: nat, before: map<nat, nat>, m: map<nat, nat>)
    requires i < |nodes| && UniqueOutputs(nodes[..i]) && MapsLabels(nodes[..i], before)
    requires var outs := nodes[i].outputs;
      forall c :: 0 <= c < |outs| ==> outs[c] !in before && outs[c] !in outs[..c]
    requires forall l :: l in m <==> l in before || l in nodes[i].outputs
    requires forall l :: l in m ==> m[l] == if l in before then before[l] else i
    ensures UniqueOutputs(nodes[..i + 1]) && MapsLabels(nodes[..i + 1], m)
  {
    var some, more := nodes[..i], nodes[..i + 1];
    assert more == some + [nodes[i]];
    forall a, b | 0 <= a < b < |nodes[i].outputs| ensures nodes[i].outputs[a] != nodes[i].outputs[b] {
      assert nodes[i].outputs[a] == nodes[i].outputs[..b][a];
    }
    forall p: nat, l: nat | Produces(more, p, l) ensures l in m && m[l] == p {
      if p < i {
        assert Produces(some, p, l);
        assert Produces(some, before[l], l);
      }
    }
    forall l | l in m ensures Produces(more, m[l], l) {
      if l in before { assert Produces(some, before[l], l); }
    }
  }

  /** The number of nodes on the way from a label to one that no node produces. */
  ghost function DepthOf(nodes: seq<Node>, l: nat): nat
    requires InputsFirst(nodes)
    decreases l
  {
    if i: nat :| Produces(nodes, i, l) then 1 + DepthOf(nodes, nodes[i].input) else 0
  }

  method GetLabelDepth(nodes: seq<Node>, nodeOf: map<nat, nat>, index: nat) returns (depth: nat)
    requires InputsFirst(nodes) && UniqueOutputs(nodes) && MapsLabels(nodes, nodeOf)
    ensures depth == DepthOf(nodes, index)
  {
    depth := 0;
    var l := index;
    while l in nodeOf
      invariant depth + DepthOf(nodes, l) == DepthOf(nodes, index)
      decreases l
    {
      assert forall i: nat :: Produces(nodes, i, l) ==> i == nodeOf[l];
      depth := depth + 1;
      l := nodes[nodeOf[l]].input;
    }
  }

  /** The bracket nesting of the labels of a body, in the order of their numbers. */
  ghost function Nesting(b: Body, d: nat): (r: seq<nat>)
    ensures |r| == Count(b)
  {
    match b
    case End => []
    case Char(_, rest) => Nesting(rest, d)
    case Group(_, alts, rest) => NestingAlts(alts, d + 1) + Nesting(rest, d)
  }

  ghost function NestingAlts(a: Alts, d: nat): (r: seq<nat>)
    ensures |r| == CountAlts(a)
  {
    match a
    case Last(b) => [d] + Nesting(b, d)
    case More(b, rest) => [d] + Nesting(b, d) + NestingAlts(rest, d)
  }

  /** `depths` grows by one from the input of a node to its outputs. */
  ghost predicate StepsByOne(nodes: seq<Node>, depths: seq<nat>) {
    forall i: nat, l: nat :: Produces(nodes, i, l) ==>
      l < |depths| && nodes[i].input < |depths| && depths[l] == depths[nodes[i].input] + 1
  }

  lemma StepsByOneConcat(a: seq<Node>, b: seq<Node>, depths: seq<nat>)
    requires StepsByOne(a, depths) && StepsByOne(b, depths)
    ensures StepsByOne(a + b, depths)
  {
    forall i: nat, l: nat | Produces(a + b, i, l)
      ensures l < |depths| && (a + b)[i].input < |depths| && depths[l] == depths[(a + b)[i].input] + 1
    {
      assert if i < |a| then Produces(a, i, l) else Produces(b, i - |a|, l);
    }
  }

  /** `depths` agrees with `part` from position `lo` on. */
  ghost predicate AgreesAt(depths: seq<nat>, lo: nat, part: seq<nat>) {
    lo + |part| <= |depths| && depths[lo..lo + |part|] == part
  }

  lemma AgreesSplit(depths: seq<nat>, lo: nat, a: seq<nat>, b: seq<nat>)
    requires AgreesAt(depths, lo, a + b)
    ensures AgreesAt(depths, lo, a) && AgreesAt(depths, lo + |a|, b)
  {
    var part := depths[lo..lo + |a + b|];
    assert part[..|a|] == a && part[|a|..] == b;
    assert depths[lo..lo + |a|] == part[..|a|];
    assert depths[lo + |a|..lo + |a| + |b|] == part[|a|..];
  }

  lemma AgreesHead(depths: seq<nat>, lo: nat, d: nat, rest: seq<nat>)
    requires AgreesAt(depths, lo, [d] + rest)
    ensures lo < |depths| && depths[lo] == d && AgreesAt(depths, lo + 1, rest)
  {
    AgreesSplit(depths, lo, [d], rest);
    assert depths[lo] == depths[lo..lo + 1][0];
  }

  /** All labels have depth `d`. */
  ghost predicate AllAt(ls: seq<nat>, depths: seq<nat>, d: nat) {
    forall l :: l in ls ==> l < |depths| && depths[l] == d
  }

  lemma AllAtHead(l: nat, ls: seq<nat>, depths: seq<nat>, d: nat)
    requires l < |depths| && depths[l] == d && AllAt(ls, depths, d)
    ensures AllAt([l] + ls, depths, d)
  {
  }

  lemma GroupSteps(node: Node, inner: seq<Node>, after: seq<Node>, depths: seq<nat>)
    requires node.input < |depths| && AllAt(node.outputs, depths, depths[node.input] + 1)
    requires StepsByOne(inner, depths) && StepsByOne(after, depths)
    ensures StepsByOne([node] + inner + after, depths)
  {
    StepsByOneConcat([node], inner, depths);
    StepsByOneConcat([node] + inner, after, depths);
  }

  lemma {:induction false} BodySteps(b: Body, owner: nat, next: nat, depths: seq<nat>)
    requires owner < |depths| && AgreesAt(depths, next, Nesting(b, depths[owner]))
    ensures StepsByOne(Nodes(b, owner, next), depths)
    decreases b
  {
    match b
    case End =>
    case Char(_, rest) => BodySteps(rest, owner, next, depths);
    case Group(op, alts, rest) =>
      var d, mid := depths[owner], next + CountAlts(alts);
      AgreesSplit(depths, next, NestingAlts(alts, d + 1), Nesting(rest, d));
      AltsSteps(alts, next, d + 1, depths);
      BodySteps(rest, owner, mid, depths);
      GroupSteps(Node(op, owner, Outputs(alts, next)), NodesAlts(alts, next), Nodes(rest, owner, mid), depths);
  }

  lemma {:induction false} AltsSteps(a: Alts, next: nat, d: nat, depths: seq<nat>)
    requires AgreesAt(depths, next, NestingAlts(a, d))
    ensures StepsByOne(NodesAlts(a, next), depths) && AllAt(Outputs(a, next), depths, d)
    decreases a
  {
    match a
    case Last(b) =>
      AgreesHead(depths, next, d, Nesting(b, d));
      BodySteps(b, next, next + 1, depths);
    case More(b, rest) =>
      var mid := next + 1 + Count(b);
      AgreesSplit(depths, next, [d] + Nesting(b, d), NestingAlts(rest, d));
      AgreesHead(depths, next, d, Nesting(b, d));
      BodySteps(b, next, next + 1, depths);
      AltsSteps(rest, mid, d, depths);
      AllAtHead(next, Outputs(rest, mid), depths, d);
      StepsByOneConcat(Nodes(b, next, next + 1), NodesAlts(rest, mid), depths);
  }

  lemma {:induction false} DepthFollowsSteps(nodes: seq<Node>, depths: seq<nat>, l: nat)
    requires InputsFirst(nodes) && StepsByOne(nodes, depths) && l < |depths|
    requires forall m: nat :: m < |depths| && depths[m] > 0 ==> HasProducer(nodes, m)
    ensures DepthOf(nodes, l) == depths[l]
    decreases l
  {
    forall i: nat | Produces(nodes, i, l) ensures DepthOf(nodes, nodes[i].input) == depths[l] - 1 {
      DepthFollowsSteps(nodes, depths, nodes[i].input);
    }
  }

  /** The depth the tree reports for a label is the bracket nesting of the label in the prompt. */
  lemma DepthIsNesting(b: Body, l: nat)
    requires l < |TreeOf(b).labels|
    ensures InputsFirst(TreeOf(b).nodes) && DepthOf(TreeOf(b).nodes, l) == ([0] + Nesting(b, 0))[l]
  {
    var depths := [0] + Nesting(b, 0);
    TreesAreTidy(b);
    assert depths[1..1 + Count(b)] == Nesting(b, 0);
    BodySteps(b, 0, 1, depths);
    assert |depths| == |TreeOf(b).labels|;
    DepthFollowsSteps(TreeOf(b).nodes, depths, l);
  }
}
