/**
  The result of the tree predictor: the copies of an instance under its labels become one
  detection. The detections are the ids 0, 1, ... each once, their parents form a tree rooted
  at the image, and their labels are a chain of classifications that starts where they were found.
*/
module TreeDetections {
  import opened PromptTree
  import opened TreeStructure
  import opened TreePredictor
  import opened TreeDecoding

  datatype TreeDetection = TreeDetection(id: nat, parentId: int, box: Box, labels: seq<nat>, scores: seq<real>)

  /** An instance together with the label whose buffer lists it. */
  datatype Entry = Entry(number: nat, inst: Instance)

  function Tag(l: nat, b: Buffer): (es: seq<Entry>)
    ensures |es| == |b| && forall j :: 0 <= j < |b| ==> es[j] == Entry(l, b[j])
  {
    seq(|b|, j requires 0 <= j < |b| => Entry(l, b[j]))
  }

  /** All entries, in the order in which the labels got their buffers. */
  function Flat(buffers: map<nat, Buffer>, order: seq<nat>): seq<Entry>
    requires forall l :: l in order ==> l in buffers
  {
    if order == [] then [] else
      var k := |order| - 1;
      assert order[k] in order;
      Flat(buffers, order[..k]) + Tag(order[k], buffers[order[k]])
  }

  function Hits(es: seq<Entry>, id: nat): seq<Entry> {
    if es == [] then [] else
      var k := |es| - 1;
      Hits(es[..k], id) + if es[k].inst.id == id then [es[k]] else []
  }

  /** The ids in the order of their first entries. */
  function FirstSeen(es: seq<Entry>): seq<nat> {
    if es == [] then [] else
      var k := |es| - 1;
      var id := es[k].inst.id;
      FirstSeen(es[..k]) + if Hits(es[..k], id) == [] then [id] else []
  }

  /** The detection of an id: parent and box of the first entry, labels and scores of all. */
  function Summary(id: nat, hits: seq<Entry>): TreeDetection
    requires hits != []
  {
    TreeDetection(id, hits[0].inst.parent, hits[0].inst.box,
                  seq(|hits|, j requires 0 <= j < |hits| => hits[j].number),
                  seq(|hits|, j requires 0 <= j < |hits| => hits[j].inst.score))
  }

  // ---------- merging ----------

  ghost predicate Merged(es: seq<Entry>, found: map<nat, TreeDetection>, ids: seq<nat>) {
    ids == FirstSeen(es) && forall id :: MergedAt(found, id, Hits(es, id))
  }

  /** The detection of an id summarises its entries, if it has any. */
  ghost predicate MergedAt(found: map<nat, TreeDetection>, id: nat, hits: seq<Entry>) {
    (id in found <==> hits != []) && (hits != [] ==> found[id] == Summary(id, hits))
  }

  lemma HitsExtend(es: seq<Entry>, e: Entry, id: nat)
    ensures Hits(es + [e], id) == Hits(es, id) + (if e.inst.id == id then [e] else [])
    ensures FirstSeen(es + [e]) == FirstSeen(es) + (if Hits(es, e.inst.id) == [] then [e.inst.id] else [])
  {
    assert (es + [e])[..|es|] == es;
  }

  lemma SummaryExtends(id: nat, hits: seq<Entry>, e: Entry)
    ensures hits != [] ==> (
      var d := Summary(id, hits);
      Summary(id, hits + [e]) == d.(labels := d.labels + [e.number], scores := d.scores + [e.inst.score]))
    ensures Summary(id, [e]) == TreeDetection(id, e.inst.parent, e.inst.box, [e.number], [e.inst.score])
  {
  }

  /** The dictionary with one more entry recorded. */
  function Recorded(found: map<nat, TreeDetection>, e: Entry): map<nat, TreeDetection> {
    var x := e.inst;
    if x.id in found
    then found[x.id := found[x.id].(labels := found[x.id].labels + [e.number], scores := found[x.id].scores + [x.score])]
    else found[x.id := TreeDetection(x.id, x.parent, x.box, [e.number], [x.score])]
  }

  lemma RecordedAt(found: map<nat, TreeDetection>, id: nat, hits: seq<Entry>, e: Entry)
    requires MergedAt(found, id, hits)
    ensures MergedAt(Recorded(found, e), id, hits + if e.inst.id == id then [e] else [])
  {
    SummaryExtends(id, hits, e);
    if hits == [] { assert [] + [e] == [e]; }
    assert hits + [] == hits;
  }

  lemma RecordedMerges(es: seq<Entry>, found: map<nat, TreeDetection>, ids: seq<nat>, e: Entry)
    requires Merged(es, found, ids)
    ensures Merged(es + [e], Recorded(found, e), if e.inst.id in found then ids else ids + [e.inst.id])
  {
    forall id: nat ensures MergedAt(Recorded(found, e), id, Hits(es + [e], id)) {
      assert MergedAt(found, id, Hits(es, id));
      HitsExtend(es, e, id);
      RecordedAt(found, id, Hits(es, id), e);
    }
    assert MergedAt(found, e.inst.id, Hits(es, e.inst.id));
    HitsExtend(es, e, e.inst.id);
    assert ids + [] == ids;
  }

  /** Adds one entry to the dictionary of detections: a first entry creates one, a later one extends it. */
  method Record(ghost es: seq<Entry>, found: map<nat, TreeDetection>, ids: seq<nat>, l: nat, x: Instance)
    returns (found': map<nat, TreeDetection>, ids': seq<nat>)
    requires Merged(es, found, ids)
    ensures Merged(es + [Entry(l, x)], found', ids')
  {
    if x.id in found {
      var d := found[x.id];
      found' := found[x.id := d.(labels := d.labels + [l], scores := d.scores + [x.score])];
      ids' := ids;
    } else {
      found' := found[x.id := TreeDetection(x.id, x.parent, x.box, [l], [x.score])];
      ids' := ids + [x.id];
    }
    RecordedMerges(es, found, ids, Entry(l, x));
  }

  method MergeBuffer(ghost es: seq<Entry>, found: map<nat, TreeDetection>, ids: seq<nat>, l: nat, b: Buffer)
    returns (found': map<nat, TreeDetection>, ids': seq<nat>)
    requires Merged(es, found, ids)
    ensures Merged(es + Tag(l, b), found', ids')
  {
    found', ids' := found, ids;
    assert es + Tag(l, b[..0]) == es;
    for j := 0 to |b|
      invariant Merged(es + Tag(l, b[..j]), found', ids')
    {
      assert es + Tag(l, b[..j + 1]) == es + Tag(l, b[..j]) + [Entry(l, b[j])];
      found', ids' := Record(es + Tag(l, b[..j]), found', ids', l, b[j]);
    }
    assert b[..|b|] == b;
  }

  /** Merges the per-label buffers into one detection per id, in the order of first appearance. */
  method MergeDetections(p: Progress) returns (found: map<nat, TreeDetection>, ids: seq<nat>)
    requires forall l :: l in p.order ==> l in p.buffers
    ensures Merged(Flat(p.buffers, p.order), found, ids)
  {
    found, ids := map[], [];
    for k := 0 to |p.order|
      invariant Merged(Flat(p.buffers, p.order[..k]), found, ids)
    {
      ghost var es := Flat(p.buffers, p.order[..k]);
      assert p.order[k] in p.order;
      found, ids := MergeBuffer(es, found, ids, p.order[k], p.buffers[p.order[k]]);
      assert p.order[..k + 1][..k] == p.order[..k];
    }
    assert p.order[..|p.order|] == p.order;
  }

  // ---------- what the entries of an id look like ----------

  lemma {:induction false} HitsConcat(a: seq<Entry>, b: seq<Entry>, id: nat)
    ensures Hits(a + b, id) == Hits(a, id) + Hits(b, id)
    decreases |b|
  {
    if b == [] {
      assert a + b == a;
    } else {
      var k := |b| - 1;
      HitsConcat(a, b[..k], id);
      assert (a + b)[..|a| + k] == a + b[..k];
    }
  }

  lemma TagSnoc(l: nat, b: Buffer)
    requires b != []
    ensures Tag(l, b) == Tag(l, b[..|b| - 1]) + [Entry(l, b[|b| - 1])]
  {
  }

  /** Ids ascend, so the last one occurs nowhere before. */
  lemma LastIdIsNew(b: Buffer)
    requires b != [] && Ascending(b)
    ensures Ascending(b[..|b| - 1]) && !HasId(b[..|b| - 1], b[|b| - 1].id)
  {
  }

  lemma {:induction false} HitsOfTag(l: nat, b: Buffer, id: nat)
    requires Ascending(b)
    ensures !HasId(b, id) ==> Hits(Tag(l, b), id) == []
    ensures forall j :: 0 <= j < |b| && b[j].id == id ==> Hits(Tag(l, b), id) == [Entry(l, b[j])]
    decreases |b|
  {
    if b == [] {
    } else {
      var k := |b| - 1;
      var front := b[..k];
      TagSnoc(l, b);
      HitsExtend(Tag(l, front), Entry(l, b[k]), id);
      LastIdIsNew(b);
      HitsOfTag(l, front, id);
      assert forall j :: 0 <= j < k ==> front[j] == b[j];
      if b[k].id != id && HasId(front, id) {
        var j :| 0 <= j < k && front[j].id == id;
        assert b[j].id == id;
      }
    }
  }

  /** An entry of `id` under one of the labels `ls`. */
  ghost predicate IsEntry(p: Progress, ls: seq<nat>, id: nat, e: Entry) {
    e.number in ls && e.number in p.buffers && e.inst in p.buffers[e.number] && e.inst.id == id
  }

  ghost predicate Listed(hits: seq<Entry>, l: nat) {
    exists j :: 0 <= j < |hits| && hits[j].number == l
  }

  /** Entry `j` is a classification of an earlier one, with the same parent and box as the first. */
  ghost predicate ClassifiedFromEarlier(t: Tree, hits: seq<Entry>, j: nat)
    requires 0 < j < |hits|
  {
    && SameInstance(hits[j].inst, hits[0].inst)
    && exists n: nat :: ClassifiedBy(t, hits, j, n)
  }

  ghost predicate ClassifiedBy(t: Tree, hits: seq<Entry>, j: nat, n: nat)
    requires 0 < j < |hits|
  {
    Produces(t.nodes, n, hits[j].number) && t.nodes[n].op == Classify && Listed(hits[..j], t.nodes[n].input)
  }

  /** The entries of an id: first its home, then classifications of earlier entries; one per label. */
  ghost predicate IsHistory(t: Tree, p: Progress, ls: seq<nat>, id: nat, hits: seq<Entry>) {
    && (forall j :: 0 <= j < |hits| ==> IsEntry(p, ls, id, hits[j]))
    && (forall i, j :: 0 <= i < j < |hits| ==> hits[i].number != hits[j].number)
    && (forall l :: l in ls && l in p.buffers && HasId(p.buffers[l], id) ==> Listed(hits, l))
    && (hits != [] ==> IsHome(t, hits[0].number))
    && forall j :: 0 < j < |hits| ==> ClassifiedFromEarlier(t, hits, j)
  }

  lemma SameIdSameInstance(b: Buffer, x: Instance, y: Instance)
    requires Ascending(b) && x in b && y in b && x.id == y.id
    ensures x == y
  {
    var i :| 0 <= i < |b| && b[i] == x;
    var j :| 0 <= j < |b| && b[j] == y;
    assert !(i < j) && !(j < i);
  }

  /** `ls` and then `l` are the first keys. */
  ghost predicate FirstKeys(p: Progress, ls: seq<nat>, l: nat) {
    |ls| < |p.order| && l == p.order[|ls|] && forall a :: 0 <= a < |ls| ==> ls[a] == p.order[a]
  }

  lemma InputIsEarlier(t: Tree, p: Progress, w: set<nat>, ls: seq<nat>, l: nat, n: nat)
    requires KeysAre(t, p, w) && InputsComeFirst(t, p, w) && FirstKeys(p, ls, l)
    requires n in w && Produces(t.nodes, n, l)
    ensures t.nodes[n].input in ls
  {
    assert Before(p.order, t.nodes[n].input, l);
    var a, b :| 0 <= a < b < |p.order| && p.order[a] == t.nodes[n].input && p.order[b] == l;
    assert !(b < |ls|) && !(|ls| < b);
    assert ls[a] == t.nodes[n].input;
  }

  lemma ListedPrefix(hits: seq<Entry>, more: seq<Entry>, j: nat)
    requires j <= |hits|
    ensures (hits + more)[..j] == hits[..j]
  {
  }

  lemma HistoryExtends(t: Tree, p: Progress, ls: seq<nat>, id: nat, hits: seq<Entry>, e: Entry)
    requires IsHistory(t, p, ls, id, hits) && e.number !in ls && IsEntry(p, [e.number], id, e)
    requires if hits == [] then IsHome(t, e.number) else
      SameInstance(e.inst, hits[0].inst) && exists n: nat ::
        Produces(t.nodes, n, e.number) && t.nodes[n].op == Classify && Listed(hits, t.nodes[n].input)
    ensures IsHistory(t, p, ls + [e.number], id, hits + [e])
  {
    var all := hits + [e];
    forall j | 0 < j < |all| ensures ClassifiedFromEarlier(t, all, j) {
      ListedPrefix(hits, [e], j);
      if j < |hits| {
        assert ClassifiedFromEarlier(t, hits, j);
        var n: nat :| ClassifiedBy(t, hits, j, n);
        assert ClassifiedBy(t, all, j, n);
      } else {
        assert all[..j] == hits;
        var n: nat :| Produces(t.nodes, n, e.number) && t.nodes[n].op == Classify && Listed(hits, t.nodes[n].input);
        assert ClassifiedBy(t, all, j, n);
      }
    }
    forall i, j | 0 <= i < j < |all| ensures all[i].number != all[j].number {
      assert IsEntry(p, ls, id, hits[i]);
    }
    forall l | l in ls + [e.number] && l in p.buffers && HasId(p.buffers[l], id) ensures Listed(all, l) {
      if l in ls {
        var j :| 0 <= j < |hits| && hits[j].number == l;
        assert all[j].number == l;
      } else {
        assert all[|hits|].number == l;
      }
    }
    forall j | 0 <= j < |all| ensures IsEntry(p, ls + [e.number], id, all[j]) {
      if j < |hits| { assert IsEntry(p, ls, id, hits[j]); }
    }
  }

  /** What the next label contributes: a home comes first, a classified copy after its source. */
  lemma NextEntryFits(t: Tree, image: Box, p: Progress, w: set<nat>, id: nat, ls: seq<nat>, l: nat, hits: seq<Entry>,
                      x: Instance)
    requires Tidy(t) && Inv(t, image, p, w) && FirstKeys(p, ls, l) && IsHistory(t, p, ls, id, hits)
    requires l in p.buffers && x in p.buffers[l] && x.id == id
    ensures if hits == [] then IsHome(t, l) else
      SameInstance(x, hits[0].inst) && exists n: nat ::
        Produces(t.nodes, n, l) && t.nodes[n].op == Classify && Listed(hits, t.nodes[n].input)
  {
    if hits != [] {
      assert IsEntry(p, ls, id, hits[0]);
      InHasId(p.buffers[l], x);
      InHasId(p.buffers[hits[0].number], hits[0].inst);
      assert IsHomeOf(t, p, hits[0].number, id);
      NotEarlier(p, ls, l);
      assert !IsHomeOf(t, p, l, id);
    }
    if !IsHome(t, l) {
      var n :| n in w && Produces(t.nodes, n, l);
      assert t.nodes[n].op == Classify;
      InputIsEarlier(t, p, w, ls, l, n);
      var input := t.nodes[n].input;
      assert Follows(t.nodes[n].op, p.buffers[l], p.buffers[input]) && HasCopy(p.buffers[input], x);
      var y :| y in p.buffers[input] && SameInstance(x, y);
      InHasId(p.buffers[input], y);
      assert Listed(hits, input);
      var j :| 0 <= j < |hits| && hits[j].number == input;
      assert IsEntry(p, ls, id, hits[j]) && IdsBelow(p.buffers[input], p.nextId);
      SameIdSameInstance(p.buffers[input], y, hits[j].inst);
      assert j > 0 ==> ClassifiedFromEarlier(t, hits, j);
    }
  }

  lemma NotEarlier(p: Progress, ls: seq<nat>, l: nat)
    requires Distinct(p.order) && FirstKeys(p, ls, l)
    ensures l !in ls
  {
    forall a | 0 <= a < |ls| ensures ls[a] != l {
      assert p.order[a] != p.order[|ls|];
    }
  }

  lemma InHasId(b: Buffer, x: Instance)
    requires x in b
    ensures HasId(b, x.id)
  {
    var j :| 0 <= j < |b| && b[j] == x;
    assert b[j].id == x.id;
  }

  lemma HistorySkips(t: Tree, p: Progress, ls: seq<nat>, id: nat, hits: seq<Entry>, l: nat)
    requires IsHistory(t, p, ls, id, hits) && l in p.buffers && !HasId(p.buffers[l], id)
    ensures IsHistory(t, p, ls + [l], id, hits)
  {
    forall j | 0 <= j < |hits| ensures IsEntry(p, ls + [l], id, hits[j]) {
      assert IsEntry(p, ls, id, hits[j]);
    }
  }

  lemma HistoryHits(t: Tree, image: Box, p: Progress, w: set<nat>, id: nat, ls: seq<nat>, l: nat, hits: seq<Entry>,
                    x: Instance)
    requires Tidy(t) && Inv(t, image, p, w) && FirstKeys(p, ls, l) && IsHistory(t, p, ls, id, hits)
    requires l in p.buffers && x in p.buffers[l] && x.id == id
    ensures IsHistory(t, p, ls + [l], id, hits + [Entry(l, x)])
  {
    NextEntryFits(t, image, p, w, id, ls, l, hits, x);
    NotEarlier(p, ls, l);
    HistoryExtends(t, p, ls, id, hits, Entry(l, x));
  }

  /** A buffer contributes one entry to an id, or none. */
  lemma TagHits(t: Tree, p: Progress, id: nat, ls: seq<nat>, l: nat, hits: seq<Entry>, b: Buffer)
    requires Ascending(b) && (!HasId(b, id) ==> IsHistory(t, p, ls, id, hits))
    requires forall x :: x in b && x.id == id ==> IsHistory(t, p, ls, id, hits + [Entry(l, x)])
    ensures IsHistory(t, p, ls, id, hits + Hits(Tag(l, b), id))
  {
    HitsOfTag(l, b, id);
    if HasId(b, id) {
      var j :| 0 <= j < |b| && b[j].id == id;
      assert b[j] in b;
    } else {
      assert hits + [] == hits;
    }
  }

  lemma HistoryStep(t: Tree, image: Box, p: Progress, w: set<nat>, id: nat, ls: seq<nat>, l: nat, hits: seq<Entry>)
    requires Tidy(t) && Inv(t, image, p, w) && FirstKeys(p, ls, l) && l in p.buffers
    requires IsHistory(t, p, ls, id, hits)
    ensures IsHistory(t, p, ls + [l], id, hits + Hits(Tag(l, p.buffers[l]), id))
  {
    var b := p.buffers[l];
    assert IdsBelow(b, p.nextId);
    forall x | x in b && x.id == id ensures IsHistory(t, p, ls + [l], id, hits + [Entry(l, x)]) {
      HistoryHits(t, image, p, w, id, ls, l, hits, x);
    }
    if !HasId(b, id) {
      HistorySkips(t, p, ls, id, hits, l);
    }
    TagHits(t, p, id, ls + [l], l, hits, b);
  }

  lemma FlatExtends(buffers: map<nat, Buffer>, order: seq<nat>, id: nat)
    requires order != [] && forall l :: l in order ==> l in buffers
    ensures var last := |order| - 1;
      && order[last] in buffers
      && (forall l :: l in order[..last] ==> l in buffers)
      && Hits(Flat(buffers, order), id)
         == Hits(Flat(buffers, order[..last]), id) + Hits(Tag(order[last], buffers[order[last]]), id)
  {
    var last := |order| - 1;
    assert order[last] in order;
    HitsConcat(Flat(buffers, order[..last]), Tag(order[last], buffers[order[last]]), id);
  }

  lemma LastApart(ls: seq<nat>)
    requires ls != []
    ensures ls == ls[..|ls| - 1] + [ls[|ls| - 1]]
  {
  }

  lemma NothingIsHistory(t: Tree, p: Progress, id: nat)
    ensures IsHistory(t, p, [], id, [])
  {
  }

  /** The entries of one more label continue a history. */
  lemma HistoryContinues(t: Tree, image: Box, p: Progress, w: set<nat>, id: nat, ls: seq<nat>, hits: seq<Entry>,
                         all: seq<Entry>)
    requires Tidy(t) && Inv(t, image, p, w) && ls != [] && ls <= p.order && forall l :: l in ls ==> l in p.buffers
    requires IsHistory(t, p, ls[..|ls| - 1], id, hits)
    requires all == hits + Hits(Tag(ls[|ls| - 1], p.buffers[ls[|ls| - 1]]), id)
    ensures IsHistory(t, p, ls, id, all)
  {
    PrefixKeys(p, ls);
    LastApart(ls);
    HistoryStep(t, image, p, w, id, ls[..|ls| - 1], ls[|ls| - 1], hits);
  }

  lemma PrefixKeys(p: Progress, ls: seq<nat>)
    requires ls != [] && ls <= p.order
    ensures FirstKeys(p, ls[..|ls| - 1], ls[|ls| - 1])
  {
  }

  /** The entries of every id form a history. */
  lemma {:induction false} EntriesFormHistory(t: Tree, image: Box, p: Progress, w: set<nat>, id: nat, ls: seq<nat>)
    requires Tidy(t) && Inv(t, image, p, w) && ls <= p.order
    requires forall l :: l in ls ==> l in p.buffers
    ensures IsHistory(t, p, ls, id, Hits(Flat(p.buffers, ls), id))
    decreases |ls|
  {
    if ls == [] {
      NothingIsHistory(t, p, id);
    } else {
      var before := ls[..|ls| - 1];
      FlatExtends(p.buffers, ls, id);
      EntriesFormHistory(t, image, p, w, id, before);
      HistoryContinues(t, image, p, w, id, ls, Hits(Flat(p.buffers, before), id), Hits(Flat(p.buffers, ls), id));
    }
  }

  // ---------- the predictor ----------

  /** What the detections promise: the ids are 0, 1, ... without gaps, each once. */
  ghost predicate Promised(t: Tree, image: Box, found: map<nat, TreeDetection>, ids: seq<nat>) {
    && Distinct(ids) && (forall id :: id in ids <==> id in found)
    && (forall id: nat :: id in found <==> id < |ids|)
    && forall id: nat :: id in found ==> DetectionPromised(t, image, found[id], id)
  }

  ghost predicate DetectionPromised(t: Tree, image: Box, d: TreeDetection, id: nat) {
    && d.id == id && |d.labels| == |d.scores| >= 1
    && Distinct(d.labels)
    && (id == 0 ==> d.parentId == -1 && d.labels[0] == 0 && d.box == image && d.scores[0] == 1.0)
    && (id > 0 ==> 0 <= d.parentId < id && d.labels[0] != 0 && IsHome(t, d.labels[0]))
    && forall j :: 0 < j < |d.labels| ==> ClassifiesEarlier(t, d.labels, j)
  }

  /** Label `j` is a classify output of a node whose input is an earlier label of the list. */
  ghost predicate ClassifiesEarlier(t: Tree, labels: seq<nat>, j: nat)
    requires 0 < j < |labels|
  {
    exists n: nat :: Produces(t.nodes, n, labels[j]) && t.nodes[n].op == Classify && t.nodes[n].input in labels[..j]
  }

  lemma HistoryIsPromised(t: Tree, image: Box, p: Progress, w: set<nat>, id: nat, hits: seq<Entry>)
    requires Tidy(t) && Inv(t, image, p, w) && id < p.nextId && IsHistory(t, p, p.order, id, hits)
    ensures hits != [] && DetectionPromised(t, image, Summary(id, hits), id)
  {
    assert HasHome(t, p, id);
    var h :| IsHomeOf(t, p, h, id);
    assert h in p.order && Listed(hits, h);
    assert IsEntry(p, p.order, id, hits[0]);
    FirstEntryIsPromised(t, image, p, w, id, hits[0]);
    LaterLabelsClassify(t, p, id, hits);
  }

  lemma LaterLabelsClassify(t: Tree, p: Progress, id: nat, hits: seq<Entry>)
    requires hits != [] && IsHistory(t, p, p.order, id, hits)
    ensures var labels := Summary(id, hits).labels;
      forall j :: 0 < j < |labels| ==> ClassifiesEarlier(t, labels, j)
  {
    var labels := Summary(id, hits).labels;
    forall j | 0 < j < |labels| ensures ClassifiesEarlier(t, labels, j) {
      assert ClassifiedFromEarlier(t, hits, j);
      var n: nat :| ClassifiedBy(t, hits, j, n);
      var i :| 0 <= i < j && hits[..j][i].number == t.nodes[n].input;
      assert labels[..j][i] == t.nodes[n].input;
    }
  }

  /** The home of an instance: the image for id 0, a detect output for every other id. */
  lemma FirstEntryIsPromised(t: Tree, image: Box, p: Progress, w: set<nat>, id: nat, e: Entry)
    requires Tidy(t) && Inv(t, image, p, w) && id < p.nextId && IsEntry(p, p.order, id, e) && IsHome(t, e.number)
    ensures id == 0 ==> e == Entry(0, Root(image))
    ensures id > 0 ==> 0 <= e.inst.parent < id && e.number != 0
  {
    InHasId(p.buffers[e.number], e.inst);
    InHasId(p.buffers[0], Root(image));
    assert IsHomeOf(t, p, e.number, id) && IsHomeOf(t, p, 0, 0);
    if id > 0 {
      assert e.number == 0 ==> e.inst == Root(image);
      var n :| n in w && Produces(t.nodes, n, e.number);
      var k: nat :| Produces(t.nodes, k, e.number) && t.nodes[k].op == Detect;
      OnlyProducer(t, n, k, e.number);
      assert Follows(t.nodes[n].op, p.buffers[e.number], p.buffers[t.nodes[n].input]);
    }
  }

  lemma {:induction false} FirstSeenHolds(es: seq<Entry>)
    ensures Distinct(FirstSeen(es))
    ensures forall id :: id in FirstSeen(es) <==> Hits(es, id) != []
  {
    if es == [] {
    } else {
      var k := |es| - 1;
      FirstSeenHolds(es[..k]);
      var id := es[k].inst.id;
      if Hits(es[..k], id) == [] {
        DistinctConcat(FirstSeen(es[..k]), [id]);
      }
    }
  }

  lemma MergedIsPromised(t: Tree, image: Box, p: Progress, w: set<nat>, found: map<nat, TreeDetection>, ids: seq<nat>)
    requires Tidy(t) && Inv(t, image, p, w)
    requires (forall l :: l in p.order ==> l in p.buffers) && Merged(Flat(p.buffers, p.order), found, ids)
    ensures |ids| == p.nextId && Promised(t, image, found, ids)
  {
    var es := Flat(p.buffers, p.order);
    FirstSeenHolds(es);
    forall id: nat
      ensures id in found <==> id < p.nextId
      ensures id in found ==> DetectionPromised(t, image, found[id], id)
    {
      EntriesFormHistory(t, image, p, w, id, p.order);
      var hits := Hits(es, id);
      if hits != [] {
        assert IsEntry(p, p.order, id, hits[0]);
        EntryIdIsBelow(p, hits[0]);
      }
      if id < p.nextId {
        HistoryIsPromised(t, image, p, w, id, hits);
      }
    }
    DistinctNumbers(ids, p.nextId);
  }

  /** The copy `x` of label `l` is in the detection, and has the detection's box and parent. */
  ghost predicate HasCopyOf(d: TreeDetection, l: nat, x: Instance) {
    && d.id == x.id && d.parentId == x.parent && d.box == x.box && |d.labels| == |d.scores|
    && exists k :: 0 <= k < |d.labels| && d.labels[k] == l && d.scores[k] == x.score
  }

  ghost predicate CopiesAreMerged(p: Progress, found: map<nat, TreeDetection>) {
    forall l, x :: l in p.buffers && x in p.buffers[l] ==> x.id in found && HasCopyOf(found[x.id], l, x)
  }

  lemma HistoryHasCopy(t: Tree, p: Progress, id: nat, hits: seq<Entry>, l: nat, x: Instance)
    requires IsHistory(t, p, p.order, id, hits) && l in p.order && l in p.buffers && Ascending(p.buffers[l])
    requires x in p.buffers[l] && x.id == id
    ensures hits != [] && HasCopyOf(Summary(id, hits), l, x)
  {
    InHasId(p.buffers[l], x);
    assert Listed(hits, l);
    var j :| 0 <= j < |hits| && hits[j].number == l;
    assert IsEntry(p, p.order, id, hits[j]) && IsEntry(p, p.order, id, hits[0]);
    SameIdSameInstance(p.buffers[l], hits[j].inst, x);
    if j > 0 { assert ClassifiedFromEarlier(t, hits, j); }
    var d := Summary(id, hits);
    assert d.labels[j] == l && d.scores[j] == x.score;
  }

  lemma MergedHasCopies(t: Tree, image: Box, p: Progress, w: set<nat>, found: map<nat, TreeDetection>, ids: seq<nat>)
    requires Tidy(t) && Inv(t, image, p, w)
    requires (forall l :: l in p.order ==> l in p.buffers) && Merged(Flat(p.buffers, p.order), found, ids)
    ensures CopiesAreMerged(p, found)
  {
    forall l, x | l in p.buffers && x in p.buffers[l] ensures x.id in found && HasCopyOf(found[x.id], l, x) {
      EntriesFormHistory(t, image, p, w, x.id, p.order);
      assert IdsBelow(p.buffers[l], p.nextId);
      HistoryHasCopy(t, p, x.id, Hits(Flat(p.buffers, p.order), x.id), l, x);
    }
  }

  /** A list of the numbers below `n`, each once, has `n` elements. */
  lemma {:induction false} DistinctNumbers(ids: seq<nat>, n: nat)
    requires Distinct(ids) && forall id: nat :: id in ids <==> id < n
    ensures |ids| == n
    decreases n
  {
    if n == 0 {
      EmptyIff(ids);
    } else {
      assert n - 1 in ids;
      var k :| 0 <= k < |ids| && ids[k] == n - 1;
      var others := ids[..k] + ids[k + 1..];
      forall id: nat ensures id in others <==> id < n - 1 {
        WithoutOne(ids, k, id);
      }
      DistinctNumbers(others, n - 1);
    }
  }

  lemma EmptyIff(ids: seq<nat>)
    ensures ids == [] <==> forall id :: id !in ids
  {
    if ids != [] { assert ids[0] in ids; }
  }

  lemma WithoutOne(ids: seq<nat>, k: nat, id: nat)
    requires Distinct(ids) && k < |ids|
    ensures id in ids[..k] + ids[k + 1..] <==> id in ids && id != ids[k]
  {
    var others := ids[..k] + ids[k + 1..];
    if id in ids && id != ids[k] {
      var j :| 0 <= j < |ids| && ids[j] == id;
      assert others[if j < k then j else j - 1] == id;
    }
  }

  lemma EntryIdIsBelow(p: Progress, e: Entry)
    requires IdsAre(p) && e.number in p.buffers && e.inst in p.buffers[e.number]
    ensures e.inst.id < p.nextId
  {
    var b := p.buffers[e.number];
    assert IdsBelow(b, p.nextId);
    var j :| 0 <= j < |b| && b[j] == e.inst;
  }

  ghost function NumbersBelow(n: nat): (s: set<nat>)
    ensures forall l: nat :: l in s <==> l < n
  {
    if n == 0 then {} else NumbersBelow(n - 1) + {n - 1}
  }

  ghost function AllLabels(t: Tree): set<nat> {
    NumbersBelow(|t.labels|)
  }

  lemma VisitedAreLabels(t: Tree, p: Progress, w: set<nat>, done: set<nat>)
    requires Tidy(t) && KeysAre(t, p, w) && Worklist(t, p, w, done)
    ensures done <= AllLabels(t) && forall l :: l in p.queue ==> l in AllLabels(t)
  {
    forall l | l in p.buffers ensures l in AllLabels(t) {
      if l != 0 {
        var n :| n in w && Produces(t.nodes, n, l);
      }
    }
  }

  lemma TraceExtends(t: Tree, m: Models, image: Box, trace: seq<Progress>, p: Progress)
    requires Honest(t, m) && IsTrace(t, m, image, trace, p) && CanVisit(p)
    ensures IsTrace(t, m, image, trace + [Visit(t, m, p)], Visit(t, m, p))
  {
    var longer := trace + [Visit(t, m, p)];
    forall k | 0 <= k < |longer| - 1 ensures IsVisit(t, m, longer[k], longer[k + 1]) {
      if k < |trace| - 1 {
        assert IsVisit(t, m, trace[k], trace[k + 1]);
      } else {
        assert longer[k] == p && longer[k + 1] == Visit(t, m, p);
      }
    }
  }

  /** The worklist after the visits of `trace`, one for each label in `done`. */
  ghost predicate Reached(t: Tree, m: Models, image: Box, trace: seq<Progress>, p: Progress, w: set<nat>, done: set<nat>)
    requires Honest(t, m)
  {
    && Inv(t, image, p, w) && Worklist(t, p, w, done) && AllDecoded(t, m, p, w)
    && IsTrace(t, m, image, trace, p) && |trace| == |done| + 1
  }

  lemma ReachedByVisit(t: Tree, m: Models, image: Box, trace: seq<Progress>, p: Progress, w: set<nat>, done: set<nat>)
    requires Tidy(t) && Honest(t, m) && Reached(t, m, image, trace, p, w, done) && p.queue != []
    ensures CanVisit(p)
    ensures var l := p.queue[0];
      && l in AllLabels(t) - done
      && Reached(t, m, image, trace + [Visit(t, m, p)], Visit(t, m, p), w + AsSet(NodesOf(t, l)), done + {l})
  {
    VisitKeeps(t, m, image, p, w, done);
    VisitDecodes(t, m, image, p, w, done);
    VisitedAreLabels(t, p, w, done);
    TraceExtends(t, m, image, trace, p);
  }

  /**
    Runs a prompt tree on an image. Every label is visited at most once, only with a non-empty
    list of boxes, until no label with instances is left; the detections are the merged entries
    of the final state, and keep what `Promised` says.  Every copy of an instance that a label got
    is in the instance's detection, with its score, and carries the detection's box and parent id.
    The labels got exactly what the models give for the boxes of the visited labels.
  */
  method Predict(t: Tree, m: Models, image: Box)
    returns (found: map<nat, TreeDetection>, ids: seq<nat>, ghost p: Progress, ghost trace: seq<Progress>,
             ghost done: set<nat>)
    requires Tidy(t) && Honest(t, m)
    ensures Promised(t, image, found, ids)
    ensures IsTrace(t, m, image, trace, p) && p.queue == [] && |trace| == |done| + 1
    ensures forall l :: l in done <==> l in p.buffers && p.buffers[l] != []
    ensures forall l :: l in p.order ==> l in p.buffers
    ensures Merged(Flat(p.buffers, p.order), found, ids) && |ids| == p.nextId
    ensures forall id: nat :: IsHistory(t, p, p.order, id, Hits(Flat(p.buffers, p.order), id))
    ensures CopiesAreMerged(p, found)
    ensures forall n :: 0 <= n < |t.nodes| && t.nodes[n].input in done ==> Decoded(t, m, p, n)
  {
    var q := Initial(image);
    p := q;
    ghost var w: set<nat> := {};
    done := {};
    trace := [p];
    InitialInv(t, image);
    InitialWorklist(t, image);
    while q.queue != []
      invariant p == q && Reached(t, m, image, trace, p, w, done)
      decreases AllLabels(t) - done
    {
      ReachedByVisit(t, m, image, trace, q, w, done);
      ghost var l := q.queue[0];
      q := VisitLabel(t, m, q, image, w, done);
      w := w + AsSet(NodesOf(t, l));
      done := done + {l};
      p := q;
      trace := trace + [p];
    }
    found, ids := MergeDetections(q);
    MergedIsPromised(t, image, p, w, found, ids);
    forall id: nat ensures IsHistory(t, p, p.order, id, Hits(Flat(p.buffers, p.order), id)) {
      EntriesFormHistory(t, image, p, w, id, p.order);
    }
    MergedHasCopies(t, image, p, w, found, ids);
  }
}
