/**
  Frame synchronisation: a greedy merge over timestamp columns that renames
  the image files of every matched frame while it runs.

  `Greedy` is the run as a function; `GreedyIsChain` and `GreedyStaysAhead`
  say that it is the longest and the earliest chain of matched rows, and
  `SynchronizeImages` is the loop with its effect on the image directory.
*/
module FrameSync {
  import Text
  import opened Wrappers

  /** One column of stamps per topic, every column `rows` long. */
  datatype Streams = Streams(topics: seq<string>, stamps: seq<seq<int>>, rows: nat)

  /** A file of the image tree: the directory of its topic and its frame number. */
  datatype ImagePath = ImagePath(dir: string, index: nat)

  /** The content of a file: which original image it is. */
  datatype Image = Image(id: nat)

  type Files = map<ImagePath, Image>

  const PADDING: int := -1

  // ---------- the table ----------

  ghost predicate Shaped(s: Streams) {
    && |s.topics| == |s.stamps| > 0
    && forall t :: 0 <= t < |s.stamps| ==> |s.stamps[t]| == s.rows
  }

  predicate IsReal(s: Streams, t: nat, i: nat)
    requires t < |s.stamps| && i < |s.stamps[t]|
  {
    s.stamps[t][i] != PADDING
  }

  /** Real stamps are non-negative and non-decreasing, then comes only padding. */
  ghost predicate Ordered(column: seq<int>) {
    forall i, j :: 0 <= i <= j < |column| ==>
      column[j] == PADDING || 0 <= column[i] <= column[j]
  }

  /** What the extractor delivers: ordered columns, the longest of them unpadded. */
  ghost predicate Extracted(s: Streams) {
    && Shaped(s)
    && (forall t :: 0 <= t < |s.stamps| ==> Ordered(s.stamps[t]))
    && exists t :: 0 <= t < |s.stamps| && PADDING !in s.stamps[t]
  }

  /** Every real stamp is too far from the padding value to match it. */
  ghost predicate StampsClearPadding(s: Streams, threshold: int) {
    forall t, i :: 0 <= t < |s.stamps| && 0 <= i < |s.stamps[t]| && s.stamps[t][i] != PADDING ==>
      s.stamps[t][i] - PADDING >= threshold
  }

  // ---------- rows of indices ----------

  /** One row index per topic. */
  type Row = seq<nat>

  predicate InRange(s: Streams, f: Row) {
    |f| == |s.stamps| && forall t :: 0 <= t < |f| ==> f[t] < s.rows
  }

  function Front(s: Streams, f: Row): (v: seq<int>)
    requires Shaped(s) && InRange(s, f)
    ensures |v| == |f|
    ensures forall t :: 0 <= t < |f| ==> v[t] == s.stamps[t][f[t]]
  {
    seq(|f|, t requires 0 <= t < |f| => s.stamps[t][f[t]])
  }

  /** All pairs of stamps of the row are closer than the threshold. */
  ghost predicate Matches(s: Streams, threshold: int, f: Row)
    requires Shaped(s) && InRange(s, f)
  {
    forall a, b :: 0 <= a < |f| && 0 <= b < |f| ==> s.stamps[a][f[a]] - s.stamps[b][f[b]] < threshold
  }

  ghost predicate AllReal(s: Streams, f: Row)
    requires Shaped(s) && InRange(s, f)
  {
    forall t :: 0 <= t < |f| ==> IsReal(s, t, f[t])
  }

  ghost predicate AtMost(f: Row, g: Row) {
    |f| == |g| && forall t :: 0 <= t < |f| ==> f[t] <= g[t]
  }

  ghost predicate Below(f: Row, g: Row) {
    |f| == |g| && forall t :: 0 <= t < |f| ==> f[t] < g[t]
  }

  /** A candidate synchronisation: matched rows, strictly increasing in every topic. */
  ghost predicate IsChain(s: Streams, threshold: int, c: seq<Row>)
    requires Shaped(s)
  {
    && (forall k :: 0 <= k < |c| ==> InRange(s, c[k]) && Matches(s, threshold, c[k]))
    && forall j, k :: 0 <= j < k < |c| ==> Below(c[j], c[k])
  }

  ghost predicate StartsAt(c: seq<Row>, f: Row) {
    forall k :: 0 <= k < |c| ==> AtMost(f, c[k])
  }

  /** `c` is at least as long as `d`, and each of its rows comes no later. */
  ghost predicate Ahead(c: seq<Row>, d: seq<Row>) {
    |d| <= |c| && forall k :: 0 <= k < |d| ==> AtMost(c[k], d[k])
  }

  // ---------- the greedy run ----------

  /** The position of the first minimum, as numpy counts it. */
  function ArgMin(v: seq<int>): (k: nat)
    requires |v| > 0
    ensures k < |v|
    ensures forall j :: 0 <= j < |v| ==> v[k] <= v[j]
    ensures forall j :: 0 <= j < k ==> v[k] < v[j]
  {
    var last := |v| - 1;
    if last == 0 then 0 else
      var k := ArgMin(v[..last]);
      assert forall j :: 0 <= j < last ==> v[..last][j] == v[j];
      if v[last] < v[k] then last else k
  }

  /** The position of the first maximum. */
  function ArgMax(v: seq<int>): (k: nat)
    requires |v| > 0
    ensures k < |v|
    ensures forall j :: 0 <= j < |v| ==> v[j] <= v[k]
    ensures forall j :: 0 <= j < k ==> v[j] < v[k]
  {
    var last := |v| - 1;
    if last == 0 then 0 else
      var k := ArgMax(v[..last]);
      assert forall j :: 0 <= j < last ==> v[..last][j] == v[j];
      if v[last] > v[k] then last else k
  }

  function Advance(f: Row): (g: Row)
    ensures Below(f, g) && forall t :: 0 <= t < |f| ==> g[t] == f[t] + 1
  {
    seq(|f|, t requires 0 <= t < |f| => f[t] + 1)
  }

  function Start(s: Streams): (f: Row) {
    seq(|s.stamps|, _ => 0)
  }

  /** The cells not yet passed; every turn of the loop shrinks it. */
  ghost function Remaining(s: Streams, f: Row): set<(nat, nat)> {
    set t: nat, i: nat | t < |f| && f[t] <= i < s.rows :: (t, i)
  }

  lemma RemainingShrinks(s: Streams, f: Row, g: Row, t: nat)
    requires AtMost(f, g) && t < |f| && f[t] < g[t] && f[t] < s.rows
    ensures Remaining(s, g) < Remaining(s, f)
  {
    assert (t, f[t]) in Remaining(s, f) && (t, f[t]) !in Remaining(s, g);
  }

  /** The matched rows of a run and the row it stopped in front of. */
  datatype Run = Run(frames: seq<Row>, front: Row)

  /** The guard of the loop: largest minus smallest front stamp. */
  predicate Hit(s: Streams, threshold: int, f: Row)
    requires Shaped(s) && InRange(s, f)
  {
    var front := Front(s, f);
    front[ArgMax(front)] - front[ArgMin(front)] < threshold
  }

  /** The front with the topic of its smallest stamp moved on by one. */
  function SkipLowest(s: Streams, f: Row): (g: Row)
    requires Shaped(s) && InRange(s, f)
    ensures |g| == |f|
  {
    var low := ArgMin(Front(s, f));
    f[low := f[low] + 1]
  }

  lemma StepShrinks(s: Streams, f: Row)
    requires Shaped(s) && InRange(s, f)
    ensures Remaining(s, Advance(f)) < Remaining(s, f)
    ensures Remaining(s, SkipLowest(s, f)) < Remaining(s, f)
    ensures AtMost(f, SkipLowest(s, f))
  {
    RemainingShrinks(s, f, Advance(f), 0);
    RemainingShrinks(s, f, SkipLowest(s, f), ArgMin(Front(s, f)));
  }

  ghost function Greedy(s: Streams, threshold: int, f: Row): (r: Run)
    requires Shaped(s) && |f| == |s.stamps|
    decreases Remaining(s, f)
  {
    if !InRange(s, f) then Run([], f)
    else
      StepShrinks(s, f);
      if Hit(s, threshold, f) then
        var rest := Greedy(s, threshold, Advance(f));
        Run([f] + rest.frames, rest.front)
      else
        Greedy(s, threshold, SkipLowest(s, f))
  }

  lemma GuardIsMatch(s: Streams, threshold: int, f: Row)
    requires Shaped(s) && InRange(s, f)
    ensures Hit(s, threshold, f) <==> Matches(s, threshold, f)
  {
    var v := Front(s, f);
    if Hit(s, threshold, f) {
      forall a, b | 0 <= a < |f| && 0 <= b < |f|
        ensures s.stamps[a][f[a]] - s.stamps[b][f[b]] < threshold
      {
        assert v[a] <= v[ArgMax(v)] && v[ArgMin(v)] <= v[b];
      }
    }
  }

  /** Exactly when a row with padding passes the guard: the other stamps are within the threshold of -1. */
  lemma PaddingMatchesIff(s: Streams, threshold: int, f: Row, p: nat)
    requires Extracted(s) && InRange(s, f) && p < |f| && !IsReal(s, p, f[p])
    ensures Matches(s, threshold, f) <==>
      0 < threshold && forall t :: 0 <= t < |f| && IsReal(s, t, f[t]) ==> s.stamps[t][f[t]] - PADDING < threshold
  {
    if 0 < threshold && forall t :: 0 <= t < |f| && IsReal(s, t, f[t]) ==> s.stamps[t][f[t]] - PADDING < threshold {
      forall a, b | 0 <= a < |f| && 0 <= b < |f|
        ensures s.stamps[a][f[a]] - s.stamps[b][f[b]] < threshold
      {
        assert Ordered(s.stamps[a]) && Ordered(s.stamps[b]);
        assert s.stamps[b][f[b]] >= PADDING;
        assert !IsReal(s, a, f[a]) ==> s.stamps[a][f[a]] == PADDING;
      }
    }
    if Matches(s, threshold, f) {
      assert s.stamps[p][f[p]] - s.stamps[p][f[p]] < threshold;
      forall t | 0 <= t < |f| && IsReal(s, t, f[t]) ensures s.stamps[t][f[t]] - PADDING < threshold {
        assert s.stamps[t][f[t]] - s.stamps[p][f[p]] < threshold;
      }
    }
  }

  /** No padding entry is ever part of a matched row. */
  lemma MatchedRowsAreReal(s: Streams, threshold: int, f: Row)
    requires Extracted(s) && StampsClearPadding(s, threshold)
    requires InRange(s, f) && Matches(s, threshold, f)
    ensures AllReal(s, f)
  {
    var full :| 0 <= full < |s.stamps| && PADDING !in s.stamps[full];
    assert s.stamps[full][f[full]] in s.stamps[full];
    forall t | 0 <= t < |f| ensures IsReal(s, t, f[t]) {
      assert s.stamps[full][f[full]] - s.stamps[t][f[t]] < threshold;
    }
  }

  lemma AtMostTransitive(f: Row, g: Row, c: seq<Row>)
    requires AtMost(f, g) && StartsAt(c, g)
    ensures StartsAt(c, f)
  {
    forall k | 0 <= k < |c| ensures AtMost(f, c[k]) {
      assert AtMost(g, c[k]);
    }
  }

  ghost predicate AllBelow(c: seq<Row>, f: Row) {
    forall k :: 0 <= k < |c| ==> Below(c[k], f)
  }

  lemma MatchedFrontExtends(s: Streams, threshold: int, f: Row, rest: seq<Row>, front: Row)
    requires Shaped(s) && InRange(s, f) && Matches(s, threshold, f)
    requires IsChain(s, threshold, rest) && StartsAt(rest, Advance(f))
    requires AtMost(Advance(f), front) && AllBelow(rest, front)
    ensures IsChain(s, threshold, [f] + rest) && StartsAt([f] + rest, f) && AllBelow([f] + rest, front)
  {
    var all := [f] + rest;
    forall k | 0 < k < |all| ensures all[k] == rest[k - 1] && Below(f, all[k]) && Below(all[k], front) {
      assert AtMost(Advance(f), rest[k - 1]);
    }
  }

  lemma {:induction false} GreedyIsChain(s: Streams, threshold: int, f: Row)
    requires Shaped(s) && |f| == |s.stamps|
    ensures var r := Greedy(s, threshold, f);
      && IsChain(s, threshold, r.frames) && StartsAt(r.frames, f)
      && AtMost(f, r.front) && !InRange(s, r.front) && AllBelow(r.frames, r.front)
    decreases Remaining(s, f)
  {
    if !InRange(s, f) {
    } else {
      GuardIsMatch(s, threshold, f);
      StepShrinks(s, f);
      if Hit(s, threshold, f) {
        GreedyIsChain(s, threshold, Advance(f));
        var r := Greedy(s, threshold, Advance(f));
        MatchedFrontExtends(s, threshold, f, r.frames, r.front);
      } else {
        GreedyIsChain(s, threshold, SkipLowest(s, f));
        AtMostTransitive(f, SkipLowest(s, f), Greedy(s, threshold, SkipLowest(s, f)).frames);
      }
    }
  }

  /** While the front does not match, a later matched row has passed the smallest stamp. */
  lemma SpreadOnlyGrows(s: Streams, threshold: int, f: Row, g: Row)
    requires Extracted(s) && InRange(s, f) && !Hit(s, threshold, f)
    requires InRange(s, g) && AtMost(f, g) && AllReal(s, g)
    requires Matches(s, threshold, g)
    ensures AtMost(SkipLowest(s, f), g)
  {
    var low := ArgMin(Front(s, f));
    var high := ArgMax(Front(s, f));
    assert Ordered(s.stamps[high]) && IsReal(s, high, g[high]);
    assert s.stamps[high][f[high]] <= s.stamps[high][g[high]];
    assert s.stamps[high][g[high]] - s.stamps[low][g[low]] < threshold;
    assert s.stamps[low][f[low]] < s.stamps[low][g[low]];
  }

  /** A chain from `f` cannot use the smallest front stamp when the front does not match. */
  lemma SkippedEntryIsUseless(s: Streams, threshold: int, f: Row, c: seq<Row>)
    requires Extracted(s) && StampsClearPadding(s, threshold)
    requires InRange(s, f) && !Hit(s, threshold, f)
    requires IsChain(s, threshold, c) && StartsAt(c, f)
    ensures StartsAt(c, SkipLowest(s, f))
  {
    forall k | 0 <= k < |c| ensures AtMost(SkipLowest(s, f), c[k]) {
      assert InRange(s, c[k]) && Matches(s, threshold, c[k]) && AtMost(f, c[k]);
      MatchedRowsAreReal(s, threshold, c[k]);
      SpreadOnlyGrows(s, threshold, f, c[k]);
    }
  }

  lemma PrependAhead(f: Row, g: seq<Row>, c: seq<Row>)
    requires c == [] || (AtMost(f, c[0]) && Ahead(g, c[1..]))
    ensures Ahead([f] + g, c)
  {
    forall k | 0 < k < |c| ensures AtMost(([f] + g)[k], c[k]) {
      assert c[k] == c[1..][k - 1];
    }
  }

  lemma TailIsChain(s: Streams, threshold: int, f: Row, c: seq<Row>)
    requires Shaped(s) && IsChain(s, threshold, c) && StartsAt(c, f) && c != []
    ensures IsChain(s, threshold, c[1..]) && StartsAt(c[1..], Advance(f))
  {
    forall k | 0 <= k < |c[1..]| ensures AtMost(Advance(f), c[1..][k]) {
      assert Below(c[0], c[k + 1]) && AtMost(f, c[0]);
    }
  }

  /** The greedy run from `f` stays ahead of every chain from `f`. */
  lemma {:induction false} GreedyStaysAhead(s: Streams, threshold: int, f: Row, c: seq<Row>)
    requires Extracted(s) && StampsClearPadding(s, threshold)
    requires |f| == |s.stamps| && IsChain(s, threshold, c) && StartsAt(c, f)
    ensures Ahead(Greedy(s, threshold, f).frames, c)
    decreases Remaining(s, f)
  {
    if c != [] {
      assert InRange(s, c[0]) && AtMost(f, c[0]);
      assert InRange(s, f);
    }
    if !InRange(s, f) {
    } else {
      StepShrinks(s, f);
      if Hit(s, threshold, f) {
        if c != [] {
          TailIsChain(s, threshold, f, c);
          GreedyStaysAhead(s, threshold, Advance(f), c[1..]);
        }
        PrependAhead(f, Greedy(s, threshold, Advance(f)).frames, c);
      } else {
        SkippedEntryIsUseless(s, threshold, f, c);
        GreedyStaysAhead(s, threshold, SkipLowest(s, f), c);
      }
    }
  }

  ghost predicate EarliestLongest(s: Streams, threshold: int, c: seq<Row>)
    requires Shaped(s)
  {
    && IsChain(s, threshold, c)
    && forall d :: IsChain(s, threshold, d) ==> Ahead(c, d)
  }

  /** The run is the earliest longest chain of matched, padding-free rows. */
  lemma SynchronizationIsOptimal(s: Streams, threshold: int)
    requires Extracted(s) && StampsClearPadding(s, threshold)
    ensures var c := Greedy(s, threshold, Start(s)).frames;
      EarliestLongest(s, threshold, c) && forall k :: 0 <= k < |c| ==> AllReal(s, c[k])
  {
    var c := Greedy(s, threshold, Start(s)).frames;
    GreedyIsChain(s, threshold, Start(s));
    forall d | IsChain(s, threshold, d) ensures Ahead(c, d) {
      forall k | 0 <= k < |d| ensures AtMost(Start(s), d[k]) {
        assert InRange(s, d[k]);
      }
      GreedyStaysAhead(s, threshold, Start(s), d);
    }
    forall k | 0 <= k < |c| ensures AllReal(s, c[k]) {
      MatchedRowsAreReal(s, threshold, c[k]);
    }
  }

  /** There is only one earliest longest chain, so the property above fixes the run. */
  lemma EarliestLongestIsUnique(s: Streams, threshold: int, c: seq<Row>, d: seq<Row>)
    requires Shaped(s) && EarliestLongest(s, threshold, c) && EarliestLongest(s, threshold, d)
    ensures c == d
  {
    assert Ahead(c, d) && Ahead(d, c);
    forall k | 0 <= k < |c| ensures c[k] == d[k] {
      assert AtMost(c[k], d[k]) && AtMost(d[k], c[k]);
    }
  }

  // ---------- the image directory ----------

  function DropSlashes(s: string): string {
    if s != "" && s[0] == '/' then DropSlashes(s[1..]) else s
  }

  /** The directory of a topic: its name without the last component and the leading slashes. A
      name without a slash loses its last character, because the search then answers -1. */
  function TopicDir(topic: string): string {
    var cut := Text.RFind(topic, '/');
    DropSlashes(if cut == -1 then (if topic == "" then "" else topic[..|topic| - 1]) else topic[..cut])
  }

  /** `r` is `s` without the slashes at its front. */
  ghost predicate IsWithoutSlashes(r: string, s: string) {
    exists k :: 0 <= k <= |s| && r == s[k..] && (forall j :: 0 <= j < k ==> s[j] == '/') && (k == |s| || s[k] != '/')
  }

  lemma {:induction false} DropSlashesDrops(s: string)
    ensures IsWithoutSlashes(DropSlashes(s), s)
    decreases |s|
  {
    if s == "" || s[0] != '/' {
      assert DropSlashes(s) == s[0..];
    } else {
      DropSlashesDrops(s[1..]);
      var k :| 0 <= k <= |s[1..]| && DropSlashes(s[1..]) == s[1..][k..] && (forall j :: 0 <= j < k ==> s[1..][j] == '/')
        && (k == |s[1..]| || s[1..][k] != '/');
      assert s[1..][k..] == s[k + 1..];
      assert forall j :: 0 < j < k + 1 ==> s[j] == s[1..][j - 1];
    }
  }

  /** The directory of a topic is what stands in front of its last slash, without the slashes at the
      front, so that the path is relative to the image tree. */
  lemma TopicDirIsRelative(a: string, base: string)
    requires Text.Lacks(base, '/')
    ensures IsWithoutSlashes(TopicDir(a + ['/'] + base), a)
  {
    var topic := a + ['/'] + base;
    Text.RFindAt(a, '/', base);
    assert topic[..|a|] == a;
    DropSlashesDrops(a);
  }

  /** A topic without a slash loses its last character. */
  lemma TopicDirWithoutSlash(topic: string)
    requires Text.Lacks(topic, '/')
    ensures TopicDir(topic) == if topic == "" then "" else topic[..|topic| - 1]
  {
    if topic != "" {
      var front := topic[..|topic| - 1];
      assert Text.RFind(topic, '/') == -1;
      assert front == "" || front[0] == topic[0];
    }
  }

  function ImagePathOf(topic: string, index: nat): ImagePath {
    ImagePath(TopicDir(topic), index)
  }

  ghost predicate DistinctDirs(s: Streams) {
    forall t, u :: 0 <= t < u < |s.topics| ==> TopicDir(s.topics[t]) != TopicDir(s.topics[u])
  }

  function At(files: Files, dir: string, i: nat): Option<Image> {
    if ImagePath(dir, i) in files then Some(files[ImagePath(dir, i)]) else None
  }

  /** Directory `dir` after files `moved[0]`, `moved[1]`, ... became files 0, 1, ... */
  function Expected(files: Files, dir: string, moved: seq<nat>, i: nat): Option<Image> {
    if i < |moved| then At(files, dir, moved[i])
    else if i in moved then None
    else At(files, dir, i)
  }

  ghost predicate DirIs(now: Files, before: Files, dir: string, moved: seq<nat>) {
    forall i: nat :: At(now, dir, i) == Expected(before, dir, moved, i)
  }

  ghost predicate Increasing(moved: seq<nat>) {
    forall j, k :: 0 <= j < k < |moved| ==> moved[j] < moved[k]
  }

  /** What a rename does: the target takes the content and the old name is gone, unless they agree. */
  function Renamed(files: Files, from: ImagePath, to: ImagePath): Files
    requires from in files
  {
    if from == to then files else (files - {from})[to := files[from]]
  }

  lemma {:induction false} IncreasingIsAbove(moved: seq<nat>, k: nat)
    requires Increasing(moved) && k < |moved|
    ensures k <= moved[k]
  {
    if k == 0 {
    } else {
      IncreasingIsAbove(moved, k - 1);
    }
  }

  /** Renaming the next matched image to the next frame number destroys nothing still wanted. */
  lemma RenameExtends(now: Files, before: Files, dir: string, moved: seq<nat>, j: nat)
    requires DirIs(now, before, dir, moved) && Increasing(moved + [j])
    requires ImagePath(dir, j) in before
    ensures |moved| <= j && At(now, dir, j) == At(before, dir, j) != None
    ensures var after := Renamed(now, ImagePath(dir, j), ImagePath(dir, |moved|));
      && DirIs(after, before, dir, moved + [j])
      && (forall d, i: nat :: d != dir ==> At(after, d, i) == At(now, d, i))
  {
    IncreasingIsAbove(moved + [j], |moved|);
    forall k | 0 <= k < |moved| ensures moved[k] != j {
      assert (moved + [j])[k] < (moved + [j])[|moved|];
    }
    assert At(now, dir, j) == Expected(before, dir, moved, j);
    var after := Renamed(now, ImagePath(dir, j), ImagePath(dir, |moved|));
    forall i: nat ensures At(after, dir, i) == Expected(before, dir, moved + [j], i) {
      assert At(now, dir, i) == Expected(before, dir, moved, i);
      assert i in moved + [j] <==> i in moved || i == j;
    }
  }

  /** The directory on disk, changed in place. */
  class ImageStore {
    var files: Files

    constructor (files: Files)
      ensures this.files == files
    {
      this.files := files;
    }

    method Rename(from: ImagePath, to: ImagePath)
      requires from in files
      modifies this
      ensures files == Renamed(old(files), from, to)
    {
      if from != to {
        files := (files - {from})[to := files[from]];
      }
    }

    method UnlinkIfPresent(path: ImagePath)
      modifies this
      ensures files == old(files) - {path}
    {
      files := files - {path};
    }
  }

  function Column(frames: seq<Row>, t: nat): (moved: seq<nat>)
    requires forall k :: 0 <= k < |frames| ==> t < |frames[k]|
    ensures |moved| == |frames| && forall k :: 0 <= k < |frames| ==> moved[k] == frames[k][t]
  {
    seq(|frames|, k requires 0 <= k < |frames| => frames[k][t])
  }

  ghost predicate Rows(s: Streams, frames: seq<Row>) {
    forall k :: 0 <= k < |frames| ==> |frames[k]| == |s.stamps|
  }

  /** Every topic's directory holds the frames matched so far; other directories are as before. */
  ghost predicate StoreHolds(now: Files, before: Files, s: Streams, frames: seq<Row>)
    requires Shaped(s) && Rows(s, frames)
  {
    && (forall t :: 0 <= t < |s.topics| ==> DirIs(now, before, TopicDir(s.topics[t]), Column(frames, t)))
    && forall d, i: nat :: OtherDir(s, d) ==> At(now, d, i) == At(before, d, i)
  }

  ghost predicate OtherDir(s: Streams, d: string) {
    forall t :: 0 <= t < |s.topics| ==> TopicDir(s.topics[t]) != d
  }

  /** The files the extractor wrote: one for every real stamp. */
  ghost predicate ImagesPresent(files: Files, s: Streams)
    requires Shaped(s)
  {
    forall t, i: nat :: 0 <= t < |s.topics| && i < s.rows && IsReal(s, t, i) ==>
      ImagePath(TopicDir(s.topics[t]), i) in files
  }

  /** Between two renames of a row: the topics before `t` have their file, the others do not yet. */
  ghost predicate RowHalfDone(now: Files, before: Files, s: Streams, frames: seq<Row>, f: Row, t: nat)
    requires Shaped(s) && Rows(s, frames) && |f| == |s.stamps|
  {
    && (forall u :: 0 <= u < |s.topics| ==>
          DirIs(now, before, TopicDir(s.topics[u]),
                if u < t then Column(frames + [f], u) else Column(frames, u)))
    && forall d, i: nat :: OtherDir(s, d) ==> At(now, d, i) == At(before, d, i)
  }

  lemma OneMoreRename(now: Files, before: Files, s: Streams, frames: seq<Row>, f: Row, t: nat)
    requires Shaped(s) && DistinctDirs(s) && InRange(s, f) && AllReal(s, f) && ImagesPresent(before, s)
    requires Rows(s, frames) && t < |s.topics| && Increasing(Column(frames + [f], t))
    requires RowHalfDone(now, before, s, frames, f, t)
    ensures var dir := TopicDir(s.topics[t]);
      && ImagePath(dir, f[t]) in now
      && RowHalfDone(Renamed(now, ImagePath(dir, f[t]), ImagePath(dir, |frames|)), before, s, frames, f, t + 1)
  {
    var dir := TopicDir(s.topics[t]);
    assert Column(frames + [f], t) == Column(frames, t) + [f[t]];
    assert IsReal(s, t, f[t]);
    RenameExtends(now, before, dir, Column(frames, t), f[t]);
    var after := Renamed(now, ImagePath(dir, f[t]), ImagePath(dir, |frames|));
    forall u | 0 <= u < |s.topics|
      ensures DirIs(after, before, TopicDir(s.topics[u]),
                    if u < t + 1 then Column(frames + [f], u) else Column(frames, u))
    {
      if u != t {
        assert TopicDir(s.topics[u]) != dir;
        DirIsDependsOnDir(now, after, before, TopicDir(s.topics[u]),
                          if u < t then Column(frames + [f], u) else Column(frames, u));
      }
    }
  }

  lemma RowDone(now: Files, before: Files, s: Streams, frames: seq<Row>, f: Row)
    requires Shaped(s) && Rows(s, frames) && |f| == |s.stamps|
    requires RowHalfDone(now, before, s, frames, f, |s.topics|)
    ensures StoreHolds(now, before, s, frames + [f])
  {
  }

  lemma DirIsDependsOnDir(now: Files, after: Files, before: Files, dir: string, moved: seq<nat>)
    requires DirIs(now, before, dir, moved) && forall i: nat :: At(after, dir, i) == At(now, dir, i)
    ensures DirIs(after, before, dir, moved)
  {
  }

  lemma StampsExtend(s: Streams, frames: seq<Row>, f: Row, synced: seq<seq<int>>, extended: seq<seq<int>>)
    requires Shaped(s) && InRange(s, f) && StampsOf(s, frames, synced) && |extended| == |synced|
    requires forall t :: 0 <= t < |synced| ==> extended[t] == synced[t] + [s.stamps[t][f[t]]]
    ensures StampsOf(s, frames + [f], extended)
  {
    forall t, k | 0 <= t < |extended| && 0 <= k < |frames + [f]|
      ensures StampAt(s, t, (frames + [f])[k], extended[t][k])
    {
      if k < |frames| {
        assert StampAt(s, t, frames[k], synced[t][k]);
      }
    }
  }

  /** Renames the images of one matched row and appends its stamps to the output columns. */
  method RenameRow(s: Streams, store: ImageStore, f: Row, synced: seq<seq<int>>, ghost frames: seq<Row>,
                   ghost before: Files)
    returns (extended: seq<seq<int>>)
    requires Shaped(s) && DistinctDirs(s) && InRange(s, f) && AllReal(s, f) && ImagesPresent(before, s)
    requires Rows(s, frames) && (forall t :: 0 <= t < |f| ==> Increasing(Column(frames + [f], t)))
    requires StoreHolds(store.files, before, s, frames) && StampsOf(s, frames, synced)
    modifies store
    ensures StoreHolds(store.files, before, s, frames + [f])
    ensures StampsOf(s, frames + [f], extended)
  {
    extended := synced;
    var frame := |synced[0]|;
    for t := 0 to |s.topics|
      invariant |extended| == |synced|
      invariant forall u :: 0 <= u < t ==> extended[u] == synced[u] + [s.stamps[u][f[u]]]
      invariant forall u :: t <= u < |synced| ==> extended[u] == synced[u]
      invariant RowHalfDone(store.files, before, s, frames, f, t)
    {
      OneMoreRename(store.files, before, s, frames, f, t);
      store.Rename(ImagePathOf(s.topics[t], f[t]), ImagePathOf(s.topics[t], frame));
      extended := extended[t := extended[t] + [s.stamps[t][f[t]]]];
    }
    StampsExtend(s, frames, f, synced, extended);
    RowDone(store.files, before, s, frames, f);
  }

  /** The content of a topic's directory when the run is over. */
  ghost function Final(before: Files, dir: string, moved: seq<nat>, front: nat, rows: nat, i: nat): Option<Image> {
    if front <= i < rows then None else Expected(before, dir, moved, i)
  }

  lemma UnlinkIsLocal(files: Files, dir: string, i: nat)
    ensures forall d, j: nat :: At(files - {ImagePath(dir, i)}, d, j) == (if d == dir && j == i then None else At(files, d, j))
  {
  }

  /** Deletes every file from the front of each stream to the end of the table. */
  method RemoveLeftovers(s: Streams, store: ImageStore, f: Row)
    requires Shaped(s) && DistinctDirs(s) && |f| == |s.stamps|
    modifies store
    ensures forall t, i: nat :: 0 <= t < |f| ==>
      var dir := TopicDir(s.topics[t]);
      At(store.files, dir, i) == if f[t] <= i < s.rows then None else At(old(store.files), dir, i)
    ensures forall d, i: nat :: OtherDir(s, d) ==> At(store.files, d, i) == At(old(store.files), d, i)
  {
    ghost var was := store.files;
    for t := 0 to |s.topics|
      invariant forall u, i: nat :: 0 <= u < t ==>
        var dir := TopicDir(s.topics[u]);
        At(store.files, dir, i) == if f[u] <= i < s.rows then None else At(was, dir, i)
      invariant forall u, i: nat :: t <= u < |f| ==>
        At(store.files, TopicDir(s.topics[u]), i) == At(was, TopicDir(s.topics[u]), i)
      invariant forall d, i: nat :: OtherDir(s, d) ==> At(store.files, d, i) == At(was, d, i)
    {
      ghost var dir := TopicDir(s.topics[t]);
      ghost var turn := store.files;
      assert forall u :: 0 <= u < |s.topics| && u != t ==> TopicDir(s.topics[u]) != dir;
      var i := f[t];
      while i < s.rows
        invariant f[t] <= i
        invariant i <= s.rows || i == f[t]
        invariant forall j: nat :: At(store.files, dir, j) == if f[t] <= j < i then None else At(turn, dir, j)
        invariant forall d, j: nat :: d != dir ==> At(store.files, d, j) == At(turn, d, j)
      {
        UnlinkIsLocal(store.files, dir, i);
        store.UnlinkIfPresent(ImagePathOf(s.topics[t], i));
        i := i + 1;
      }
    }
  }

  /** The synced stamps belong to the matched rows. */
  ghost predicate StampsOf(s: Streams, frames: seq<Row>, synced: seq<seq<int>>)
    requires Shaped(s)
  {
    && |synced| == |s.topics|
    && (forall t :: 0 <= t < |synced| ==> |synced[t]| == |frames|)
    && forall t, k :: 0 <= t < |synced| && 0 <= k < |frames| ==> StampAt(s, t, frames[k], synced[t][k])
  }

  ghost predicate StampAt(s: Streams, t: nat, f: Row, stamp: int)
    requires Shaped(s) && t < |s.stamps|
  {
    InRange(s, f) && stamp == s.stamps[t][f[t]]
  }

  /** `frames` are the rows the run from the start has matched when its front is `f`. */
  ghost predicate Reached(s: Streams, threshold: int, frames: seq<Row>, f: Row)
    requires Shaped(s)
  {
    && |f| == |s.stamps| && Rows(s, frames) && AllBelow(frames, f)
    && (forall t :: 0 <= t < |f| ==> |frames| <= f[t])
    && (forall t :: 0 <= t < |f| ==> Increasing(Column(frames, t)))
    && var rest := Greedy(s, threshold, f);
       Greedy(s, threshold, Start(s)) == Run(frames + rest.frames, rest.front)
  }

  lemma NothingReached(s: Streams, threshold: int)
    requires Shaped(s)
    ensures Reached(s, threshold, [], Start(s))
  {
    var r := Greedy(s, threshold, Start(s));
    assert [] + r.frames == r.frames;
  }

  lemma EverythingReached(s: Streams, threshold: int, frames: seq<Row>, f: Row)
    requires Shaped(s) && Reached(s, threshold, frames, f) && !InRange(s, f)
    ensures Run(frames, f) == Greedy(s, threshold, Start(s))
  {
    assert frames + [] == frames;
  }

  lemma ColumnExtends(s: Streams, frames: seq<Row>, f: Row, t: nat)
    requires |f| == |s.stamps| && t < |f| && Rows(s, frames) && AllBelow(frames, f) && Increasing(Column(frames, t))
    ensures Increasing(Column(frames + [f], t))
  {
    assert Column(frames + [f], t) == Column(frames, t) + [f[t]];
    assert forall k :: 0 <= k < |frames| ==> Below(frames[k], f);
  }

  lemma HitReaches(s: Streams, threshold: int, frames: seq<Row>, f: Row)
    requires Shaped(s) && InRange(s, f) && Hit(s, threshold, f) && Reached(s, threshold, frames, f)
    ensures Reached(s, threshold, frames + [f], Advance(f))
  {
    var rest := Greedy(s, threshold, Advance(f));
    assert frames + ([f] + rest.frames) == (frames + [f]) + rest.frames;
    forall t | 0 <= t < |f| ensures Increasing(Column(frames + [f], t)) {
      ColumnExtends(s, frames, f, t);
    }
    forall k | 0 <= k < |frames + [f]| ensures Below((frames + [f])[k], Advance(f)) {
      assert k < |frames| ==> Below(frames[k], f);
    }
  }

  lemma SkipReaches(s: Streams, threshold: int, frames: seq<Row>, f: Row)
    requires Shaped(s) && InRange(s, f) && !Hit(s, threshold, f) && Reached(s, threshold, frames, f)
    ensures Reached(s, threshold, frames, SkipLowest(s, f))
  {
    StepShrinks(s, f);
    forall k | 0 <= k < |frames| ensures Below(frames[k], SkipLowest(s, f)) {
      assert Below(frames[k], f);
    }
  }

  /** The merge loop: matches rows and renames their images until one stream is exhausted. */
  method MatchFrames(s: Streams, store: ImageStore, threshold: int)
    returns (synced: seq<seq<int>>, frontIdx: Row, ghost frames: seq<Row>)
    requires Extracted(s) && DistinctDirs(s) && StampsClearPadding(s, threshold)
    requires ImagesPresent(store.files, s)
    modifies store
    ensures Reached(s, threshold, frames, frontIdx) && !InRange(s, frontIdx)
    ensures StampsOf(s, frames, synced)
    ensures StoreHolds(store.files, old(store.files), s, frames)
  {
    frontIdx := Start(s);
    synced := seq(|s.topics|, _ => []);
    frames := [];
    ghost var before := store.files;
    NothingReached(s, threshold);
    while InRange(s, frontIdx)
      invariant Reached(s, threshold, frames, frontIdx)
      invariant StampsOf(s, frames, synced)
      invariant StoreHolds(store.files, before, s, frames)
      decreases Remaining(s, frontIdx)
    {
      StepShrinks(s, frontIdx);
      GuardIsMatch(s, threshold, frontIdx);
      if Hit(s, threshold, frontIdx) {
        MatchedRowsAreReal(s, threshold, frontIdx);
        HitReaches(s, threshold, frames, frontIdx);
        synced := RenameRow(s, store, frontIdx, synced, frames, before);
        frames := frames + [frontIdx];
        frontIdx := Advance(frontIdx);
      } else {
        SkipReaches(s, threshold, frames, frontIdx);
        frontIdx := SkipLowest(s, frontIdx);
      }
    }
  }

  /**
    The synchroniser. `frames` lists the matched rows: the earliest longest chain. Row k of
    the output holds their stamps, file k of each topic is the image of that row, and from
    the front row on nothing is left; a skipped image between the two keeps its file.  Which
    images are left beside the frames is told from the streams and the frames by `Survives`.
  */
  method SynchronizeImages(s: Streams, store: ImageStore, threshold: int)
    returns (synced: seq<seq<int>>, ghost frames: seq<Row>, ghost front: Row)
    requires Extracted(s) && DistinctDirs(s) && StampsClearPadding(s, threshold)
    requires ImagesPresent(store.files, s)
    modifies store
    ensures EarliestLongest(s, threshold, frames)
    ensures Run(frames, front) == Greedy(s, threshold, Start(s))
    ensures |front| == |s.stamps| && Rows(s, frames) && StampsOf(s, frames, synced)
    ensures forall t, i: nat :: 0 <= t < |s.topics| ==>
      var dir := TopicDir(s.topics[t]);
      At(store.files, dir, i) == Final(old(store.files), dir, Column(frames, t), front[t], s.rows, i)
    ensures forall d, i: nat :: OtherDir(s, d) ==> At(store.files, d, i) == At(old(store.files), d, i)
    ensures ImagesAre(old(store.files), s) ==> LeftoversSurvive(s, old(store.files), store.files, frames)
  {
    ghost var before := store.files;
    var frontIdx;
    synced, frontIdx, frames := MatchFrames(s, store, threshold);
    front := frontIdx;
    EverythingReached(s, threshold, frames, front);
    SynchronizationIsOptimal(s, threshold);
    RemoveLeftovers(s, store, frontIdx);
    if ImagesAre(before, s) {
      forall t: nat, i: nat | t < |s.topics| && |frames| <= i
        ensures At(store.files, TopicDir(s.topics[t]), i) == Leftover(s, before, frames, t, i)
      {
        LeftoverIff(s, threshold, before, frames, t, i);
      }
    }
  }

  /** File k of every topic ends up as the image of row k, moved down from its own place. */
  lemma FramesEndInPlace(s: Streams, threshold: int, before: Files, t: nat, k: nat)
    requires Extracted(s) && StampsClearPadding(s, threshold) && ImagesPresent(before, s) && t < |s.stamps|
    requires k < |Greedy(s, threshold, Start(s)).frames|
    ensures var r := Greedy(s, threshold, Start(s));
      && Rows(s, r.frames) && |r.front| == |s.stamps| && k <= r.frames[k][t] < r.front[t]
      && var dir := TopicDir(s.topics[t]);
         Final(before, dir, Column(r.frames, t), r.front[t], s.rows, k) == At(before, dir, r.frames[k][t]) != None
  {
    var r := Greedy(s, threshold, Start(s));
    GreedyIsChain(s, threshold, Start(s));
    SynchronizationIsOptimal(s, threshold);
    assert forall j :: 0 <= j < |r.frames| ==> InRange(s, r.frames[j]) && Below(r.frames[j], r.front);
    ColumnIncreases(r.frames, t, |s.stamps|);
    IncreasingIsAbove(Column(r.frames, t), k);
    assert AllReal(s, r.frames[k]) && IsReal(s, t, r.frames[k][t]);
  }

  lemma ColumnIncreases(frames: seq<Row>, t: nat, n: nat)
    requires t < n && forall k :: 0 <= k < |frames| ==> |frames[k]| == n
    requires forall j, k :: 0 <= j < k < |frames| ==> Below(frames[j], frames[k])
    ensures Increasing(Column(frames, t))
  {
    var column := Column(frames, t);
    forall i, j | 0 <= i < j < |column| ensures column[i] < column[j] {
      assert Below(frames[i], frames[j]);
    }
  }

  // ---------- what the clean-up leaves ----------

  /** A directory ends with exactly the matched frames iff every other file it had lies from the front
      to the end of the table, or was a matched one. */
  lemma DirectoryIsExactIff(before: Files, dir: string, moved: seq<nat>, front: nat, rows: nat)
    requires Increasing(moved) && (forall k :: 0 <= k < |moved| ==> moved[k] < front && ImagePath(dir, moved[k]) in before)
    ensures (forall i: nat :: Final(before, dir, moved, front, rows, i) != None <==> i < |moved|) <==>
      (forall i: nat :: |moved| <= i && ImagePath(dir, i) in before ==> i in moved || front <= i < rows)
  {
    forall k | 0 <= k < |moved| ensures Final(before, dir, moved, front, rows, k) != None {
      IncreasingIsAbove(moved, k);
      assert moved[k] < front;
    }
    if forall i: nat :: Final(before, dir, moved, front, rows, i) != None <==> i < |moved| {
      forall i: nat | |moved| <= i && ImagePath(dir, i) in before ensures i in moved || front <= i < rows {
        assert Final(before, dir, moved, front, rows, i) == None;
      }
    }
  }

  /** Image (t, i) does not come after image (u, j): by stamps, then in the order of the topics. */
  ghost predicate NotAfter(s: Streams, t: nat, i: nat, u: nat, j: nat)
    requires Shaped(s) && t < |s.stamps| && i < s.rows && u < |s.stamps| && j < s.rows
  {
    s.stamps[t][i] < s.stamps[u][j] || (s.stamps[t][i] == s.stamps[u][j] && t <= u)
  }

  /** Stream `u` has an image from row `f` on that does not come before image (t, i). */
  ghost predicate Outlasts(s: Streams, f: Row, u: nat, t: nat, i: nat)
    requires Shaped(s) && t < |s.stamps| && i < s.rows
  {
    exists j: nat :: u < |f| == |s.stamps| && f[u] <= j < s.rows && IsReal(s, u, j) && NotAfter(s, t, i, u, j)
  }

  /** No stream ends, from row `f` on, before image (t, i). */
  ghost predicate AllOutlast(s: Streams, f: Row, t: nat, i: nat)
    requires Shaped(s) && t < |s.stamps| && i < s.rows
  {
    forall u: nat :: u < |s.stamps| ==> Outlasts(s, f, u, t, i)
  }

  lemma RealsComeFirst(s: Streams, u: nat, i: nat, j: nat)
    requires Extracted(s) && u < |s.stamps| && i <= j < s.rows && IsReal(s, u, j)
    ensures IsReal(s, u, i) && 0 <= s.stamps[u][i] <= s.stamps[u][j]
  {
    assert Ordered(s.stamps[u]);
  }

  /** The front moves past an image of its own lowest stamp: no stream ended before that one. */
  lemma LowestIsOutlasted(s: Streams, f: Row)
    requires Extracted(s) && InRange(s, f) && AllReal(s, f)
    ensures var low := ArgMin(Front(s, f)); AllOutlast(s, f, low, f[low])
  {
    var v := Front(s, f);
    var low := ArgMin(v);
    forall u: nat | u < |s.stamps| ensures Outlasts(s, f, u, low, f[low]) {
      assert v[low] <= v[u] && (u < low ==> v[low] < v[u]);
      assert IsReal(s, u, f[u]) && NotAfter(s, low, f[low], u, f[u]);
    }
  }

  /** Skipping the lowest stamp keeps which later images are outlasted. */
  lemma OutlastedAfterSkip(s: Streams, f: Row, t: nat, i: nat)
    requires Extracted(s) && InRange(s, f) && AllReal(s, f)
    requires t < |s.stamps| && i < s.rows && IsReal(s, t, i) && SkipLowest(s, f)[t] <= i
    ensures AllOutlast(s, f, t, i) <==> AllOutlast(s, SkipLowest(s, f), t, i)
  {
    var v := Front(s, f);
    var low, g := ArgMin(v), SkipLowest(s, f);
    if AllOutlast(s, f, t, i) {
      forall u: nat | u < |s.stamps| ensures Outlasts(s, g, u, t, i) {
        assert Outlasts(s, f, u, t, i);
        var j: nat :| f[u] <= j < s.rows && IsReal(s, u, j) && NotAfter(s, t, i, u, j);
        if u == low && j == f[low] {
          RealsComeFirst(s, t, f[t], i);
          assert v[low] <= v[t];
          assert t == low && NotAfter(s, t, i, low, i);
        } else {
          assert g[u] <= j;
        }
      }
    }
    if AllOutlast(s, g, t, i) {
      forall u: nat | u < |s.stamps| ensures Outlasts(s, f, u, t, i) {
        assert Outlasts(s, g, u, t, i);
        var j: nat :| g[u] <= j < s.rows && IsReal(s, u, j) && NotAfter(s, t, i, u, j);
        assert f[u] <= j;
      }
    }
  }

  /** A stream whose front is padding, or out of the table, outlasts nothing. */
  lemma EndedOutlastsNothing(s: Streams, f: Row, u: nat, t: nat, i: nat)
    requires Extracted(s) && |f| == |s.stamps| && u < |f| && t < |s.stamps| && i < s.rows
    requires f[u] >= s.rows || !IsReal(s, u, f[u])
    ensures !AllOutlast(s, f, t, i)
  {
    assert Ordered(s.stamps[u]);
    forall j: nat | f[u] <= j < s.rows ensures !IsReal(s, u, j) {
    }
    assert !Outlasts(s, f, u, t, i);
  }

  /**
    Where a run without matches ends: it passes exactly the images that no stream ends before.
  */
  lemma {:induction false} UnmatchedRunPasses(s: Streams, threshold: int, f: Row, t: nat, i: nat)
    requires Extracted(s) && |f| == |s.stamps| && Greedy(s, threshold, f).frames == []
    requires t < |s.stamps| && f[t] <= i < s.rows && IsReal(s, t, i)
    ensures |Greedy(s, threshold, f).front| == |s.stamps|
    ensures i < Greedy(s, threshold, f).front[t] <==> AllOutlast(s, f, t, i)
    decreases Remaining(s, f)
  {
    if !InRange(s, f) {
      var u: nat :| u < |f| && f[u] >= s.rows;
      EndedOutlastsNothing(s, f, u, t, i);
    } else {
      var low, g := ArgMin(Front(s, f)), SkipLowest(s, f);
      StepShrinks(s, f);
      GreedyIsChain(s, threshold, g);
      assert !Hit(s, threshold, f) && Greedy(s, threshold, f) == Greedy(s, threshold, g);
      if !IsReal(s, low, f[low]) {
        PaddedRunPasses(s, threshold, f, low, t, i);
      } else {
        if g[t] <= i { UnmatchedRunPasses(s, threshold, g, t, i); }
        SkipPasses(s, f, t, i, Greedy(s, threshold, g).front[t]);
      }
    }
  }

  /** One skip of a real stamp, in front of a run that ends at `front` in stream `t`. */
  lemma SkipPasses(s: Streams, f: Row, t: nat, i: nat, front: nat)
    requires Extracted(s) && InRange(s, f) && IsReal(s, ArgMin(Front(s, f)), f[ArgMin(Front(s, f))])
    requires t < |s.stamps| && f[t] <= i < s.rows && IsReal(s, t, i)
    requires SkipLowest(s, f)[t] <= front
    requires SkipLowest(s, f)[t] <= i ==> (i < front <==> AllOutlast(s, SkipLowest(s, f), t, i))
    ensures i < front <==> AllOutlast(s, f, t, i)
  {
    LowestIsReal(s, f);
    if i < SkipLowest(s, f)[t] {
      LowestIsOutlasted(s, f);
    } else {
      OutlastedAfterSkip(s, f, t, i);
    }
  }

  lemma LowestIsReal(s: Streams, f: Row)
    requires Extracted(s) && InRange(s, f) && IsReal(s, ArgMin(Front(s, f)), f[ArgMin(Front(s, f))])
    ensures AllReal(s, f)
  {
    var v := Front(s, f);
    var low := ArgMin(v);
    RealsComeFirst(s, low, f[low], f[low]);
    forall u | 0 <= u < |f| ensures IsReal(s, u, f[u]) {
      assert v[low] <= v[u];
    }
  }

  /** Once a stream has ended, only its padding is passed. */
  lemma PaddedRunPasses(s: Streams, threshold: int, f: Row, low: nat, t: nat, i: nat)
    requires Extracted(s) && InRange(s, f) && !Hit(s, threshold, f) && Greedy(s, threshold, f).frames == []
    requires low == ArgMin(Front(s, f)) && !IsReal(s, low, f[low])
    requires t < |s.stamps| && f[t] <= i < s.rows && IsReal(s, t, i)
    ensures |Greedy(s, threshold, f).front| == |s.stamps|
    ensures i >= Greedy(s, threshold, f).front[t] && !AllOutlast(s, f, t, i)
    decreases Remaining(s, f), 0
  {
    EndedOutlastsNothing(s, f, low, t, i);
    var g := SkipLowest(s, f);
    StepShrinks(s, f);
    if t == low { RealsComeFirst(s, t, f[t], i); }
    if g[low] < s.rows && IsReal(s, low, g[low]) { RealsComeFirst(s, low, f[low], g[low]); }
    EndedOutlastsNothing(s, g, low, t, i);
    UnmatchedRunPasses(s, threshold, g, t, i);
  }

  /** The row from which a run that starts at `f` goes on without matches: the one after its last match. */
  function AfterLast(f: Row, c: seq<Row>): Row {
    if c == [] then f else Advance(c[|c| - 1])
  }

  lemma AfterFirst(f: Row, c: seq<Row>)
    ensures AfterLast(f, [f] + c) == AfterLast(Advance(f), c)
  {
  }

  lemma {:induction false} RunAfterLast(s: Streams, threshold: int, f: Row)
    requires Shaped(s) && |f| == |s.stamps|
    ensures var r := Greedy(s, threshold, f);
      |AfterLast(f, r.frames)| == |s.stamps| && Greedy(s, threshold, AfterLast(f, r.frames)) == Run([], r.front)
    decreases Remaining(s, f)
  {
    if !InRange(s, f) {
    } else {
      StepShrinks(s, f);
      if Hit(s, threshold, f) {
        RunAfterLast(s, threshold, Advance(f));
        AfterFirst(f, Greedy(s, threshold, Advance(f)).frames);
      } else {
        RunAfterLast(s, threshold, SkipLowest(s, f));
        SkipUnmatched(s, threshold, f);
      }
    }
  }

  /** A skip that is not followed by a match leads to a run without matches. */
  lemma SkipUnmatched(s: Streams, threshold: int, f: Row)
    requires Shaped(s) && InRange(s, f) && !Hit(s, threshold, f)
    ensures Greedy(s, threshold, f) == Greedy(s, threshold, SkipLowest(s, f))
  {
    StepShrinks(s, f);
  }

  /** Every topic's directory holds the images of its real stamps and nothing else. */
  ghost predicate ImagesAre(files: Files, s: Streams)
    requires Shaped(s)
  {
    forall t, i: nat :: 0 <= t < |s.topics| ==>
      (ImagePath(TopicDir(s.topics[t]), i) in files <==> i < s.rows && IsReal(s, t, i))
  }

  /**
    A skipped image with a number that is not below the frame count, which the clean-up does not
    reach: it comes before the last match, or no stream ends before it after the last match.
  */
  ghost predicate Survives(s: Streams, c: seq<Row>, t: nat, i: nat)
    requires Shaped(s) && Rows(s, c) && t < |s.stamps|
  {
    && |c| <= i < s.rows && IsReal(s, t, i) && i !in Column(c, t)
    && (i < AfterLast(Start(s), c)[t] || AllOutlast(s, AfterLast(Start(s), c), t, i))
  }

  ghost function Leftover(s: Streams, before: Files, c: seq<Row>, t: nat, i: nat): Option<Image>
    requires Shaped(s) && Rows(s, c) && t < |s.stamps|
  {
    if Survives(s, c, t, i) then At(before, TopicDir(s.topics[t]), i) else None
  }

  /** Beside the frames the topics' directories hold exactly the images that survive, under their own numbers. */
  ghost predicate LeftoversSurvive(s: Streams, before: Files, after: Files, c: seq<Row>)
    requires Shaped(s) && Rows(s, c)
  {
    forall t: nat, i: nat :: t < |s.topics| && |c| <= i ==>
      At(after, TopicDir(s.topics[t]), i) == Leftover(s, before, c, t, i)
  }

  lemma ChainHasRows(s: Streams, threshold: int, c: seq<Row>)
    requires Shaped(s) && IsChain(s, threshold, c)
    ensures Rows(s, c)
  {
    forall k | 0 <= k < |c| ensures |c[k]| == |s.stamps| {
      assert InRange(s, c[k]);
    }
  }

  /** Which images the run has passed when it ends, told from the streams and the frames. */
  lemma FrontPassesIff(s: Streams, threshold: int, t: nat, i: nat)
    requires Extracted(s) && t < |s.stamps| && i < s.rows && IsReal(s, t, i)
    ensures var r := Greedy(s, threshold, Start(s));
      var after := AfterLast(Start(s), r.frames);
      && |r.front| == |after| == |s.stamps|
      && (i < r.front[t] <==> i < after[t] || AllOutlast(s, after, t, i))
  {
    var r := Greedy(s, threshold, Start(s));
    var after := AfterLast(Start(s), r.frames);
    RunAfterLast(s, threshold, Start(s));
    GreedyIsChain(s, threshold, after);
    if i >= after[t] {
      UnmatchedRunPasses(s, threshold, after, t, i);
    }
  }

  /** The run's frames are the earliest longest chain, and its front lies inside the table. */
  lemma RunIsChain(s: Streams, threshold: int, c: seq<Row>)
    requires Extracted(s) && StampsClearPadding(s, threshold) && EarliestLongest(s, threshold, c)
    ensures Rows(s, c)
    ensures var r := Greedy(s, threshold, Start(s)); r.frames == c && |r.front| == |s.stamps|
  {
    ChainHasRows(s, threshold, c);
    SynchronizationIsOptimal(s, threshold);
    EarliestLongestIsUnique(s, threshold, Greedy(s, threshold, Start(s)).frames, c);
    GreedyIsChain(s, threshold, Start(s));
  }

  /**
    What the clean-up leaves beside the frames, told from the streams and their earliest longest
    chain: exactly the images that survive, each under its own number.
  */
  lemma LeftoverIff(s: Streams, threshold: int, before: Files, c: seq<Row>, t: nat, i: nat)
    requires Extracted(s) && StampsClearPadding(s, threshold) && ImagesAre(before, s)
    requires EarliestLongest(s, threshold, c) && t < |s.stamps| && |c| <= i
    ensures Rows(s, c)
    ensures var r := Greedy(s, threshold, Start(s));
      var dir := TopicDir(s.topics[t]);
      && r.frames == c && |r.front| == |s.stamps|
      && Final(before, dir, Column(c, t), r.front[t], s.rows, i) == Leftover(s, before, c, t, i)
  {
    RunIsChain(s, threshold, c);
    if i < s.rows && IsReal(s, t, i) {
      FrontPassesIff(s, threshold, t, i);
    }
  }

  /** A topic's directory ends with exactly the matched frames if and only if none of its images survives. */
  lemma TopicIsExactIff(s: Streams, threshold: int, before: Files, c: seq<Row>, t: nat)
    requires Extracted(s) && StampsClearPadding(s, threshold) && ImagesAre(before, s)
    requires EarliestLongest(s, threshold, c) && t < |s.stamps|
    ensures Rows(s, c)
    ensures var r := Greedy(s, threshold, Start(s));
      var dir := TopicDir(s.topics[t]);
      && r.frames == c && |r.front| == |s.stamps|
      && ((forall i: nat :: Final(before, dir, Column(c, t), r.front[t], s.rows, i) != None <==> i < |c|) <==>
          (forall i: nat :: !Survives(s, c, t, i)))
  {
    var r := Greedy(s, threshold, Start(s));
    var dir := TopicDir(s.topics[t]);
    LeftoverIff(s, threshold, before, c, t, |c|);
    forall i: nat
      ensures i < |c| ==> Final(before, dir, Column(c, t), r.front[t], s.rows, i) != None
      ensures i >= |c| ==> (Final(before, dir, Column(c, t), r.front[t], s.rows, i) != None <==> Survives(s, c, t, i))
    {
      if i < |c| {
        FramesEndInPlace(s, threshold, before, t, i);
      } else {
        LeftoverIff(s, threshold, before, c, t, i);
      }
    }
  }

  lemma DemoSkip(s: Streams, i: nat, rest: Run)
    requires |s.topics| == 2 && Shaped(s) && i < s.rows
    requires s.stamps[0][i] + 10 <= s.stamps[1][0] && Greedy(s, 10, [i + 1, 0]) == rest
    ensures Greedy(s, 10, [i, 0]) == rest
  {
    var f := [i, 0];
    var v := Front(s, f);
    assert v == [s.stamps[0][i], s.stamps[1][0]];
    FirstOfTwo(v);
    assert !Hit(s, 10, f);
    assert SkipLowest(s, f) == [i + 1, 0];
  }

  lemma FirstOfTwo(v: seq<int>)
    requires |v| == 2 && v[0] + 10 <= v[1]
    ensures ArgMin(v) == 0 && ArgMax(v) == 1
  {
  }

  lemma DemoHit(s: Streams)
    requires |s.topics| == 2 && Shaped(s) && s.rows == 3 && s.stamps[0][2] == s.stamps[1][0]
    ensures Greedy(s, 10, [2, 0]) == Run([[2, 0]], [3, 1])
  {
    assert Advance([2, 0]) == [3, 1];
    GuardIsMatch(s, 10, [2, 0]);
    assert !InRange(s, [3, 1]);
  }

  lemma DemoMiddle(s: Streams)
    requires |s.topics| == 2 && Shaped(s) && s.rows == 3
    requires s.stamps[0][1] + 10 <= s.stamps[1][0] && s.stamps[0][2] == s.stamps[1][0]
    ensures Greedy(s, 10, [1, 0]) == Run([[2, 0]], [3, 1])
  {
    DemoHit(s);
    DemoSkip(s, 1, Run([[2, 0]], [3, 1]));
  }

  lemma DemoRun(s: Streams)
    requires |s.topics| == 2 && Shaped(s) && s.rows == 3
    requires s.stamps[0][0] + 10 <= s.stamps[1][0] && s.stamps[0][1] + 10 <= s.stamps[1][0]
    requires s.stamps[0][2] == s.stamps[1][0]
    ensures Greedy(s, 10, Start(s)) == Run([[2, 0]], [3, 1])
  {
    DemoMiddle(s);
    DemoSkip(s, 0, Run([[2, 0]], [3, 1]));
    assert Start(s) == [0, 0];
  }

  lemma SkippedFileStays(before: Files, dir: string, moved: seq<nat>)
    requires moved == [2] && ImagePath(dir, 1) in before
    ensures Final(before, dir, moved, 3, 3, 1) == At(before, dir, 1) != None
  {
  }

  /** A skipped image can survive: image 1 of the first stream does, whenever the first two images
      of that stream come too early for the second stream and the third one matches its first. */
  lemma SkippedImageSurvives(s: Streams, before: Files)
    requires Extracted(s) && DistinctDirs(s) && ImagesPresent(before, s)
    requires |s.topics| == 2 && s.rows == 3 && IsReal(s, 0, 1)
    requires s.stamps[0][0] + 10 <= s.stamps[1][0] && s.stamps[0][1] + 10 <= s.stamps[1][0]
    requires s.stamps[0][2] == s.stamps[1][0]
    ensures var r := Greedy(s, 10, Start(s));
      var dir := TopicDir(s.topics[0]);
      && r == Run([[2, 0]], [3, 1])
      && Final(before, dir, Column(r.frames, 0), r.front[0], s.rows, 1) == At(before, dir, 1) != None
  {
    DemoRun(s);
    SkippedFileStays(before, TopicDir(s.topics[0]), Column([[2, 0]], 0));
  }
}
