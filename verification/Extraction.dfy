/**
  Parallel image extraction: one producer, several consumers, a bounded queue and a shutdown
  event, as a protocol whose steps interleave in any order; then the padding of the time stamp
  columns that the synchroniser reads.
*/
module Extraction {
  import FrameSync
  import opened Wrappers

  /** A bag message; `decodes` is false for the packets whose decoding error is skipped. */
  datatype Message = Message(topic: nat, stamp: int, decodes: bool)

  datatype Frame = Frame(topic: nat, index: nat)

  /** `late` records whether the event was already set when the queue was found empty. */
  datatype Consumer = Waiting | Saving(frame: Frame) | SawEmpty(late: bool) | Stopped(late: bool)

  datatype Config = Config(topics: nat, messages: seq<Message>, workers: nat)

  ghost predicate ValidConfig(c: Config) {
    c.workers >= 2 && forall k :: 0 <= k < |c.messages| ==> c.messages[k].topic < c.topics
  }

  /** The number of threads: as many as asked for, twice the CPUs for -1, and never fewer than two. */
  function Workers(requested: int, cpus: nat): (n: nat)
    ensures requested >= 2 ==> n == requested
    ensures requested == -1 && cpus > 0 ==> n == 2 * cpus
    ensures requested < 2 && (requested != -1 || cpus == 0) ==> n == 2
  {
    var n := if requested == -1 then 2 * cpus else requested;
    if n < 2 then 2 else n
  }

  /** `stamps` has a list per topic; `hand` is the frame the producer is trying to put; `put`
      and `saved` are the frames put and written so far, in order. */
  datatype State = State(next: nat, stamps: seq<seq<int>>, hand: Option<Frame>, queue: seq<Frame>, shutdown: bool,
                         consumers: seq<Consumer>, put: seq<Frame>, saved: seq<Frame>)

  function Initial(c: Config): State
    requires c.workers >= 2
  {
    State(0, seq(c.topics, _ => []), None, [], false, seq(c.workers - 1, _ => Waiting), [], [])
  }

  /** One atomic step: of the producer, or of the consumer with the given number. */
  datatype Action = Take | Put | Finish | Get(i: nat) | TimeOut(i: nat) | Save(i: nat) | Check(i: nat)

  predicate Enabled(c: Config, s: State, a: Action) {
    match a
    case Take => s.hand == None && s.next < |c.messages| && c.messages[s.next].topic < |s.stamps|
    case Put => s.hand.Some? && |s.queue| < 2 * c.workers
    case Finish => s.hand == None && s.next == |c.messages| && !s.shutdown
    case Get(i) => i < |s.consumers| && s.consumers[i] == Waiting && s.queue != []
    case TimeOut(i) => i < |s.consumers| && s.consumers[i] == Waiting && s.queue == []
    case Save(i) => i < |s.consumers| && s.consumers[i].Saving?
    case Check(i) => i < |s.consumers| && s.consumers[i].SawEmpty?
  }

  function Do(c: Config, s: State, a: Action): State
    requires Enabled(c, s, a)
  {
    match a
    case Take =>
      var m := c.messages[s.next];
      if !m.decodes then s.(next := s.next + 1)
      else
        var column := s.stamps[m.topic];
        s.(next := s.next + 1, stamps := s.stamps[m.topic := column + [m.stamp]], hand := Some(Frame(m.topic, |column|)))
    case Put => s.(hand := None, queue := s.queue + [s.hand.value], put := s.put + [s.hand.value])
    case Finish => s.(shutdown := true)
    case Get(i) => s.(queue := s.queue[1..], consumers := s.consumers[i := Saving(s.queue[0])])
    case TimeOut(i) => s.(consumers := s.consumers[i := SawEmpty(s.shutdown)])
    case Save(i) => s.(saved := s.saved + [s.consumers[i].frame], consumers := s.consumers[i := Waiting])
    case Check(i) =>
      s.(consumers := s.consumers[i := if s.shutdown then Stopped(s.consumers[i].late) else Waiting])
  }

  /** The state after an interleaving, if every step of it was possible. */
  function Exec(c: Config, actions: seq<Action>): Option<State>
    requires c.workers >= 2
  {
    if actions == [] then Some(Initial(c)) else
      var last := |actions| - 1;
      match Exec(c, actions[..last])
      case None => None
      case Some(s) => if Enabled(c, s, actions[last]) then Some(Do(c, s, actions[last])) else None
  }

  // ---------- counting frames ----------

  function Count(s: seq<Frame>, f: Frame): nat {
    if s == [] then 0 else Count(s[..|s| - 1], f) + if s[|s| - 1] == f then 1 else 0
  }

  lemma CountSnoc(s: seq<Frame>, x: Frame, f: Frame)
    ensures Count(s + [x], f) == Count(s, f) + (if x == f then 1 else 0)
  {
    assert (s + [x])[..|s|] == s;
  }

  lemma {:induction false} CountHead(s: seq<Frame>, f: Frame)
    requires s != []
    ensures Count(s, f) == Count(s[1..], f) + (if s[0] == f then 1 else 0)
    decreases |s|
  {
    var last := |s| - 1;
    if last > 0 {
      CountHead(s[..last], f);
      assert s[..last][1..] == s[1..][..last - 1];
    } else {
      assert s[..last] == [] && s[1..] == [];
    }
  }

  lemma {:induction false} CountIsMembership(s: seq<Frame>, f: Frame)
    ensures Count(s, f) > 0 <==> f in s
    decreases |s|
  {
    if s == [] {
    } else {
      CountIsMembership(s[..|s| - 1], f);
      assert s == s[..|s| - 1] + [s[|s| - 1]];
    }
  }

  /** The number of consumers that hold frame `f`. */
  function Held(cs: seq<Consumer>, f: Frame): nat {
    if cs == [] then 0 else Held(cs[..|cs| - 1], f) + if cs[|cs| - 1] == Saving(f) then 1 else 0
  }

  lemma {:induction false} HeldUpdate(cs: seq<Consumer>, i: nat, x: Consumer, f: Frame)
    requires i < |cs|
    ensures Held(cs[i := x], f) + (if cs[i] == Saving(f) then 1 else 0)
         == Held(cs, f) + (if x == Saving(f) then 1 else 0)
    decreases |cs|
  {
    var last := |cs| - 1;
    if i < last {
      HeldUpdate(cs[..last], i, x, f);
      assert cs[i := x][..last] == cs[..last][i := x];
    } else {
      assert cs[i := x][..last] == cs[..last];
    }
  }

  lemma {:induction false} NobodyHolds(cs: seq<Consumer>, f: Frame)
    requires forall i :: 0 <= i < |cs| ==> !cs[i].Saving?
    ensures Held(cs, f) == 0
    decreases |cs|
  {
    if cs == [] {
    } else {
      NobodyHolds(cs[..|cs| - 1], f);
    }
  }

  // ---------- the invariant ----------

  /** The stamps of the decodable messages of a topic, in order. */
  function StampsOf(ms: seq<Message>, t: nat): seq<int> {
    if ms == [] then [] else
      var m := ms[|ms| - 1];
      StampsOf(ms[..|ms| - 1], t) + if m.topic == t && m.decodes then [m.stamp] else []
  }

  ghost predicate StampsAre(c: Config, s: State) {
    && |s.stamps| == c.topics && s.next <= |c.messages|
    && forall t :: 0 <= t < |s.stamps| ==> s.stamps[t] == StampsOf(c.messages[..s.next], t)
  }

  /** Whether the frame has a stamp: frame numbers of a topic are 0, 1, ... without gaps. */
  ghost predicate Numbered(s: State, f: Frame) {
    f.topic < |s.stamps| && f.index < |s.stamps[f.topic]|
  }

  /** Every numbered frame was put exactly once or is in the producer's hand, and no other was. */
  ghost predicate PutOnce(s: State) {
    forall f :: Count(s.put, f) + (if s.hand == Some(f) then 1 else 0) == if Numbered(s, f) then 1 else 0
  }

  /** Nothing is lost or duplicated on the way: what was put is queued, held or saved. */
  ghost predicate Conserved(s: State) {
    forall f :: Count(s.put, f) == Count(s.queue, f) + Held(s.consumers, f) + Count(s.saved, f)
  }

  /** The queue holds the frames put last, in that order, and never more than its size. */
  ghost predicate QueueIsSuffix(c: Config, s: State) {
    |s.queue| <= 2 * c.workers && |s.queue| <= |s.put| && s.queue == s.put[|s.put| - |s.queue|..]
  }

  ghost predicate ShutdownIsLast(c: Config, s: State) {
    && (s.shutdown ==> s.next == |c.messages| && s.hand == None)
    && (forall i :: 0 <= i < |s.consumers| && s.consumers[i].Stopped? ==> s.shutdown)
    && forall i :: 0 <= i < |s.consumers| && SawLate(s.consumers[i]) ==> s.shutdown && s.queue == []
  }

  /** The consumer found the queue empty after the event was set. */
  predicate SawLate(x: Consumer) {
    x == SawEmpty(true) || x == Stopped(true)
  }

  ghost predicate Inv(c: Config, s: State) {
    && StampsAre(c, s) && PutOnce(s) && Conserved(s) && QueueIsSuffix(c, s) && ShutdownIsLast(c, s)
    && |s.consumers| == c.workers - 1
  }

  lemma StepKeepsStamps(c: Config, s: State, a: Action)
    requires ValidConfig(c) && StampsAre(c, s) && Enabled(c, s, a)
    ensures StampsAre(c, Do(c, s, a))
  {
    if a == Take {
      assert c.messages[..s.next + 1][..s.next] == c.messages[..s.next];
      assert forall t: nat :: StampsOf(c.messages[..s.next], t) + [] == StampsOf(c.messages[..s.next], t);
    }
  }

  ghost predicate PutOnceFor(s: State, f: Frame) {
    Count(s.put, f) + (if s.hand == Some(f) then 1 else 0) == if Numbered(s, f) then 1 else 0
  }

  lemma StepKeepsPutOnceFor(c: Config, s: State, a: Action, f: Frame)
    requires PutOnceFor(s, f) && Enabled(c, s, a)
    ensures PutOnceFor(Do(c, s, a), f)
  {
    match a
    case Take => TakeNumbers(c, s, f);
    case Put => CountSnoc(s.put, s.hand.value, f);
    case Finish =>
    case Get(_) =>
    case TimeOut(_) =>
    case Save(_) =>
    case Check(_) =>
  }

  /** Taking a message numbers exactly the frame that is then in the producer's hand. */
  lemma TakeNumbers(c: Config, s: State, f: Frame)
    requires Enabled(c, s, Take)
    ensures var n := Do(c, s, Take);
      n.put == s.put && (Numbered(n, f) <==> Numbered(s, f) || n.hand == Some(f)) && (Numbered(s, f) ==> n.hand != Some(f))
  {
  }

  lemma StepKeepsPutOnce(c: Config, s: State, a: Action)
    requires PutOnce(s) && Enabled(c, s, a)
    ensures PutOnce(Do(c, s, a))
  {
    forall f ensures PutOnceFor(Do(c, s, a), f) {
      assert PutOnceFor(s, f);
      StepKeepsPutOnceFor(c, s, a, f);
    }
  }

  lemma StepKeepsConserved(c: Config, s: State, a: Action)
    requires Conserved(s) && Enabled(c, s, a)
    ensures Conserved(Do(c, s, a))
  {
    var n := Do(c, s, a);
    forall f ensures Count(n.put, f) == Count(n.queue, f) + Held(n.consumers, f) + Count(n.saved, f) {
      assert Count(s.put, f) == Count(s.queue, f) + Held(s.consumers, f) + Count(s.saved, f);
      match a
      case Take =>
      case Put =>
        CountSnoc(s.put, s.hand.value, f);
        CountSnoc(s.queue, s.hand.value, f);
      case Finish =>
      case Get(i) =>
        CountHead(s.queue, f);
        HeldUpdate(s.consumers, i, n.consumers[i], f);
      case TimeOut(i) => HeldUpdate(s.consumers, i, n.consumers[i], f);
      case Save(i) =>
        CountSnoc(s.saved, s.consumers[i].frame, f);
        HeldUpdate(s.consumers, i, n.consumers[i], f);
      case Check(i) => HeldUpdate(s.consumers, i, n.consumers[i], f);
    }
  }

  lemma StepKeepsQueue(c: Config, s: State, a: Action)
    requires QueueIsSuffix(c, s) && Enabled(c, s, a)
    ensures QueueIsSuffix(c, Do(c, s, a))
  {
    if a == Put {
      assert (s.put + [s.hand.value])[|s.put| - |s.queue|..] == s.queue + [s.hand.value];
    } else if a.Get? {
      assert s.queue[1..] == s.put[|s.put| - |s.queue[1..]|..];
    }
  }

  lemma StepKeepsShutdown(c: Config, s: State, a: Action)
    requires ShutdownIsLast(c, s) && Enabled(c, s, a)
    ensures ShutdownIsLast(c, Do(c, s, a))
  {
  }

  lemma StepKeepsInv(c: Config, s: State, a: Action)
    requires ValidConfig(c) && Inv(c, s) && Enabled(c, s, a)
    ensures Inv(c, Do(c, s, a))
  {
    StepKeepsStamps(c, s, a);
    StepKeepsPutOnce(c, s, a);
    StepKeepsConserved(c, s, a);
    StepKeepsQueue(c, s, a);
    StepKeepsShutdown(c, s, a);
  }

  lemma InitialInv(c: Config)
    requires ValidConfig(c)
    ensures Inv(c, Initial(c))
  {
    var s := Initial(c);
    assert c.messages[..0] == [];
    forall f ensures Held(s.consumers, f) == 0 { NobodyHolds(s.consumers, f); }
  }

  /** Every interleaving keeps the invariant. */
  lemma {:induction false} EveryRunKeepsInv(c: Config, actions: seq<Action>)
    requires ValidConfig(c) && Exec(c, actions).Some?
    ensures Inv(c, Exec(c, actions).value)
    decreases |actions|
  {
    if actions == [] {
      InitialInv(c);
    } else {
      var last := |actions| - 1;
      EveryRunKeepsInv(c, actions[..last]);
      StepKeepsInv(c, Exec(c, actions[..last]).value, actions[last]);
    }
  }

  // ---------- what a finished extraction has written ----------

  ghost predicate AllStopped(s: State) {
    forall i :: 0 <= i < |s.consumers| ==> s.consumers[i].Stopped?
  }

  /** Each frame with a stamp is saved exactly once, and nothing else is. */
  ghost predicate AllSaved(s: State) {
    forall f :: Count(s.saved, f) == if Numbered(s, f) then 1 else 0
  }

  /** When all consumers have stopped, the lost frames are the frames still in the queue: the ones put last. */
  lemma LostFramesAreTheQueue(c: Config, actions: seq<Action>)
    requires ValidConfig(c) && Exec(c, actions).Some? && AllStopped(Exec(c, actions).value)
    ensures var s := Exec(c, actions).value;
      && (forall f :: Count(s.saved, f) + Count(s.queue, f) == if Numbered(s, f) then 1 else 0)
      && QueueIsSuffix(c, s)
      && (AllSaved(s) <==> s.queue == [])
  {
    EveryRunKeepsInv(c, actions);
    var s := Exec(c, actions).value;
    assert s.consumers[0].Stopped?;
    forall f ensures Count(s.saved, f) + Count(s.queue, f) == if Numbered(s, f) then 1 else 0 {
      NobodyHolds(s.consumers, f);
      assert Count(s.put, f) + 0 == if Numbered(s, f) then 1 else 0;
    }
    if s.queue != [] {
      CountIsMembership(s.queue, s.queue[0]);
      assert Count(s.saved, s.queue[0]) == 0 && Numbered(s, s.queue[0]);
    }
  }

  /** Some consumer found the queue empty, and nothing was put after that. */
  ghost predicate LooksAfterLastPut(actions: seq<Action>) {
    exists k :: IsLastLook(actions, k)
  }

  ghost predicate IsLastLook(actions: seq<Action>, k: int) {
    0 <= k < |actions| && actions[k].TimeOut? && forall j :: k < j < |actions| ==> actions[j] != Put
  }

  lemma LookExtends(actions: seq<Action>, a: Action)
    ensures LooksAfterLastPut(actions + [a]) <==> a.TimeOut? || (a != Put && LooksAfterLastPut(actions))
  {
    var more := actions + [a];
    forall k ensures IsLastLook(more, k) <==> (k == |actions| && a.TimeOut?) || (a != Put && IsLastLook(actions, k)) {
      assert forall j :: 0 <= j < |actions| ==> more[j] == actions[j];
      assert more[|actions|] == a;
    }
    if a.TimeOut? { assert IsLastLook(more, |actions|); }
  }

  ghost predicate SomeoneWorks(s: State) {
    exists i :: Works(s, i)
  }

  ghost predicate Works(s: State, i: int) {
    0 <= i < |s.consumers| && (s.consumers[i] == Waiting || s.consumers[i].Saving?)
  }

  /** What a look at the empty queue after the last put means for the state, and what its absence means. */
  ghost predicate LookTells(s: State, looked: bool) {
    && (looked ==> s.queue == [])
    && (s.queue == [] ==> looked || SomeoneWorks(s))
    && forall i :: 0 <= i < |s.consumers| && SawLate(s.consumers[i]) ==> looked
  }

  lemma StepKeepsLook(c: Config, s: State, a: Action, looked: bool)
    requires Enabled(c, s, a) && ShutdownIsLast(c, s) && LookTells(s, looked)
    ensures LookTells(Do(c, s, a), a.TimeOut? || (a != Put && looked))
  {
    var n := Do(c, s, a);
    if a.Get? || a.Save? {
      assert Works(n, a.i);
    } else if SomeoneWorks(s) && !a.TimeOut? {
      var i :| Works(s, i);
      assert Works(n, i);
    }
  }

  lemma {:induction false} EveryRunKeepsLook(c: Config, actions: seq<Action>)
    requires ValidConfig(c) && Exec(c, actions).Some?
    ensures LookTells(Exec(c, actions).value, LooksAfterLastPut(actions))
    decreases |actions|
  {
    if actions == [] {
      assert Works(Initial(c), 0);
    } else {
      var last := |actions| - 1;
      EveryRunKeepsLook(c, actions[..last]);
      EveryRunKeepsInv(c, actions[..last]);
      StepKeepsLook(c, Exec(c, actions[..last]).value, actions[last], LooksAfterLastPut(actions[..last]));
      LookExtends(actions[..last], actions[last]);
      assert actions == actions[..last] + [actions[last]];
    }
  }

  /**
    Once all consumers have stopped, the stamps are those of all decodable messages, and every frame
    is saved exactly when some consumer looked at the empty queue after the producer's last put.
  */
  lemma CompleteIff(c: Config, actions: seq<Action>)
    requires ValidConfig(c) && Exec(c, actions).Some? && AllStopped(Exec(c, actions).value)
    ensures var s := Exec(c, actions).value;
      && (AllSaved(s) <==> LooksAfterLastPut(actions))
      && |s.stamps| == c.topics && forall t :: 0 <= t < |s.stamps| ==> s.stamps[t] == StampsOf(c.messages, t)
  {
    EveryRunKeepsInv(c, actions);
    EveryRunKeepsLook(c, actions);
    LostFramesAreTheQueue(c, actions);
    var s := Exec(c, actions).value;
    assert s.consumers[0].Stopped?;
    assert c.messages[..s.next] == c.messages;
  }

  /** In particular every frame is saved when some consumer stopped on an empty queue that it found
      after the shutdown event was set. */
  lemma LateStopMeansComplete(c: Config, actions: seq<Action>, i: nat)
    requires ValidConfig(c) && Exec(c, actions).Some? && AllStopped(Exec(c, actions).value)
    requires i < |Exec(c, actions).value.consumers| && Exec(c, actions).value.consumers[i] == Stopped(true)
    ensures LooksAfterLastPut(actions) && AllSaved(Exec(c, actions).value)
  {
    CompleteIff(c, actions);
    EveryRunKeepsLook(c, actions);
    assert SawLate(Exec(c, actions).value.consumers[i]);
  }

  /** Without that condition a frame can be lost: the only consumer looks at the empty queue,
      the producer puts its frame and sets the event, and then the consumer sees the event. */
  lemma EarlyEmptyLosesFrame()
    ensures var c := Config(1, [Message(0, 7, true)], 2);
      var run := Exec(c, [TimeOut(0), Take, Put, Finish, Check(0)]);
      && ValidConfig(c) && run.Some? && AllStopped(run.value)
      && run.value.put == [Frame(0, 0)] && run.value.saved == [] && !AllSaved(run.value)
  {
    var c := Config(1, [Message(0, 7, true)], 2);
    var s0 := Initial(c);
    assert s0.consumers == [Waiting];
    var a := [TimeOut(0), Take, Put, Finish, Check(0)];
    assert a[..4] == [TimeOut(0), Take, Put, Finish];
    assert a[..4][..3] == [TimeOut(0), Take, Put];
    assert a[..4][..3][..2] == [TimeOut(0), Take];
    assert a[..4][..3][..2][..1] == [TimeOut(0)];
    assert a[..4][..3][..2][..1][..0] == [];
    var s1 := Do(c, s0, TimeOut(0));
    assert Exec(c, [TimeOut(0)]) == Some(s1);
    var s2 := Do(c, s1, Take);
    assert Exec(c, [TimeOut(0), Take]) == Some(s2);
    var s3 := Do(c, s2, Put);
    assert Exec(c, [TimeOut(0), Take, Put]) == Some(s3);
    var s4 := Do(c, s3, Finish);
    assert Exec(c, [TimeOut(0), Take, Put, Finish]) == Some(s4);
    assert Count([], Frame(0, 0)) == 0;
    assert s4.stamps[0] == [7];
    assert Numbered(s4, Frame(0, 0));
  }

  /** A full queue never blocks the producer for good: until shutdown some step other than a
      time-out is possible. */
  lemma ProducerIsNeverStuck(c: Config, actions: seq<Action>)
    requires ValidConfig(c) && Exec(c, actions).Some? && !Exec(c, actions).value.shutdown
    ensures exists a: Action :: !a.TimeOut? && Enabled(c, Exec(c, actions).value, a)
  {
    EveryRunKeepsInv(c, actions);
    var s := Exec(c, actions).value;
    if s.hand == None {
      assert Enabled(c, s, if s.next < |c.messages| then Take else Finish);
    } else if |s.queue| < 2 * c.workers {
      assert Enabled(c, s, Put);
    } else {
      assert !s.consumers[0].Stopped?;
      assert Enabled(c, s, match s.consumers[0] case Waiting => Get(0) case Saving(_) => Save(0) case _ => Check(0));
    }
  }

  // ---------- the table of time stamps ----------

  function Longest(columns: seq<seq<int>>): (n: nat)
    ensures forall t :: 0 <= t < |columns| ==> |columns[t]| <= n
    ensures columns != [] ==> exists t :: 0 <= t < |columns| && |columns[t]| == n
  {
    if columns == [] then 0 else
      var last := |columns| - 1;
      var n := Longest(columns[..last]);
      assert forall t :: 0 <= t < last ==> columns[..last][t] == columns[t];
      if last == 0 || |columns[last]| > n then |columns[last]| else n
  }

  /** The columns filled up with padding to the length of the longest. */
  ghost predicate IsPadded(columns: seq<seq<int>>, padded: seq<seq<int>>) {
    && |padded| == |columns|
    && (forall t :: 0 <= t < |columns| ==> columns[t] <= padded[t] && |padded[t]| == Longest(columns))
    && forall t, i :: 0 <= t < |columns| && |columns[t]| <= i < |padded[t]| ==> padded[t][i] == FrameSync.PADDING
  }

  /** Appends -1 to every list until all are as long as the longest. */
  method PadColumns(columns: seq<seq<int>>) returns (padded: seq<seq<int>>)
    requires columns != []
    ensures IsPadded(columns, padded)
  {
    var maxLen := Longest(columns);
    padded := columns;
    for t := 0 to |columns|
      invariant |padded| == |columns|
      invariant forall u :: 0 <= u < t ==> columns[u] <= padded[u] && |padded[u]| == maxLen
      invariant forall u, i :: 0 <= u < t && |columns[u]| <= i < |padded[u]| ==> padded[u][i] == FrameSync.PADDING
      invariant forall u :: t <= u < |columns| ==> padded[u] == columns[u]
    {
      var padding := seq(maxLen - |columns[t]|, _ => FrameSync.PADDING);
      padded := padded[t := columns[t] + padding];
    }
  }

  ghost predicate IsClock(column: seq<int>) {
    forall i, j :: 0 <= i <= j < |column| ==> 0 <= column[i] <= column[j]
  }

  /** The padded table of non-decreasing clocks is what the synchroniser expects, and the frames
      with a stamp are exactly its unpadded cells. */
  lemma PaddedTableIsExtracted(topics: seq<string>, columns: seq<seq<int>>, padded: seq<seq<int>>)
    requires |topics| == |columns| > 0 && IsPadded(columns, padded)
    requires forall t :: 0 <= t < |columns| ==> IsClock(columns[t])
    ensures var table := FrameSync.Streams(topics, padded, Longest(columns));
      && FrameSync.Extracted(table)
      && forall t, i: nat :: 0 <= t < |padded| && i < |padded[t]| ==>
           (FrameSync.IsReal(table, t, i) <==> i < |columns[t]|)
  {
    var table := FrameSync.Streams(topics, padded, Longest(columns));
    forall t, i: nat | 0 <= t < |padded| && i < |padded[t]|
      ensures FrameSync.IsReal(table, t, i) <==> i < |columns[t]|
    {
      if i < |columns[t]| {
        assert IsClock(columns[t]) && padded[t][i] == columns[t][i];
      }
    }
    var full :| 0 <= full < |columns| && |columns[full]| == Longest(columns);
    forall i | 0 <= i < |padded[full]| ensures padded[full][i] != FrameSync.PADDING {
      assert FrameSync.IsReal(table, full, i);
    }
    forall t | 0 <= t < |padded| ensures FrameSync.Ordered(padded[t]) {
      forall i, j | 0 <= i <= j < |padded[t]|
        ensures padded[t][j] == FrameSync.PADDING || 0 <= padded[t][i] <= padded[t][j]
      {
        assert IsClock(columns[t]);
        if j < |columns[t]| {
          assert padded[t][i] == columns[t][i] && padded[t][j] == columns[t][j];
        }
      }
    }
  }

  /** A complete extraction has written the image files that the synchroniser renames. */
  lemma SavedFramesFeedSynchronizer(s: State, topics: seq<string>, padded: seq<seq<int>>, files: FrameSync.Files)
    requires AllSaved(s) && |topics| == |s.stamps| > 0 && IsPadded(s.stamps, padded)
    requires forall t :: 0 <= t < |s.stamps| ==> IsClock(s.stamps[t])
    requires forall f :: f in s.saved && f.topic < |topics| ==> FrameSync.ImagePathOf(topics[f.topic], f.index) in files
    ensures var table := FrameSync.Streams(topics, padded, Longest(s.stamps));
      FrameSync.Extracted(table) && FrameSync.ImagesPresent(files, table)
  {
    PaddedTableIsExtracted(topics, s.stamps, padded);
    var table := FrameSync.Streams(topics, padded, Longest(s.stamps));
    forall t, i: nat | 0 <= t < |topics| && i < table.rows && FrameSync.IsReal(table, t, i)
      ensures FrameSync.ImagePath(FrameSync.TopicDir(topics[t]), i) in files
    {
      assert Numbered(s, Frame(t, i));
      assert Count(s.saved, Frame(t, i)) == 1;
      CountIsMembership(s.saved, Frame(t, i));
      assert FrameSync.ImagePathOf(topics[t], i) in files;
    }
  }
}
