/**
  What a scene manager's run decides and publishes, told from the trace alone: where the phases
  begin, the confidences that count, the mode that is locked, and the queries that are sent.
*/
module SceneDecision {
  import DetectionText
  import Text
  import opened SceneManager
  import opened Wrappers

  // ---------- scores ----------

  /** An entry counts with its confidence exactly when its label is in the set. */
  lemma SumOne(e: DetectionText.Sighting, labels: set<string>)
    ensures e.name in labels ==> Sum([e], labels) == e.confidence
    ensures e.name !in labels ==> Sum([e], labels) == 0.0
  {
    assert [e][..0] == [];
  }

  /** The entries of two lists count as those of one. */
  lemma {:induction false} SumConcat(a: seq<DetectionText.Sighting>, b: seq<DetectionText.Sighting>, labels: set<string>)
    ensures Sum([], labels) == 0.0
    ensures Sum(a + b, labels) == Sum(a, labels) + Sum(b, labels)
    decreases |b|
  {
    if b == [] {
      assert a + b == a;
    } else {
      var front := b[..|b| - 1];
      SumConcat(a, front, labels);
      assert (a + b)[..|a + b| - 1] == a + front;
    }
  }

  /** What the messages of a stretch add up to for a set of labels. */
  ghost function Added(num: DetectionText.NumberReader, labels: set<string>, events: seq<Event>): real {
    if events == [] then 0.0 else
      var last := |events| - 1;
      Added(num, labels, events[..last]) +
      if events[last].Message? then Sum(DetectionText.SceneReads(num, events[last].text), labels) else 0.0
  }

  lemma {:induction false} AddedCons(num: DetectionText.NumberReader, labels: set<string>, events: seq<Event>)
    requires events != []
    ensures Added(num, labels, events) == Added(num, labels, events[..1]) + Added(num, labels, events[1..])
    decreases |events|
  {
    var last := |events| - 1;
    if last == 0 {
      assert events[..1] == events && events[1..] == [];
    } else {
      AddedCons(num, labels, events[..last]);
      assert events[..last][..1] == events[..1] && events[..last][1..] == events[1..][..last - 1];
    }
  }

  /** The score of the indoor probe is over the indoor labels, that of the outdoor probe over the outdoor ones. */
  lemma {:induction false} ScoreIsAdded(c: Config, events: seq<Event>)
    ensures Score(c, Indoor, events) == Added(c.num, c.indoorLabels, events)
    ensures Score(c, Outdoor, events) == Added(c.num, c.outdoorLabels, events)
    decreases |events|
  {
    if events == [] {
    } else {
      ScoreIsAdded(c, events[1..]);
      AddedCons(c.num, c.indoorLabels, events);
      AddedCons(c.num, c.outdoorLabels, events);
      assert events[..1][..0] == [];
    }
  }

  // ---------- the locked mode ----------

  /** Event `k` is the first from `from` on that is a tick at least `wait` after `base`. */
  ghost predicate EndsFirst(events: seq<Event>, from: int, k: int, base: real, wait: real) {
    && 0 <= from <= k < |events| && events[k].Tick? && events[k].now - base >= wait
    && forall j :: from <= j < k && events[j].Tick? ==> events[j].now - base < wait
  }

  /** The startup ends at event `i`, the indoor probe at `j`, the outdoor probe at `k`. */
  ghost predicate PhasesEnd(c: Config, t0: real, events: seq<Event>, i: int, j: int, k: int) {
    && EndsFirst(events, 0, i, t0, c.startupDelay)
    && EndsFirst(events, i + 1, j, events[i].later, c.probeDuration)
    && EndsFirst(events, j + 1, k, events[j].later, c.probeDuration)
  }

  lemma FirstEndIs(events: seq<Event>, from: nat, base: real, wait: real)
    requires from <= |events|
    ensures var k := FirstEnd(events[from..], base, wait);
      if from + k < |events| then EndsFirst(events, from, from + k, base, wait)
      else from + k == |events| && forall j :: !EndsFirst(events, from, j, base, wait)
  {
    var rest := events[from..];
    var k := FirstEnd(rest, base, wait);
    forall j | from <= j < from + k && events[j].Tick? ensures events[j].now - base < wait {
      assert !Ends(rest[j - from], base, wait);
    }
    if from + k < |events| { assert Ends(rest[k], base, wait); }
  }

  lemma FirstEndIsUnique(events: seq<Event>, from: int, j: int, k: int, base: real, wait: real)
    requires EndsFirst(events, from, j, base, wait) && EndsFirst(events, from, k, base, wait)
    ensures j == k
  {
  }

  ghost predicate ProbesEnd(c: Config, base: real, events: seq<Event>, from: int, j: int, k: int) {
    && EndsFirst(events, from, j, base, c.probeDuration)
    && EndsFirst(events, j + 1, k, events[j].later, c.probeDuration)
  }

  /** The first end that the decision looks for is the one that the trace has. */
  lemma FirstEndAt(events: seq<Event>, from: nat, k: nat, base: real, wait: real)
    requires from <= |events| && EndsFirst(events, from, k, base, wait)
    ensures FirstEnd(events[from..], base, wait) == k - from
  {
    FirstEndIs(events, from, base, wait);
    FirstEndIsUnique(events, from, from + FirstEnd(events[from..], base, wait), k, base, wait);
  }

  lemma FirstEndOf(events: seq<Event>, k: nat, base: real, wait: real)
    requires EndsFirst(events, 0, k, base, wait)
    ensures FirstEnd(events, base, wait) == k
  {
    assert events[0..] == events;
    FirstEndAt(events, 0, k, base, wait);
  }

  lemma Stretch(events: seq<Event>, from: nat, k: nat)
    requires from <= k < |events|
    ensures var rest := events[from..];
      rest[..k - from] == events[from..k] && rest[k - from] == events[k] && rest[k - from + 1..] == events[k + 1..]
  {
  }

  lemma OutdoorFrom(c: Config, base: real, indoor: real, rest: seq<Event>, k: nat)
    requires FirstEnd(rest, base, c.probeDuration) == k < |rest|
    ensures OutdoorOutcome(c, base, indoor, rest) == Decided(Choose(c, indoor, Score(c, Outdoor, rest[..k])))
  {
  }

  lemma OutdoorOutcomeAt(c: Config, base: real, indoor: real, events: seq<Event>, from: nat, k: nat)
    requires from <= |events| && EndsFirst(events, from, k, base, c.probeDuration)
    ensures OutdoorOutcome(c, base, indoor, events[from..])
      == Decided(Choose(c, indoor, Score(c, Outdoor, events[from..k])))
  {
    FirstEndAt(events, from, k, base, c.probeDuration);
    Stretch(events, from, k);
    OutdoorFrom(c, base, indoor, events[from..], k - from);
  }

  lemma OutdoorDecides(c: Config, base: real, indoor: real, events: seq<Event>, from: nat, k: nat)
    requires from <= |events| && EndsFirst(events, from, k, base, c.probeDuration)
    ensures var r := OutdoorOutcome(c, base, indoor, events[from..]);
      r.Decided? && IsChoice(c, r.mode, indoor, Added(c.num, c.outdoorLabels, events[from..k]))
  {
    OutdoorOutcomeAt(c, base, indoor, events, from, k);
    ScoreIsAdded(c, events[from..k]);
    ChooseIsChoice(c, indoor, Score(c, Outdoor, events[from..k]));
  }

  lemma IndoorFrom(c: Config, base: real, rest: seq<Event>, j: nat)
    requires FirstEnd(rest, base, c.probeDuration) == j < |rest|
    ensures IndoorOutcome(c, base, rest) == OutdoorOutcome(c, rest[j].later, Score(c, Indoor, rest[..j]), rest[j + 1..])
  {
  }

  lemma IndoorOutcomeAt(c: Config, base: real, events: seq<Event>, from: nat, j: nat)
    requires from <= |events| && EndsFirst(events, from, j, base, c.probeDuration)
    ensures IndoorOutcome(c, base, events[from..])
      == OutdoorOutcome(c, events[j].later, Score(c, Indoor, events[from..j]), events[j + 1..])
  {
    FirstEndAt(events, from, j, base, c.probeDuration);
    Stretch(events, from, j);
    IndoorFrom(c, base, events[from..], j - from);
  }

  lemma OutcomeAt(c: Config, t0: real, events: seq<Event>, i: nat)
    requires EndsFirst(events, 0, i, t0, c.startupDelay)
    ensures Outcome(c, t0, events) == IndoorOutcome(c, events[i].later, events[i + 1..])
  {
    FirstEndOf(events, i, t0, c.startupDelay);
  }

  lemma IndoorDecides(c: Config, base: real, events: seq<Event>, from: nat, j: nat, k: nat)
    requires from <= |events| && ProbesEnd(c, base, events, from, j, k)
    ensures var r := IndoorOutcome(c, base, events[from..]);
      r.Decided? && IsChoice(c, r.mode, Added(c.num, c.indoorLabels, events[from..j]),
                             Added(c.num, c.outdoorLabels, events[j + 1..k]))
  {
    IndoorOutcomeAt(c, base, events, from, j);
    ScoreIsAdded(c, events[from..j]);
    OutdoorDecides(c, events[j].later, Score(c, Indoor, events[from..j]), events, j + 1, k);
  }

  lemma TraceDecides(c: Config, t0: real, events: seq<Event>, i: nat, j: nat, k: nat)
    requires PhasesEnd(c, t0, events, i, j, k)
    ensures var r := Outcome(c, t0, events);
      r.Decided? && IsChoice(c, r.mode, Added(c.num, c.indoorLabels, events[i + 1..j]),
                             Added(c.num, c.outdoorLabels, events[j + 1..k]))
  {
    OutcomeAt(c, t0, events, i);
    IndoorDecides(c, events[i].later, events, i + 1, j, k);
  }

  lemma OutdoorHasEnd(c: Config, base: real, indoor: real, events: seq<Event>, from: nat) returns (k: nat)
    requires from <= |events| && OutdoorOutcome(c, base, indoor, events[from..]).Decided?
    ensures EndsFirst(events, from, k, base, c.probeDuration)
  {
    FirstEndIs(events, from, base, c.probeDuration);
    k := from + FirstEnd(events[from..], base, c.probeDuration);
  }

  lemma IndoorHasEnd(c: Config, base: real, events: seq<Event>, from: nat) returns (j: nat)
    requires from <= |events| && IndoorOutcome(c, base, events[from..]).Decided?
    ensures EndsFirst(events, from, j, base, c.probeDuration)
    ensures OutdoorOutcome(c, events[j].later, Score(c, Indoor, events[from..j]), events[j + 1..]).Decided?
  {
    FirstEndIs(events, from, base, c.probeDuration);
    j := from + FirstEnd(events[from..], base, c.probeDuration);
    Stretch(events, from, j);
  }

  lemma ProbesHaveEnds(c: Config, base: real, events: seq<Event>, from: nat) returns (j: nat, k: nat)
    requires from <= |events| && IndoorOutcome(c, base, events[from..]).Decided?
    ensures ProbesEnd(c, base, events, from, j, k)
  {
    j := IndoorHasEnd(c, base, events, from);
    k := OutdoorHasEnd(c, events[j].later, Score(c, Indoor, events[from..j]), events, j + 1);
  }

  /** A decision has the three ticks behind it. */
  lemma DecisionHasEnds(c: Config, t0: real, events: seq<Event>) returns (i: nat, j: nat, k: nat)
    requires Outcome(c, t0, events).Decided?
    ensures PhasesEnd(c, t0, events, i, j, k)
  {
    assert events[0..] == events;
    FirstEndIs(events, 0, t0, c.startupDelay);
    i := FirstEnd(events, t0, c.startupDelay);
    j, k := ProbesHaveEnds(c, events[i].later, events, i + 1);
  }

  /**
    A run locks a mode exactly when its trace has the three ticks that end the phases.  The mode is
    the default when the confidences of the indoor labels during the indoor probe and of the outdoor
    labels during the outdoor probe are closer than the margin, and else that of the larger sum.
  */
  lemma LockedModeIsChoice(c: Config, t0: real, events: seq<Event>)
    ensures var locked := Run(c, Initial(t0), events).locked;
      && (locked.Some? <==> exists i: nat, j: nat, k: nat :: PhasesEnd(c, t0, events, i, j, k))
      && forall i: nat, j: nat, k: nat :: PhasesEnd(c, t0, events, i, j, k) ==>
           locked.Some? && IsChoice(c, locked.value, Added(c.num, c.indoorLabels, events[i + 1..j]),
                                    Added(c.num, c.outdoorLabels, events[j + 1..k]))
  {
    RunMatchesOutcome(c, t0, events);
    StaysConsistent(c, Initial(t0), events);
    forall i: nat, j: nat, k: nat | PhasesEnd(c, t0, events, i, j, k)
      ensures var r := Outcome(c, t0, events);
        r.Decided? && IsChoice(c, r.mode, Added(c.num, c.indoorLabels, events[i + 1..j]),
                               Added(c.num, c.outdoorLabels, events[j + 1..k]))
    {
      TraceDecides(c, t0, events, i, j, k);
    }
    if Outcome(c, t0, events).Decided? {
      var i, j, k := DecisionHasEnds(c, t0, events);
    }
  }

  lemma {:induction false} StaysConsistent(c: Config, s: State, events: seq<Event>)
    requires Consistent(s)
    ensures Consistent(Run(c, s, events))
    decreases |events|
  {
    if events == [] {
    } else {
      PhasesAdvanceInOrder(c, s, events[0]);
      StaysConsistent(c, Step(c, s, events[0]), events[1..]);
    }
  }

  // ---------- what is published ----------

  /** The query published last, if any. */
  ghost function LastQuery(sent: seq<Publication>): Option<Publication> {
    if sent == [] then None
    else if sent[|sent| - 1].SceneMode? then LastQuery(sent[..|sent| - 1])
    else Some(sent[|sent| - 1])
  }

  /** The query in force is the one of the phase, and a locked mode has been announced. */
  ghost predicate Announced(s: State) {
    match s.phase
    case Startup => LastQuery(s.sent) == None
    case Probe(mode) => LastQuery(s.sent) == Some(ProbeQuery(mode))
    case Locked => s.locked.Some? && LastQuery(s.sent) == Some(FinalQuery(s.locked.value)) && SceneMode(s.locked.value) in s.sent
  }

  lemma LastQuerySnoc(sent: seq<Publication>, p: Publication)
    ensures LastQuery(sent + [p]) == if p.SceneMode? then LastQuery(sent) else Some(p)
  {
    assert (sent + [p])[..|sent|] == sent;
  }

  lemma PublishTells(s: State, p: Publication, at: real)
    ensures var n := Publish(s, p, at);
      && LastQuery(n.sent) == (if p.SceneMode? then LastQuery(s.sent) else Some(p))
      && p in n.sent && (forall q :: q in s.sent ==> q in n.sent)
      && n.phase == s.phase && n.locked == s.locked
  {
    LastQuerySnoc(s.sent, p);
  }

  lemma LockAnnounces(s: State, mode: Mode, at: real)
    ensures Announced(Lock(s, mode, at)) && Lock(s, mode, at).locked == Some(mode)
  {
    var locked := s.(locked := Some(mode), phase := Locked, startedAt := at, lastPublish := None);
    PublishTells(locked, SceneMode(mode), at);
    PublishTells(Publish(locked, SceneMode(mode), at), FinalQuery(mode), at);
  }

  lemma StartProbeAnnounces(s: State, mode: Mode, at: real)
    ensures Announced(StartProbe(s, mode, at)) && StartProbe(s, mode, at).phase == Probe(mode)
  {
    PublishTells(s.(phase := Probe(mode), startedAt := at, lastPublish := None), ProbeQuery(mode), at);
  }

  lemma StepAnnounces(c: Config, s: State, e: Event)
    requires Consistent(s) && Announced(s)
    ensures Announced(Step(c, s, e))
  {
    if e.Tick? {
      match s.phase
      case Startup => StartProbeAnnounces(s, Indoor, e.later);
      case Probe(mode) =>
        PublishTells(s, ProbeQuery(mode), e.later);
        var p := if ShouldPublish(s, e.now, c.probePeriod) then Publish(s, ProbeQuery(mode), e.later) else s;
        StartProbeAnnounces(p, Outdoor, e.later);
        LockAnnounces(p, Choose(c, p.indoorScore, p.outdoorScore), e.later);
      case Locked =>
        PublishTells(s, FinalQuery(s.locked.value), e.later);
        PublishTells(Publish(s, FinalQuery(s.locked.value), e.later), SceneMode(s.locked.value), e.later);
    }
  }

  /** In every run, from the start or from a given scene, the query published last is that of the phase,
      and a locked mode has been published. */
  lemma {:induction false} RunAnnounces(c: Config, s: State, events: seq<Event>)
    requires Consistent(s) && Announced(s)
    ensures Announced(Run(c, s, events))
    decreases |events|
  {
    if events == [] {
    } else {
      StepAnnounces(c, s, events[0]);
      PhasesAdvanceInOrder(c, s, events[0]);
      RunAnnounces(c, Step(c, s, events[0]), events[1..]);
    }
  }

  /** The states that runs begin with. */
  lemma BeginningsAnnounce(t0: real, mode: Mode)
    ensures Consistent(Initial(t0)) && Announced(Initial(t0))
    ensures Consistent(Lock(Initial(t0), mode, t0)) && Announced(Lock(Initial(t0), mode, t0))
  {
    LockAnnounces(Initial(t0), mode, t0);
  }

  /** How long the query of a phase is left before it is published again. */
  ghost function PeriodOf(c: Config, p: Phase): real {
    if p == Locked then c.finalPeriod else c.probePeriod
  }

  /** After every tick behind the startup the last query is younger than the period, or was published at this tick. */
  lemma TickKeepsQueryFresh(c: Config, s: State, now: real, later: real)
    requires Consistent(s)
    ensures var n := Step(c, s, Tick(now, later));
      n.phase != Startup ==> (
        n.lastPublish.Some? &&
        (n.lastPublish.value == later || (n.phase == s.phase && now - n.lastPublish.value < PeriodOf(c, s.phase))))
  {
  }

  /** Within a phase a tick publishes the query again exactly when the period is over, and nothing else ever does. */
  lemma RepublishedIff(c: Config, s: State, e: Event)
    requires Consistent(s) && Step(c, s, e).phase == s.phase != Startup
    ensures var due := e.Tick? && (s.lastPublish.None? || e.now - s.lastPublish.value >= PeriodOf(c, s.phase));
      Step(c, s, e).sent == s.sent + (
        if !due then []
        else if s.phase == Locked then [FinalQuery(s.locked.value), SceneMode(s.locked.value)]
        else [ProbeQuery(s.phase.mode)])
  {
  }

  // ---------- the lists of labels ----------

  function JoinCommas(items: seq<string>): string
    requires items != []
  {
    if |items| == 1 then items[0] else items[0] + [','] + JoinCommas(items[1..])
  }

  lemma {:induction false} SplitInvertsCommas(items: seq<string>)
    requires items != [] && forall i :: 0 <= i < |items| ==> Text.Lacks(items[i], ',')
    ensures Text.Split(JoinCommas(items), ',') == items
    decreases |items|
  {
    if |items| == 1 {
      Text.SplitNone(items[0], ',');
    } else {
      SplitInvertsCommas(items[1..]);
      Text.SplitAt(items[0], ',', JoinCommas(items[1..]));
    }
  }

  /** The labels of a list are the normalised items that are not empty. */
  lemma ParsedLabelsAre(items: seq<string>, l: string)
    requires items != [] && forall i :: 0 <= i < |items| ==> Text.Lacks(items[i], ',')
    ensures l in ParseLabelList(JoinCommas(items)) <==>
      l != "" && exists i :: 0 <= i < |items| && DetectionText.NormalizeLabel(items[i]) == l
  {
    SplitInvertsCommas(items);
  }
}
