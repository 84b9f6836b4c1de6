/**
  The scene manager: a timed phase machine that probes for indoor and then for outdoor objects
  and locks the scene mode. `Outcome` is the decision as a function of the whole trace of timer
  ticks and detection messages; `RunMatchesOutcome` says that the machine computes it.
*/
module SceneManager {
  import DetectionText
  import Text
  import opened Wrappers

  datatype Mode = Indoor | Outdoor

  datatype Phase = Startup | Probe(mode: Mode) | Locked

  /** What the node publishes, in order. */
  datatype Publication = ProbeQuery(mode: Mode) | FinalQuery(mode: Mode) | SceneMode(mode: Mode)

  /** The parameters; times in seconds. `num` is the number reader of the detection parser. */
  datatype Config = Config(startupDelay: real, probeDuration: real, probePeriod: real, finalPeriod: real,
                           minMargin: real, defaultMode: Mode, indoorLabels: set<string>, outdoorLabels: set<string>,
                           num: DetectionText.NumberReader)

  function LabelsOf(c: Config, mode: Mode): set<string> {
    if mode == Indoor then c.indoorLabels else c.outdoorLabels
  }

  /** A timer tick at `now`, whose later clock readings give `later`; or a detection message. */
  datatype Event = Tick(now: real, later: real) | Message(text: string)

  datatype State = State(phase: Phase, startedAt: real, lastPublish: Option<real>, locked: Option<Mode>,
                         indoorScore: real, outdoorScore: real, sent: seq<Publication>)

  function Initial(t0: real): State {
    State(Startup, t0, None, None, 0.0, 0.0, [])
  }

  // ---------- one event ----------

  function Publish(s: State, p: Publication, at: real): State {
    s.(sent := s.sent + [p], lastPublish := if p.SceneMode? then s.lastPublish else Some(at))
  }

  function ShouldPublish(s: State, now: real, period: real): bool {
    s.lastPublish.None? || now - s.lastPublish.value >= period
  }

  function StartProbe(s: State, mode: Mode, at: real): State {
    Publish(s.(phase := Probe(mode), startedAt := at, lastPublish := None), ProbeQuery(mode), at)
  }

  /** The default when the scores are closer than the margin, else the mode with the larger score. */
  function Choose(c: Config, indoor: real, outdoor: real): Mode {
    var margin := indoor - outdoor;
    if (if margin < 0.0 then -margin else margin) < c.minMargin then c.defaultMode
    else if margin > 0.0 then Indoor else Outdoor
  }

  /** The mode that the scores of the two probes stand for. */
  ghost predicate IsChoice(c: Config, mode: Mode, indoor: real, outdoor: real) {
    && (-c.minMargin < indoor - outdoor < c.minMargin ==> mode == c.defaultMode)
    && (indoor - outdoor >= c.minMargin || outdoor - indoor >= c.minMargin ==>
          (indoor > outdoor ==> mode == Indoor) && (indoor <= outdoor ==> mode == Outdoor))
  }

  lemma ChooseIsChoice(c: Config, indoor: real, outdoor: real)
    ensures IsChoice(c, Choose(c, indoor, outdoor), indoor, outdoor)
  {
  }

  function Lock(s: State, mode: Mode, at: real): State {
    var locked := s.(locked := Some(mode), phase := Locked, startedAt := at, lastPublish := None);
    Publish(Publish(locked, SceneMode(mode), at), FinalQuery(mode), at)
  }

  function OnTick(c: Config, s: State, now: real, later: real): State {
    var elapsed := now - s.startedAt;
    if s.locked.Some? then
      if ShouldPublish(s, now, c.finalPeriod)
      then Publish(Publish(s, FinalQuery(s.locked.value), later), SceneMode(s.locked.value), later)
      else s
    else
      match s.phase
      case Startup => if elapsed >= c.startupDelay then StartProbe(s, Indoor, later) else s
      case Probe(mode) =>
        var p := if ShouldPublish(s, now, c.probePeriod) then Publish(s, ProbeQuery(mode), later) else s;
        if elapsed < c.probeDuration then p
        else if mode == Indoor then StartProbe(p, Outdoor, later)
        else Lock(p, Choose(c, p.indoorScore, p.outdoorScore), later)
      case Locked => s
  }

  /** The confidences of the entries whose label belongs to the probe, added up. */
  function Sum(entries: seq<DetectionText.Sighting>, labels: set<string>): real {
    if entries == [] then 0.0 else
      var last := |entries| - 1;
      Sum(entries[..last], labels) + if entries[last].name in labels then entries[last].confidence else 0.0
  }

  function MessageScore(c: Config, mode: Mode, text: string): real {
    Sum(DetectionText.SceneReads(c.num, text), LabelsOf(c, mode))
  }

  function AddScore(s: State, mode: Mode, x: real): State {
    if mode == Indoor then s.(indoorScore := s.indoorScore + x) else s.(outdoorScore := s.outdoorScore + x)
  }

  function OnMessage(c: Config, s: State, text: string): State {
    if s.phase.Probe? then AddScore(s, s.phase.mode, MessageScore(c, s.phase.mode, text)) else s
  }

  function Step(c: Config, s: State, e: Event): State {
    match e
    case Tick(now, later) => OnTick(c, s, now, later)
    case Message(text) => OnMessage(c, s, text)
  }

  function Run(c: Config, s: State, events: seq<Event>): State
    decreases |events|
  {
    if events == [] then s else Run(c, Step(c, s, events[0]), events[1..])
  }

  // ---------- the node ----------

  class SceneAwareQueryManager {
    const c: Config
    var phase: Phase
    var phaseStartedAt: real
    var lastQueryPublishAt: Option<real>
    var lockedSceneMode: Option<Mode>
    var indoorScore: real
    var outdoorScore: real
    var sent: seq<Publication>

    function View(): State
      reads this
    {
      State(phase, phaseStartedAt, lastQueryPublishAt, lockedSceneMode, indoorScore, outdoorScore, sent)
    }

    /** Starts in the startup phase, or locked at once when a scene is given. */
    constructor (c: Config, override: Option<Mode>, now: real)
      ensures this.c == c
      ensures View() == if override.Some? then Lock(Initial(now), override.value, now) else Initial(now)
    {
      this.c := c;
      phase, phaseStartedAt, lastQueryPublishAt, lockedSceneMode := Startup, now, None, None;
      indoorScore, outdoorScore, sent := 0.0, 0.0, [];
      new;
      if override.Some? {
        LockSceneMode(override.value, now);
      }
    }

    method PublishQuery(p: Publication, at: real)
      requires !p.SceneMode?
      modifies this
      ensures View() == Publish(old(View()), p, at)
    {
      sent := sent + [p];
      lastQueryPublishAt := Some(at);
    }

    method PublishSceneMode(mode: Mode, at: real)
      modifies this
      ensures View() == Publish(old(View()), SceneMode(mode), at)
    {
      sent := sent + [SceneMode(mode)];
    }

    method LockSceneMode(mode: Mode, at: real)
      modifies this
      ensures View() == Lock(old(View()), mode, at)
      ensures phase == Locked && lockedSceneMode == Some(mode) && phaseStartedAt == at
      ensures sent == old(sent) + [SceneMode(mode), FinalQuery(mode)]
    {
      lockedSceneMode := Some(mode);
      phase := Locked;
      phaseStartedAt := at;
      lastQueryPublishAt := None;
      PublishSceneMode(mode, at);
      PublishQuery(FinalQuery(mode), at);
    }

    method BeginProbe(mode: Mode, at: real)
      modifies this
      ensures View() == StartProbe(old(View()), mode, at)
      ensures phase == Probe(mode) && phaseStartedAt == at && sent == old(sent) + [ProbeQuery(mode)]
    {
      phase := Probe(mode);
      phaseStartedAt := at;
      lastQueryPublishAt := None;
      PublishQuery(ProbeQuery(mode), at);
    }

    method SelectSceneMode(at: real)
      modifies this
      ensures View() == Lock(old(View()), Choose(c, old(indoorScore), old(outdoorScore)), at)
      ensures lockedSceneMode.Some? && IsChoice(c, lockedSceneMode.value, old(indoorScore), old(outdoorScore))
    {
      ChooseIsChoice(c, indoorScore, outdoorScore);
      var margin := indoorScore - outdoorScore;
      var selected;
      if (if margin < 0.0 then -margin else margin) < c.minMargin {
        selected := c.defaultMode;
      } else {
        selected := if margin > 0.0 then Indoor else Outdoor;
      }
      LockSceneMode(selected, at);
    }

    method TimerCallback(now: real, later: real)
      modifies this
      ensures View() == OnTick(c, old(View()), now, later)
    {
      var elapsed := now - phaseStartedAt;
      if lockedSceneMode.Some? {
        if ShouldPublish(View(), now, c.finalPeriod) {
          PublishQuery(FinalQuery(lockedSceneMode.value), later);
          PublishSceneMode(lockedSceneMode.value, later);
        }
        return;
      }
      if phase == Startup {
        if elapsed >= c.startupDelay {
          BeginProbe(Indoor, later);
        }
        return;
      }
      if phase.Probe? {
        if ShouldPublish(View(), now, c.probePeriod) {
          PublishQuery(ProbeQuery(phase.mode), later);
        }
        if elapsed >= c.probeDuration {
          if phase.mode == Indoor {
            BeginProbe(Outdoor, later);
          } else {
            SelectSceneMode(later);
          }
        }
      }
    }

    /** Adds the confidences of the probe's labels to the score of the current probe. */
    method DetectionsCallback(text: string)
      modifies this
      ensures View() == OnMessage(c, old(View()), text)
    {
      if !phase.Probe? {
        return;
      }
      var labels := LabelsOf(c, phase.mode);
      var entries := DetectionText.ParseDetectionEntries(c.num, text);
      ghost var before := View();
      for i := 0 to |entries|
        invariant View() == AddScore(before, before.phase.mode, Sum(entries[..i], labels))
      {
        assert entries[..i + 1][..i] == entries[..i];
        if entries[i].name in labels {
          if phase.mode == Indoor {
            indoorScore := indoorScore + entries[i].confidence;
          } else {
            outdoorScore := outdoorScore + entries[i].confidence;
          }
        }
      }
      assert entries[..|entries|] == entries;
    }
  }

  // ---------- the decision as a function of the trace ----------

  /** The tick that ends a phase which began at `base` and lasts `wait`. */
  predicate Ends(e: Event, base: real, wait: real) {
    e.Tick? && e.now - base >= wait
  }

  /** The position of the first such tick, or the length. */
  function FirstEnd(events: seq<Event>, base: real, wait: real): (k: nat)
    ensures k <= |events|
    ensures k < |events| ==> Ends(events[k], base, wait)
    ensures forall j :: 0 <= j < k ==> !Ends(events[j], base, wait)
  {
    if events == [] || Ends(events[0], base, wait) then 0 else
      var k := FirstEnd(events[1..], base, wait);
      assert forall j :: 0 <= j < k ==> events[1..][j] == events[j + 1];
      k + 1
  }

  /** The score of a stretch of the trace for one probe. */
  function Score(c: Config, mode: Mode, events: seq<Event>): real {
    if events == [] then 0.0
    else (if events[0].Message? then MessageScore(c, mode, events[0].text) else 0.0) + Score(c, mode, events[1..])
  }

  datatype Result = StillStarting | Probing(mode: Mode, indoor: real, outdoor: real) | Decided(mode: Mode)

  /** From the beginning of the outdoor probe at `base`, with the indoor score known. */
  function OutdoorOutcome(c: Config, base: real, indoor: real, events: seq<Event>): Result {
    var k := FirstEnd(events, base, c.probeDuration);
    var outdoor := Score(c, Outdoor, events[..k]);
    if k == |events| then Probing(Outdoor, indoor, outdoor) else Decided(Choose(c, indoor, outdoor))
  }

  function IndoorOutcome(c: Config, base: real, events: seq<Event>): Result {
    var j := FirstEnd(events, base, c.probeDuration);
    var indoor := Score(c, Indoor, events[..j]);
    if j == |events| then Probing(Indoor, indoor, 0.0)
    else OutdoorOutcome(c, events[j].later, indoor, events[j + 1..])
  }

  /** What a trace leads to: each phase ends with the first tick late enough, and a message counts
      for the probe in whose stretch it falls. */
  function Outcome(c: Config, t0: real, events: seq<Event>): Result {
    var i := FirstEnd(events, t0, c.startupDelay);
    if i == |events| then StillStarting else IndoorOutcome(c, events[i].later, events[i + 1..])
  }

  function ResultOf(s: State): Result {
    match s.phase
    case Startup => StillStarting
    case Probe(mode) => Probing(mode, s.indoorScore, s.outdoorScore)
    case Locked => if s.locked.Some? then Decided(s.locked.value) else StillStarting
  }

  lemma RunOne(c: Config, s: State, e: Event, rest: seq<Event>)
    ensures Run(c, s, [e] + rest) == Run(c, Step(c, s, e), rest)
  {
    assert ([e] + rest)[1..] == rest;
  }

  lemma {:induction false} RunConcat(c: Config, s: State, a: seq<Event>, b: seq<Event>)
    ensures Run(c, s, a + b) == Run(c, Run(c, s, a), b)
    decreases |a|
  {
    if a == [] {
      assert a + b == b;
    } else {
      assert a + b == [a[0]] + (a[1..] + b);
      RunOne(c, s, a[0], a[1..] + b);
      RunConcat(c, Step(c, s, a[0]), a[1..], b);
    }
  }

  ghost predicate NoneEnds(events: seq<Event>, base: real, wait: real) {
    forall j :: 0 <= j < |events| ==> !Ends(events[j], base, wait)
  }

  lemma {:induction false} StartupLasts(c: Config, s: State, events: seq<Event>)
    requires s.phase == Startup && s.locked == None && NoneEnds(events, s.startedAt, c.startupDelay)
    ensures Run(c, s, events) == s
    decreases |events|
  {
    if events == [] {
    } else {
      assert !Ends(events[0], s.startedAt, c.startupDelay);
      StartupLasts(c, s, events[1..]);
    }
  }

  /** While a probe lasts only its score, and what is published, change. */
  lemma {:induction false} ProbeLasts(c: Config, s: State, events: seq<Event>)
    requires s.phase.Probe? && s.locked == None && NoneEnds(events, s.startedAt, c.probeDuration)
    ensures var n := Run(c, s, events);
      && n.phase == s.phase && n.locked == None && n.startedAt == s.startedAt
      && n.indoorScore == s.indoorScore + (if s.phase.mode == Indoor then Score(c, Indoor, events) else 0.0)
      && n.outdoorScore == s.outdoorScore + (if s.phase.mode == Outdoor then Score(c, Outdoor, events) else 0.0)
    decreases |events|
  {
    if events == [] {
    } else {
      assert !Ends(events[0], s.startedAt, c.probeDuration);
      ProbeLasts(c, Step(c, s, events[0]), events[1..]);
    }
  }

  lemma {:induction false} LockLasts(c: Config, s: State, events: seq<Event>)
    requires s.phase == Locked && s.locked.Some?
    ensures var n := Run(c, s, events); n.phase == Locked && n.locked == s.locked
    decreases |events|
  {
    if events == [] {
    } else {
      LockLasts(c, Step(c, s, events[0]), events[1..]);
    }
  }

  lemma CutAt(events: seq<Event>, k: nat)
    requires k < |events|
    ensures events == events[..k] + ([events[k]] + events[k + 1..])
  {
  }

  lemma OutdoorProbeMatches(c: Config, s: State, events: seq<Event>)
    requires s.phase == Probe(Outdoor) && s.locked == None && s.outdoorScore == 0.0
    ensures ResultOf(Run(c, s, events)) == OutdoorOutcome(c, s.startedAt, s.indoorScore, events)
  {
    var k := FirstEnd(events, s.startedAt, c.probeDuration);
    ProbeLasts(c, s, events[..k]);
    if k == |events| {
      assert events[..k] == events;
    } else {
      var mid := Run(c, s, events[..k]);
      RunThroughEnd(c, s, events, k);
      LockLasts(c, Step(c, mid, events[k]), events[k + 1..]);
    }
  }

  lemma RunThroughEnd(c: Config, s: State, events: seq<Event>, k: nat)
    requires k < |events|
    ensures Run(c, s, events) == Run(c, Step(c, Run(c, s, events[..k]), events[k]), events[k + 1..])
  {
    CutAt(events, k);
    RunConcat(c, s, events[..k], [events[k]] + events[k + 1..]);
    RunOne(c, Run(c, s, events[..k]), events[k], events[k + 1..]);
  }

  lemma IndoorProbeEnds(c: Config, s: State, e: Event)
    requires s.phase == Probe(Indoor) && s.locked == None && Ends(e, s.startedAt, c.probeDuration)
    ensures var n := Step(c, s, e);
      && n.phase == Probe(Outdoor) && n.locked == None && n.startedAt == e.later
      && n.indoorScore == s.indoorScore && n.outdoorScore == s.outdoorScore
  {
  }

  lemma IndoorProbeMatches(c: Config, s: State, events: seq<Event>)
    requires s.phase == Probe(Indoor) && s.locked == None && s.indoorScore == 0.0 && s.outdoorScore == 0.0
    ensures ResultOf(Run(c, s, events)) == IndoorOutcome(c, s.startedAt, events)
  {
    var j := FirstEnd(events, s.startedAt, c.probeDuration);
    ProbeLasts(c, s, events[..j]);
    if j == |events| {
      assert events[..j] == events;
    } else {
      var mid := Run(c, s, events[..j]);
      RunThroughEnd(c, s, events, j);
      IndoorProbeEnds(c, mid, events[j]);
      OutdoorProbeMatches(c, Step(c, mid, events[j]), events[j + 1..]);
    }
  }

  /** In auto mode the machine ends every trace as `Outcome` says. */
  lemma RunMatchesOutcome(c: Config, t0: real, events: seq<Event>)
    ensures ResultOf(Run(c, Initial(t0), events)) == Outcome(c, t0, events)
  {
    var s := Initial(t0);
    var i := FirstEnd(events, t0, c.startupDelay);
    StartupLasts(c, s, events[..i]);
    if i == |events| {
      assert events[..i] == events;
    } else {
      RunThroughEnd(c, s, events, i);
      IndoorProbeMatches(c, Step(c, s, events[i]), events[i + 1..]);
    }
  }

  // ---------- order and time of the phases ----------

  ghost predicate Consistent(s: State) {
    s.locked.Some? <==> s.phase == Locked
  }

  /** Each event keeps the phase or moves to the next one, and a locked mode never changes. */
  lemma PhasesAdvanceInOrder(c: Config, s: State, e: Event)
    requires Consistent(s)
    ensures var n := Step(c, s, e);
      && Consistent(n) && (s.locked.Some? ==> n.locked == s.locked)
      && (|| n.phase == s.phase
          || (s.phase == Startup && n.phase == Probe(Indoor))
          || (s.phase == Probe(Indoor) && n.phase == Probe(Outdoor))
          || (s.phase == Probe(Outdoor) && n.phase == Locked))
  {
  }

  /** Clock readings within a tick do not go back. */
  ghost predicate Monotone(events: seq<Event>) {
    forall j :: 0 <= j < |events| && events[j].Tick? ==> events[j].now <= events[j].later
  }

  /** The least time from the start `t0` to the beginning of a phase. */
  function EarliestStart(c: Config, p: Phase): real {
    match p
    case Startup => 0.0
    case Probe(Indoor) => c.startupDelay
    case Probe(Outdoor) => c.startupDelay + c.probeDuration
    case Locked => c.startupDelay + c.probeDuration + c.probeDuration
  }

  /** Each phase begins no earlier than its delays add up to; in particular the mode is locked no
      earlier than the startup delay and two probe durations after the start. */
  lemma {:induction false} PhasesBeginOnTime(c: Config, s: State, t0: real, events: seq<Event>)
    requires Monotone(events) && Consistent(s) && s.startedAt - t0 >= EarliestStart(c, s.phase)
    ensures var n := Run(c, s, events);
      Consistent(n) && n.startedAt - t0 >= EarliestStart(c, n.phase)
    decreases |events|
  {
    if events == [] {
    } else {
      PhasesAdvanceInOrder(c, s, events[0]);
      PhasesBeginOnTime(c, Step(c, s, events[0]), t0, events[1..]);
    }
  }

  lemma LocksNoEarlier(c: Config, t0: real, events: seq<Event>)
    requires Monotone(events) && Run(c, Initial(t0), events).locked.Some?
    ensures Run(c, Initial(t0), events).startedAt - t0 >= c.startupDelay + c.probeDuration + c.probeDuration
  {
    PhasesBeginOnTime(c, Initial(t0), t0, events);
  }

  /** Every scene mode and final query published is the locked one. */
  ghost predicate PublishesOnlyLocked(s: State) {
    forall p :: p in s.sent && !p.ProbeQuery? ==> s.locked == Some(p.mode)
  }

  lemma {:induction false} OnlyTheLockedModeIsPublished(c: Config, s: State, events: seq<Event>)
    requires Consistent(s) && PublishesOnlyLocked(s)
    ensures PublishesOnlyLocked(Run(c, s, events))
    decreases |events|
  {
    if events == [] {
    } else {
      PhasesAdvanceInOrder(c, s, events[0]);
      OnlyTheLockedModeIsPublished(c, Step(c, s, events[0]), events[1..]);
    }
  }

  // ---------- the label sets ----------

  /** The normalised, non-empty items of a comma-separated list. */
  function ParseLabelList(text: string): set<string> {
    set i | 0 <= i < |Text.Split(text, ',')| && DetectionText.NormalizeLabel(Text.Split(text, ',')[i]) != "" ::
      DetectionText.NormalizeLabel(Text.Split(text, ',')[i])
  }

  /** The labels that count for each probe: shared and neutral ones are ignored. */
  function ProbeLabels(indoorQuery: string, outdoorQuery: string, neutral: string): (set<string>, set<string>) {
    var indoor, outdoor := ParseLabelList(indoorQuery), ParseLabelList(outdoorQuery);
    var ignored := indoor * outdoor + ParseLabelList(neutral);
    if ignored == {} then (indoor, outdoor) else (indoor - ignored, outdoor - ignored)
  }

  /** The two label sets have nothing in common and no neutral label, and lose nothing else. */
  lemma ProbeLabelsAreDisjoint(indoorQuery: string, outdoorQuery: string, neutral: string)
    ensures var (indoor, outdoor) := ProbeLabels(indoorQuery, outdoorQuery, neutral);
      && indoor !! outdoor && (indoor + outdoor) !! ParseLabelList(neutral)
      && (forall l :: l in indoor <==>
            l in ParseLabelList(indoorQuery) && l !in ParseLabelList(outdoorQuery) && l !in ParseLabelList(neutral))
      && forall l :: l in outdoor <==>
            l in ParseLabelList(outdoorQuery) && l !in ParseLabelList(indoorQuery) && l !in ParseLabelList(neutral)
  {
    var indoor, outdoor, ignore := ParseLabelList(indoorQuery), ParseLabelList(outdoorQuery), ParseLabelList(neutral);
    if indoor * outdoor + ignore == {} {
      forall l ensures !(l in indoor && l in outdoor) && l !in ignore {
        assert l !in indoor * outdoor + ignore;
      }
    }
  }
}
