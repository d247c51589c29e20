/** Health checking: the two-threshold hysteresis of a node's state, and the guard that keeps a node from
    being probed twice at once. */
module HealthChecker {
  import opened Wrappers
  import opened Sums

  type NodeId = nat

  datatype Config = Config(failureThreshold: nat, successThreshold: nat)

  datatype NodeHealth = NodeHealth(
    healthy: bool, failures: nat, successes: nat, totalChecks: nat, totalFailures: nat)

  /** The events that a change of state sends. */
  datatype Event = NodeHealthy | NodeUnhealthy

  const Fresh := NodeHealth(true, 0, 0, 0, 0)

  // ---- one probe -----------------------------------------------------------------------------

  function Observe(h: NodeHealth, ok: bool, cfg: Config): (NodeHealth, Option<Event>) {
    var h1 := h.(totalChecks := h.totalChecks + 1);
    if ok then
      var h2 := h1.(failures := 0, successes := h1.successes + 1);
      if !h2.healthy && h2.successes >= cfg.successThreshold then (h2.(healthy := true), Some(NodeHealthy))
      else (h2, None)
    else
      var h2 := h1.(successes := 0, failures := h1.failures + 1, totalFailures := h1.totalFailures + 1);
      if h2.healthy && h2.failures >= cfg.failureThreshold then (h2.(healthy := false), Some(NodeUnhealthy))
      else (h2, None)
  }

  /** The state after a sequence of probe outcomes, and the events sent on the way. */
  function After(outcomes: seq<bool>, cfg: Config): (NodeHealth, seq<Event>) {
    if outcomes == [] then (Fresh, [])
    else
      var (h, events) := After(outcomes[..|outcomes| - 1], cfg);
      var (h', event) := Observe(h, outcomes[|outcomes| - 1], cfg);
      (h', if event.Some? then events + [event.value] else events)
  }

  // ---- what the state means ------------------------------------------------------------------

  /** The `n` outcomes before position `k` are all `v`. */
  ghost predicate RunBefore(outcomes: seq<bool>, k: nat, n: nat, v: bool) {
    n <= k <= |outcomes| && forall j :: k - n <= j < k ==> outcomes[j] == v
  }

  /** A threshold of zero acts like one: it is looked at only after a matching outcome. */
  function AtLeastOne(n: nat): nat {
    if n == 0 then 1 else n
  }

  /** A long enough run of failures ended at `k`, and no long enough run of successes since. */
  ghost predicate FailedAt(outcomes: seq<bool>, cfg: Config, k: nat) {
    && RunBefore(outcomes, k, AtLeastOne(cfg.failureThreshold), false)
    && forall j :: k < j <= |outcomes| ==> !RunBefore(outcomes, j, AtLeastOne(cfg.successThreshold), true)
  }

  ghost predicate FailedLast(outcomes: seq<bool>, cfg: Config) {
    exists k: nat :: FailedAt(outcomes, cfg, k)
  }

  /** The length of the run of `v` at the end. */
  function Trailing(outcomes: seq<bool>, v: bool): (n: nat)
    ensures n <= |outcomes|
  {
    if outcomes == [] || outcomes[|outcomes| - 1] != v then 0 else Trailing(outcomes[..|outcomes| - 1], v) + 1
  }

  lemma {:induction false} TrailingIsLongestRun(outcomes: seq<bool>, v: bool, n: nat)
    ensures RunBefore(outcomes, |outcomes|, n, v) <==> n <= Trailing(outcomes, v)
  {
    if outcomes != [] && n > 0 {
      var front := outcomes[..|outcomes| - 1];
      TrailingIsLongestRun(front, v, n - 1);
      assert forall j :: 0 <= j < |front| ==> front[j] == outcomes[j];
      assert RunBefore(outcomes, |outcomes|, n, v) <==>
          outcomes[|outcomes| - 1] == v && RunBefore(front, |front|, n - 1, v);
    }
  }

  /** A run that ended earlier looks the same in the longer sequence. */
  lemma RunInPrefix(outcomes: seq<bool>, k: nat, n: nat, v: bool)
    requires outcomes != [] && k < |outcomes|
    ensures RunBefore(outcomes, k, n, v) <==> RunBefore(outcomes[..|outcomes| - 1], k, n, v)
  {
    var front := outcomes[..|outcomes| - 1];
    assert forall j :: 0 <= j < |front| ==> front[j] == outcomes[j];
  }

  /** One more outcome: a run of failures that is long enough now decides, a run of successes that is
      long enough now decides the other way, and otherwise nothing changes. */
  lemma FailedLastStep(outcomes: seq<bool>, cfg: Config)
    requires outcomes != []
    ensures var front := outcomes[..|outcomes| - 1];
            FailedLast(outcomes, cfg) <==>
            if RunBefore(outcomes, |outcomes|, AtLeastOne(cfg.failureThreshold), false) then true
            else if RunBefore(outcomes, |outcomes|, AtLeastOne(cfg.successThreshold), true) then false
            else FailedLast(front, cfg)
  {
    var n, front := |outcomes|, outcomes[..|outcomes| - 1];
    var f, s := AtLeastOne(cfg.failureThreshold), AtLeastOne(cfg.successThreshold);
    if RunBefore(outcomes, n, f, false) {
      assert FailedAt(outcomes, cfg, n);
    } else {
      forall k: nat, m: nat, v: bool | k < n ensures RunBefore(outcomes, k, m, v) <==> RunBefore(front, k, m, v) {
        RunInPrefix(outcomes, k, m, v);
      }
      if FailedLast(outcomes, cfg) {
        var k: nat :| FailedAt(outcomes, cfg, k);
        assert k < n;
        assert FailedAt(front, cfg, k);
      }
      if FailedLast(front, cfg) && !RunBefore(outcomes, n, s, true) {
        var k: nat :| FailedAt(front, cfg, k);
        assert FailedAt(outcomes, cfg, k);
      }
    }
  }

  function IsFailure(outcome: bool): nat {
    if outcome then 0 else 1
  }

  /** The counters are the lengths of the current runs and the totals. */
  lemma {:induction false} CountersAreRuns(outcomes: seq<bool>, cfg: Config)
    ensures var h := After(outcomes, cfg).0;
            && h.failures == Trailing(outcomes, false) && h.successes == Trailing(outcomes, true)
            && h.totalChecks == |outcomes| && h.totalFailures == SeqSum(outcomes, IsFailure)
  {
    if outcomes != [] {
      CountersAreRuns(outcomes[..|outcomes| - 1], cfg);
    }
  }

  /** After any sequence of probe outcomes a node is unhealthy exactly when a run of failures as long as
      the failure threshold has been reached more recently than any run of successes as long as the
      success threshold. */
  lemma {:induction false} UnhealthyIff(outcomes: seq<bool>, cfg: Config)
    ensures After(outcomes, cfg).0.healthy <==> !FailedLast(outcomes, cfg)
  {
    if outcomes == [] {
      assert forall k: nat :: !FailedAt(outcomes, cfg, k);
    } else {
      hide FailedLast, RunBefore;
      var n, front := |outcomes|, outcomes[..|outcomes| - 1];
      UnhealthyIff(front, cfg);
      FailedLastStep(outcomes, cfg);
      CountersAreRuns(front, cfg);
      TrailingIsLongestRun(outcomes, false, AtLeastOne(cfg.failureThreshold));
      TrailingIsLongestRun(outcomes, true, AtLeastOne(cfg.successThreshold));
    }
  }

  function EventAt(i: nat): Event {
    if i % 2 == 0 then NodeUnhealthy else NodeHealthy
  }

  /** NodeUnhealthy, NodeHealthy, and so on. */
  ghost predicate Alternate(events: seq<Event>) {
    forall i :: 0 <= i < |events| ==> events[i] == EventAt(i)
  }

  /** The events strictly alternate, starting with NodeUnhealthy, and the last one is the state. */
  lemma {:induction false} EventsAlternate(outcomes: seq<bool>, cfg: Config)
    ensures var (h, events) := After(outcomes, cfg);
            && Alternate(events)
            && (h.healthy <==> |events| % 2 == 0)
  {
    if outcomes != [] {
      EventsAlternate(outcomes[..|outcomes| - 1], cfg);
    }
  }

  // ---- probes that are aborted ---------------------------------------------------------------

  /** How a probe ends: it finishes; it is aborted before it has the lock; or it is aborted while it sends
      the event of the change that it has just made to the record. */
  datatype Check = Finished(ok: bool) | NotBegun | CutShort(ok: bool)

  /** A change of the flag, and whether its event was sent. */
  datatype Change = Change(event: Event, sent: bool)

  function AfterChecks(checks: seq<Check>, cfg: Config): (NodeHealth, seq<Change>) {
    if checks == [] then (Fresh, [])
    else
      var (h, changes) := AfterChecks(checks[..|checks| - 1], cfg);
      var check := checks[|checks| - 1];
      if check.NotBegun? then (h, changes)
      else
        var (h', event) := Observe(h, check.ok, cfg);
        (h', if event.Some? then changes + [Change(event.value, check.Finished?)] else changes)
  }

  /** What the probes that had the lock saw. */
  function Outcomes(checks: seq<Check>): seq<bool> {
    if checks == [] then []
    else
      var front, check := Outcomes(checks[..|checks| - 1]), checks[|checks| - 1];
      if check.NotBegun? then front else front + [check.ok]
  }

  /** An abort loses no more than an event: the record is what the outcomes make it, and the changes are
      those that `UnhealthyIff` and `EventsAlternate` speak of. */
  lemma {:induction false} AbortsKeepState(checks: seq<Check>, cfg: Config)
    ensures var (h, changes) := AfterChecks(checks, cfg);
            var (h', events) := After(Outcomes(checks), cfg);
            && h == h' && |changes| == |events|
            && forall i :: 0 <= i < |changes| ==> changes[i].event == events[i]
  {
    hide Observe;
    if checks != [] {
      AbortsKeepState(checks[..|checks| - 1], cfg);
      var front := Outcomes(checks[..|checks| - 1]);
      if !checks[|checks| - 1].NotBegun? {
        assert (front + [checks[|checks| - 1].ok])[..|front|] == front;
      }
    }
  }

  function SentEvents(changes: seq<Change>): seq<Event> {
    if changes == [] then []
    else
      var front, last := SentEvents(changes[..|changes| - 1]), changes[|changes| - 1];
      if last.sent then front + [last.event] else front
  }

  function WasLost(c: Change): nat {
    if c.sent then 0 else 1
  }

  /** Before every event that was sent, an even number had been lost. */
  ghost predicate EvenLosses(changes: seq<Change>) {
    forall i :: 0 <= i < |changes| && changes[i].sent ==> SeqSum(changes[..i], WasLost) % 2 == 0
  }

  lemma {:induction false} SentIff(changes: seq<Change>)
    requires forall i :: 0 <= i < |changes| ==> changes[i].event == EventAt(i)
    ensures Alternate(SentEvents(changes)) <==> EvenLosses(changes)
    ensures |SentEvents(changes)| + SeqSum(changes, WasLost) == |changes|
  {
    if changes != [] {
      hide Alternate, EvenLosses, EventAt;
      var n := |changes| - 1;
      SentIff(changes[..n]);
      LossesFront(changes);
      AlternateAppend(SentEvents(changes[..n]), changes[n].event);
      EventsByParity(|SentEvents(changes[..n])|, SeqSum(changes[..n], WasLost));
    } else {
      assert Alternate(SentEvents(changes)) && EvenLosses(changes);
    }
  }

  lemma EventsByParity(sent: nat, lost: nat)
    ensures EventAt(sent + lost) == EventAt(sent) <==> lost % 2 == 0
  {
  }

  lemma LossesFront(changes: seq<Change>)
    requires changes != []
    ensures var n := |changes| - 1;
            EvenLosses(changes) <==>
            EvenLosses(changes[..n]) && (changes[n].sent ==> SeqSum(changes[..n], WasLost) % 2 == 0)
  {
    hide SeqSum;
    var front := changes[..|changes| - 1];
    assert forall i :: 0 <= i < |front| ==> front[..i] == changes[..i];
  }

  lemma AlternateAppend(events: seq<Event>, e: Event)
    ensures Alternate(events + [e]) <==> Alternate(events) && e == EventAt(|events|)
  {
    hide EventAt;
    assert (events + [e])[|events|] == e;
    assert forall i :: 0 <= i < |events| ==> (events + [e])[i] == events[i];
  }

  /** With probes aborted anywhere, the events that are sent alternate, starting with NodeUnhealthy, if and
      only if before each of them an even number of events had been lost. */
  lemma {:induction false} SentAlternateIff(checks: seq<Check>, cfg: Config)
    ensures var changes := AfterChecks(checks, cfg).1; Alternate(SentEvents(changes)) <==> EvenLosses(changes)
  {
    hide AfterChecks, After, SeqSum;
    AbortsKeepState(checks, cfg);
    EventsAlternate(Outcomes(checks), cfg);
    SentIff(AfterChecks(checks, cfg).1);
  }

  /** What a listener takes the node for. */
  predicate ToldHealthy(events: seq<Event>) {
    events == [] || events[|events| - 1].NodeHealthy?
  }

  /** The number of events lost since the last one that was sent. */
  function LostSince(changes: seq<Change>): nat {
    if changes == [] || changes[|changes| - 1].sent then 0 else LostSince(changes[..|changes| - 1]) + 1
  }

  lemma {:induction false} ToldIff(changes: seq<Change>)
    requires forall i :: 0 <= i < |changes| ==> changes[i].event == EventAt(i)
    ensures ToldHealthy(SentEvents(changes)) <==> (|changes| + LostSince(changes)) % 2 == 0
  {
    if changes != [] {
      ToldIff(changes[..|changes| - 1]);
    }
  }

  /** A listener takes the node for what it is if and only if an even number of events has been lost since
      the last one it got. */
  lemma {:induction false} ListenerIsRightIff(checks: seq<Check>, cfg: Config)
    ensures var (h, changes) := AfterChecks(checks, cfg);
            (h.healthy <==> ToldHealthy(SentEvents(changes))) <==> LostSince(changes) % 2 == 0
  {
    hide AfterChecks, After, SentEvents, LostSince;
    AbortsKeepState(checks, cfg);
    EventsAlternate(Outcomes(checks), cfg);
    ToldIff(AfterChecks(checks, cfg).1);
  }

  /** With both thresholds at one, and the recovery cut short: two NodeUnhealthy in a row. */
  lemma LostRecovery()
    ensures SentEvents(AfterChecks([Finished(false), CutShort(true), Finished(false)], Config(1, 1)).1)
         == [NodeUnhealthy, NodeUnhealthy]
  {
    var cfg, c1, c2, c3 := Config(1, 1), Finished(false), CutShort(true), Finished(false);
    assert [c1, c2, c3][..2] == [c1, c2] && [c1, c2][..1] == [c1] && [c1][..0] == [];
    assert AfterChecks([c1][..|[c1]| - 1], cfg) == (Fresh, []);
    assert Observe(Fresh, false, cfg) == (NodeHealth(false, 1, 0, 1, 1), Some(NodeUnhealthy));
    assert [] + [Change(NodeUnhealthy, true)] == [Change(NodeUnhealthy, true)];
    assert AfterChecks([c1], cfg) == (NodeHealth(false, 1, 0, 1, 1), [Change(NodeUnhealthy, true)]);
    var lost := [Change(NodeUnhealthy, true), Change(NodeHealthy, false)];
    assert AfterChecks([c1, c2][..|[c1, c2]| - 1], cfg) == AfterChecks([c1], cfg);
    assert [Change(NodeUnhealthy, true)] + [Change(NodeHealthy, false)] == lost;
    assert AfterChecks([c1, c2], cfg) == (NodeHealth(true, 0, 1, 2, 1), lost);
    var changes := lost + [Change(NodeUnhealthy, true)];
    assert AfterChecks([c1, c2, c3], cfg).1 == changes;
    assert changes[..2] == lost && lost[..1] == [Change(NodeUnhealthy, true)] && lost[..1][..0] == [];
    assert SentEvents(lost[..1]) == [NodeUnhealthy];
  }

  // ---- the checker's state, updated in place -------------------------------------------------

  class HealthChecker {
    const config: Config
    var health: map<NodeId, NodeHealth>
    var inFlight: set<NodeId>
    var skippedInFlight: nat

    constructor (cfg: Config)
      ensures config == cfg && health == map[] && inFlight == {} && skippedInFlight == 0
    {
      config, health, inFlight, skippedInFlight := cfg, map[], {}, 0;
    }

    method AddNode(node: NodeId)
      modifies this`health
      ensures health == old(health)[node := Fresh]
    {
      health := health[node := Fresh];
    }

    /** The part of `check_node_health` under the write lock, given the outcome of the probe. */
    method CheckNodeHealth(node: NodeId, ok: bool) returns (event: Option<Event>)
      modifies this`health
      ensures node !in old(health) ==> health == old(health) && event.None?
      ensures node in old(health) ==>
                health == old(health)[node := Observe(old(health)[node], ok, config).0]
                && event == Observe(old(health)[node], ok, config).1
    {
      event := None;
      if node in health {
        var h := health[node];
        h := h.(totalChecks := h.totalChecks + 1);
        if ok {
          h := h.(failures := 0);
          h := h.(successes := h.successes + 1);
          if !h.healthy && h.successes >= config.successThreshold {
            h := h.(healthy := true);
            event := Some(NodeHealthy);
          }
        } else {
          h := h.(successes := 0);
          h := h.(failures := h.failures + 1);
          h := h.(totalFailures := h.totalFailures + 1);
          if h.healthy && h.failures >= config.failureThreshold {
            h := h.(healthy := false);
            event := Some(NodeUnhealthy);
          }
        }
        health := health[node := h];
      }
    }

    /** `InFlightGuard::try_acquire`, and the skip counter on a miss. */
    method TryAcquire(node: NodeId) returns (acquired: bool)
      modifies this`inFlight, this`skippedInFlight
      ensures acquired <==> node !in old(inFlight)
      ensures inFlight == old(inFlight) + {node}
      ensures skippedInFlight == old(skippedInFlight) + if acquired then 0 else 1
    {
      acquired := node !in inFlight;
      if acquired {
        inFlight := inFlight + {node};
      } else {
        skippedInFlight := skippedInFlight + 1;
      }
    }

    /** The guard's `Drop`. */
    method ReleaseGuard(node: NodeId)
      modifies this`inFlight
      ensures inFlight == old(inFlight) - {node}
    {
      inFlight := inFlight - {node};
    }
  }

  // ---- probes in flight ----------------------------------------------------------------------

  /** A probe task. Its guard is released when it ends: by finishing, by panicking, or by being aborted. */
  datatype Probe = Probe(node: NodeId, live: bool)

  /** A probe loop; a restarted checker has a new one, while an old one may still be winding down. */
  datatype Loop = Looping | Exited

  datatype Probing = Probing(
    running: bool, loops: seq<Loop>, inFlight: set<NodeId>, probes: seq<Probe>, visits: nat, skipped: nat)

  /** `Visit(l, node)` is loop `l` coming to a node in one of its ticks; `Exit(l)` is a loop leaving, on
      its own or by abort; `End(p)` is the end of a probe, whatever the reason. */
  datatype Move = Start | Stop | Visit(l: nat, node: NodeId) | Exit(l: nat) | End(p: nat)

  /** The guard is taken and the probe spawned. */
  function Probed(s: Probing, node: NodeId): Probing {
    s.(visits := s.visits + 1, inFlight := s.inFlight + {node}, probes := s.probes + [Probe(node, true)])
  }

  /** The probe is over and its guard dropped. */
  function EndedProbe(s: Probing, p: nat): Probing
    requires p < |s.probes|
  {
    s.(probes := s.probes[p := s.probes[p].(live := false)], inFlight := s.inFlight - {s.probes[p].node})
  }

  function Apply(s: Probing, m: Move): Probing {
    match m
    case Start => if s.running then s else s.(running := true, loops := s.loops + [Looping])
    case Stop => s.(running := false)
    case Exit(l) => if l < |s.loops| then s.(loops := s.loops[l := Exited]) else s
    case Visit(l, node) =>
      if l < |s.loops| && s.loops[l].Looping? then
        if node in s.inFlight then s.(visits := s.visits + 1, skipped := s.skipped + 1) else Probed(s, node)
      else s
    case End(p) => if p < |s.probes| && s.probes[p].live then EndedProbe(s, p) else s
  }

  function RunMoves(moves: seq<Move>): Probing {
    if moves == [] then Probing(false, [], {}, [], 0, 0)
    else Apply(RunMoves(moves[..|moves| - 1]), moves[|moves| - 1])
  }

  /** The in-flight set is exactly the nodes with a live probe, no node has two, and every visit either
      started a probe or was counted as skipped. */
  ghost predicate Guarded(s: Probing) {
    && (forall n :: n in s.inFlight <==> exists p :: 0 <= p < |s.probes| && s.probes[p] == Probe(n, true))
    && (forall p, q :: 0 <= p < q < |s.probes| && s.probes[p].live && s.probes[q].live ==>
          s.probes[p].node != s.probes[q].node)
    && s.visits == |s.probes| + s.skipped
  }

  lemma VisitGuarded(s: Probing, node: NodeId)
    requires Guarded(s) && node !in s.inFlight
    ensures Guarded(Probed(s, node))
  {
    var probes := s.probes + [Probe(node, true)];
    forall n ensures n in s.inFlight + {node} <==> exists p :: 0 <= p < |probes| && probes[p] == Probe(n, true) {
      if n == node {
        assert probes[|s.probes|] == Probe(n, true);
      } else if n in s.inFlight {
        var p :| 0 <= p < |s.probes| && s.probes[p] == Probe(n, true);
        assert probes[p] == Probe(n, true);
      }
    }
    forall p | 0 <= p < |s.probes| && s.probes[p].live ensures s.probes[p].node != node {
      assert s.probes[p] == Probe(s.probes[p].node, true);
    }
  }

  lemma EndGuarded(s: Probing, p: nat)
    requires Guarded(s) && p < |s.probes| && s.probes[p].live
    ensures Guarded(EndedProbe(s, p))
  {
    var node := s.probes[p].node;
    var probes := s.probes[p := s.probes[p].(live := false)];
    forall n ensures n in s.inFlight - {node} <==> exists q :: 0 <= q < |probes| && probes[q] == Probe(n, true) {
      if n in s.inFlight && n != node {
        var q :| 0 <= q < |s.probes| && s.probes[q] == Probe(n, true);
        assert probes[q] == Probe(n, true);
      }
      if q :| 0 <= q < |probes| && probes[q] == Probe(n, true) {
        assert q != p && s.probes[q] == Probe(n, true);
      }
    }
  }

  ghost predicate HasLiveProbe(s: Probing, node: NodeId) {
    exists p :: 0 <= p < |s.probes| && s.probes[p] == Probe(node, true)
  }

  /** In every run, a loop that comes to a node skips it if and only if that node has a live probe, and
      otherwise starts one for it; a loop that has left does neither. */
  lemma VisitSkipsIff(moves: seq<Move>, l: nat, node: NodeId)
    ensures var s, s' := RunMoves(moves), RunMoves(moves + [Visit(l, node)]);
            if l < |s.loops| && s.loops[l].Looping? then
              && s'.visits == s.visits + 1
              && (s'.skipped == s.skipped + 1 <==> HasLiveProbe(s, node))
              && (s'.skipped == s.skipped <==> !HasLiveProbe(s, node))
              && s'.probes == if HasLiveProbe(s, node) then s.probes else s.probes + [Probe(node, true)]
            else s' == s
  {
    OneProbePerNode(moves);
    assert (moves + [Visit(l, node)])[..|moves|] == moves;
  }

  lemma {:induction false} OneProbePerNode(moves: seq<Move>)
    ensures Guarded(RunMoves(moves))
  {
    if moves != [] {
      var s, m := RunMoves(moves[..|moves| - 1]), moves[|moves| - 1];
      OneProbePerNode(moves[..|moves| - 1]);
      match m
      case Visit(l, node) =>
        if l < |s.loops| && s.loops[l].Looping? && node !in s.inFlight {
          VisitGuarded(s, node);
        }
      case End(p) =>
        if p < |s.probes| && s.probes[p].live {
          EndGuarded(s, p);
        }
      case _ =>
    }
  }
}
