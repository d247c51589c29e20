/** Automatic promotion of a standby: probe every node, choose, fence, promote, verify. An attempt is
    described by the trace of what it does to the cluster. */
module AutoPromote {
  import opened Wrappers

  datatype Role = PrimaryRole | StandbyRole | ReadReplica

  datatype Node = Node(address: string, role: Role, enabled: bool, lag: Option<nat>)

  datatype Probe = Unreachable | Primary | Standby(lsn: nat)

  datatype Candidate = Candidate(index: nat, lsn: nat, lag: Option<nat>)

  datatype Config = Config(maxLag: nat, allowUnknownLag: bool, fence: bool)

  datatype Refusal =
    | PrimaryAlive(node: nat) | NoCandidate | LagTooHigh(node: nat, lag: nat) | LagUnknown(node: nat)
    | FenceFailed | PromoteFailed | VerifyFailed

  // ---- the outage clock ----------------------------------------------------------------------

  datatype Observation = Observation(now: nat, present: bool)

  function Elapsed(since: nat, now: nat): nat {
    if now <= since then 0 else now - since
  }

  class OutageClock {
    var since: Option<nat>

    constructor ()
      ensures since == None
    {
      since := None;
    }

    method Observe(now: nat, present: bool) returns (absent: Option<nat>)
      modifies this
      ensures since == Ticked(old(since), Observation(now, present))
      ensures present ==> since.None? && absent.None?
      ensures !present ==>
                && since == Some(if old(since).Some? then old(since).value else now)
                && absent == Some(if since.value < now then now - since.value else 0)
    {
      if present {
        since := None;
        return None;
      }
      if since.None? {
        since := Some(now);
      }
      return Some(Elapsed(since.value, now));
    }
  }

  function Ticked(since: Option<nat>, o: Observation): Option<nat> {
    if o.present then None else if since.None? then Some(o.now) else since
  }

  function Clock(obs: seq<Observation>): Option<nat> {
    if obs == [] then None else Ticked(Clock(obs[..|obs| - 1]), obs[|obs| - 1])
  }

  /** From `k` on the primary has been absent, and it was present just before. */
  ghost predicate OutageFrom(obs: seq<Observation>, k: nat) {
    && k < |obs|
    && (forall j :: k <= j < |obs| ==> !obs[j].present)
    && (k > 0 ==> obs[k - 1].present)
  }

  /** The clock shows the start of the outage that is still going on, and nothing if the primary was
      there at the last look. */
  lemma {:induction false} ClockShowsOutage(obs: seq<Observation>)
    ensures Clock(obs).None? <==> obs == [] || obs[|obs| - 1].present
    ensures forall k: nat :: OutageFrom(obs, k) ==> Clock(obs) == Some(obs[k].now)
  {
    if obs != [] {
      var n, front := |obs| - 1, obs[..|obs| - 1];
      ClockShowsOutage(front);
      forall k: nat | OutageFrom(obs, k) ensures Clock(obs) == Some(obs[k].now) {
        if k < n {
          assert forall j :: 0 <= j < n ==> front[j] == obs[j];
          assert OutageFrom(front, k);
        }
      }
    }
  }

  // ---- choosing ------------------------------------------------------------------------------

  /** The comparison given to `max_by`: by replay position, and at equal positions the earlier node wins. */
  predicate NotGreater(a: Candidate, b: Candidate) {
    a.lsn < b.lsn || (a.lsn == b.lsn && b.index <= a.index)
  }

  predicate LagAllowed(cfg: Config, lag: Option<nat>) {
    if lag.Some? then lag.value <= cfg.maxLag else cfg.allowUnknownLag
  }

  ghost predicate IsMaximum(best: Candidate, cands: seq<Candidate>) {
    best in cands && forall c :: c in cands ==> NotGreater(c, best)
  }

  /** The refusal of a candidate for its lag. */
  function LagRefusal(c: Candidate): Refusal {
    if c.lag.Some? then LagTooHigh(c.index, c.lag.value) else LagUnknown(c.index)
  }

  method PickCandidate(cands: seq<Candidate>, cfg: Config) returns (r: Result<Candidate, Refusal>)
    ensures r.Err? && r.error.NoCandidate? <==> cands == []
    ensures r.Ok? ==> IsMaximum(r.value, cands) && LagAllowed(cfg, r.value.lag)
    ensures r.Err? && cands != [] ==>
              exists best :: IsMaximum(best, cands) && !LagAllowed(cfg, best.lag)
                             && r.error == LagRefusal(best)
  {
    if cands == [] {
      return Err(NoCandidate);
    }
    var best := cands[0];
    for k := 1 to |cands|
      invariant best in cands
      invariant forall j :: 0 <= j < k ==> NotGreater(cands[j], best)
    {
      if NotGreater(best, cands[k]) {
        best := cands[k];
      }
    }
    if best.lag.Some? && best.lag.value > cfg.maxLag {
      return Err(LagTooHigh(best.index, best.lag.value));
    }
    if best.lag.None? && !cfg.allowUnknownLag {
      return Err(LagUnknown(best.index));
    }
    return Ok(best);
  }

  // ---- an attempt ----------------------------------------------------------------------------

  datatype Action = Probed(node: nat, seen: Probe) | Fenced(node: nat, ok: bool) | Promoted(node: nat, ok: bool)

  /** What the cluster answers: the first probe of each node, the fence hook, the promotion, and the
      verification probes until the deadline (the first one is always made). */
  datatype World = World(
    first: nat -> Probe, fenceOk: bool, promoteOk: bool, verifyFirst: Probe, verifyMore: seq<Probe>)

  predicate Eligible(nodes: seq<Node>, w: World, i: nat) {
    i < |nodes| && nodes[i].enabled && nodes[i].role.StandbyRole? && w.first(i).Standby?
  }

  /** The eligible standby with the highest replay position, the earliest in case of a tie. */
  ghost predicate IsBest(nodes: seq<Node>, w: World, t: nat) {
    && Eligible(nodes, w, t)
    && forall i :: 0 <= i < |nodes| && Eligible(nodes, w, i) ==>
         w.first(i).lsn < w.first(t).lsn || (w.first(i).lsn == w.first(t).lsn && t <= i)
  }

  ghost predicate AllProbed(nodes: seq<Node>, w: World, trace: seq<Action>) {
    forall i :: 0 <= i < |nodes| && nodes[i].enabled ==> Probed(i, w.first(i)) in trace
  }

  ghost predicate NoneWritable(nodes: seq<Node>, w: World) {
    forall i :: 0 <= i < |nodes| && nodes[i].enabled ==> !w.first(i).Primary?
  }

  predicate OnlyProbes(trace: seq<Action>) {
    forall k :: 0 <= k < |trace| ==> trace[k].Probed?
  }

  /** A promotion at step `k` of the trace was due: every enabled node had been probed and none was
      writable, the fence had succeeded if there is one, and the target is the best standby within the
      allowed lag. */
  ghost predicate PromotionDue(cfg: Config, nodes: seq<Node>, w: World, trace: seq<Action>, k: nat)
    requires k < |trace| && trace[k].Promoted?
  {
    var t := trace[k].node;
    && AllProbed(nodes, w, trace[..k]) && NoneWritable(nodes, w)
    && (cfg.fence ==> k > 0 && trace[k - 1] == Fenced(t, true))
    && IsBest(nodes, w, t) && LagAllowed(cfg, nodes[t].lag)
  }

  /** The trace never promotes unless it is due, and never twice. */
  ghost predicate SafeTrace(cfg: Config, nodes: seq<Node>, w: World, trace: seq<Action>) {
    && (forall k :: 0 <= k < |trace| && trace[k].Promoted? ==> PromotionDue(cfg, nodes, w, trace, k))
    && (forall j, k :: 0 <= j < k < |trace| ==> !(trace[j].Promoted? && trace[k].Promoted?))
  }

  /** Every refusal names its reason, and the reason is the case. */
  ghost predicate Justified(cfg: Config, nodes: seq<Node>, w: World, why: Refusal) {
    match why
    case PrimaryAlive(i) => i < |nodes| && nodes[i].enabled && w.first(i).Primary?
    case NoCandidate => NoneWritable(nodes, w) && forall i: nat :: !Eligible(nodes, w, i)
    case LagTooHigh(t, lag) =>
      NoneWritable(nodes, w) && IsBest(nodes, w, t) && nodes[t].lag == Some(lag) && lag > cfg.maxLag
    case LagUnknown(t) =>
      NoneWritable(nodes, w) && IsBest(nodes, w, t) && nodes[t].lag.None? && !cfg.allowUnknownLag
    case FenceFailed => NoneWritable(nodes, w) && cfg.fence && !w.fenceOk
    case PromoteFailed => NoneWritable(nodes, w) && (cfg.fence ==> w.fenceOk) && !w.promoteOk
    case VerifyFailed => NoneWritable(nodes, w) && w.promoteOk && !w.verifyFirst.Primary? && Primary !in w.verifyMore
  }

  /** The candidates found among the first `n` nodes. */
  ghost predicate CandidatesOf(nodes: seq<Node>, w: World, n: nat, cands: seq<Candidate>)
    requires n <= |nodes|
  {
    && (forall c :: c in cands ==> c.index < n && Eligible(nodes, w, c.index)
                                   && c.lsn == w.first(c.index).lsn && c.lag == nodes[c.index].lag)
    && (forall i :: 0 <= i < n && Eligible(nodes, w, i) ==> Candidate(i, w.first(i).lsn, nodes[i].lag) in cands)
  }

  /** The probing loop: it stops at the first node that answers as a writable primary. */
  method ProbeAll(nodes: seq<Node>, w: World) returns (r: Result<seq<Candidate>, Refusal>, trace: seq<Action>)
    ensures OnlyProbes(trace)
    ensures r.Ok? <==> NoneWritable(nodes, w)
    ensures r.Ok? ==> AllProbed(nodes, w, trace) && CandidatesOf(nodes, w, |nodes|, r.value)
    ensures r.Err? ==>
              exists i :: 0 <= i < |nodes| && nodes[i].enabled && w.first(i).Primary? && r.error == PrimaryAlive(i)
  {
    var cands := [];
    trace := [];
    for i := 0 to |nodes|
      invariant OnlyProbes(trace)
      invariant forall j :: 0 <= j < i && nodes[j].enabled ==> Probed(j, w.first(j)) in trace && !w.first(j).Primary?
      invariant CandidatesOf(nodes, w, i, cands)
    {
      if nodes[i].enabled {
        var seen := w.first(i);
        trace := trace + [Probed(i, seen)];
        if seen.Primary? {
          return Err(PrimaryAlive(i)), trace;
        }
        if seen.Standby? && nodes[i].role.StandbyRole? {
          cands := cands + [Candidate(i, seen.lsn, nodes[i].lag)];
        }
      }
    }
    r := Ok(cands);
  }

  /** The verification loop: probe until the target answers as a primary or the deadline has passed. */
  method Verify(t: nat, w: World) returns (ok: bool, trace: seq<Action>)
    ensures OnlyProbes(trace)
    ensures ok ==> trace != [] && trace[|trace| - 1] == Probed(t, Primary)
    ensures ok <==> w.verifyFirst.Primary? || Primary in w.verifyMore
  {
    var k := 0;
    trace := [];
    while true
      invariant OnlyProbes(trace) && k <= |w.verifyMore|
      invariant k > 0 ==> !w.verifyFirst.Primary? && Primary !in w.verifyMore[..k - 1]
      decreases |w.verifyMore| - k
    {
      var seen := if k == 0 then w.verifyFirst else w.verifyMore[k - 1];
      trace := trace + [Probed(t, seen)];
      if seen.Primary? {
        return true, trace;
      }
      if k == |w.verifyMore| {
        assert k > 0 ==> w.verifyMore == w.verifyMore[..k - 1] + [seen];
        return false, trace;
      }
      k := k + 1;
    }
  }

  lemma BestIsBest(nodes: seq<Node>, w: World, cands: seq<Candidate>, best: Candidate)
    requires CandidatesOf(nodes, w, |nodes|, cands) && IsMaximum(best, cands)
    ensures IsBest(nodes, w, best.index)
  {
    forall i | 0 <= i < |nodes| && Eligible(nodes, w, i)
      ensures w.first(i).lsn < best.lsn || (w.first(i).lsn == best.lsn && best.index <= i)
    {
      assert NotGreater(Candidate(i, w.first(i).lsn, nodes[i].lag), best);
    }
  }

  /** The trace of an attempt, put together from its phases. */
  lemma PhasesAreSafe(cfg: Config, nodes: seq<Node>, w: World, probes: seq<Action>, t: nat, after: seq<Action>)
    requires OnlyProbes(probes) && OnlyProbes(after)
    requires AllProbed(nodes, w, probes) && NoneWritable(nodes, w)
    requires IsBest(nodes, w, t) && LagAllowed(cfg, nodes[t].lag)
    ensures var fence := if cfg.fence then [Fenced(t, true)] else [];
            SafeTrace(cfg, nodes, w, probes + fence + [Promoted(t, w.promoteOk)] + after)
  {
    var fence := if cfg.fence then [Fenced(t, true)] else [];
    var trace := probes + fence + [Promoted(t, w.promoteOk)] + after;
    var p := |probes + fence|;
    assert trace[..p] == probes + fence;
    assert forall k :: 0 <= k < |trace| && trace[k].Promoted? ==> k == p by {
      assert forall k :: p < k < |trace| ==> trace[k] == after[k - p - 1];
    }
    assert PromotionDue(cfg, nodes, w, trace, p);
  }

  /** `attempt`: for every answer of the cluster, what it does is safe, and what it reports is what
      happened. */
  method Attempt(cfg: Config, nodes: seq<Node>, w: World) returns (r: Result<nat, Refusal>, trace: seq<Action>)
    ensures SafeTrace(cfg, nodes, w, trace)
    ensures r.Ok? ==>
              && trace != [] && trace[|trace| - 1] == Probed(r.value, Primary)
              && exists k :: 0 <= k < |trace| - 1 && trace[k] == Promoted(r.value, true)
    ensures r.Ok? <==>
              && NoneWritable(nodes, w) && w.promoteOk && (cfg.fence ==> w.fenceOk)
              && (w.verifyFirst.Primary? || Primary in w.verifyMore)
              && exists t :: 0 <= t < |nodes| && IsBest(nodes, w, t) && LagAllowed(cfg, nodes[t].lag)
    ensures r.Err? ==> Justified(cfg, nodes, w, r.error)
    ensures r.Err? && !r.error.PromoteFailed? && !r.error.VerifyFailed? ==> forall a :: a in trace ==> !a.Promoted?
  {
    var found;
    found, trace := ProbeAll(nodes, w);
    if found.Err? {
      return Err(found.error), trace;
    }
    ghost var probes := trace;
    var picked := PickCandidate(found.value, cfg);
    if picked.Err? {
      NoneAllowed(cfg, nodes, w, found.value);
      PickRefused(cfg, nodes, w, found.value, picked.error);
      return Err(picked.error), trace;
    }
    var t := picked.value.index;
    BestIsBest(nodes, w, found.value, picked.value);
    if cfg.fence {
      trace := trace + [Fenced(t, w.fenceOk)];
      if !w.fenceOk {
        return Err(FenceFailed), trace;
      }
    }
    trace := trace + [Promoted(t, w.promoteOk)];
    ghost var p := |trace| - 1;
    PhasesAreSafe(cfg, nodes, w, probes, t, []);
    assert probes + (if cfg.fence then [Fenced(t, true)] else []) + [Promoted(t, w.promoteOk)] + [] == trace;
    if !w.promoteOk {
      return Err(PromoteFailed), trace;
    }
    var ok, after := Verify(t, w);
    PhasesAreSafe(cfg, nodes, w, probes, t, after);
    trace := trace + after;
    assert probes + (if cfg.fence then [Fenced(t, true)] else []) + [Promoted(t, w.promoteOk)] + after == trace;
    assert trace[p] == Promoted(t, true);
    if ok {
      assert trace[|trace| - 1] == after[|after| - 1];
      return Ok(t), trace;
    }
    return Err(VerifyFailed), trace;
  }

  lemma PickRefused(cfg: Config, nodes: seq<Node>, w: World, cands: seq<Candidate>, why: Refusal)
    requires CandidatesOf(nodes, w, |nodes|, cands) && NoneWritable(nodes, w)
    requires if cands == [] then why == NoCandidate
             else exists best :: IsMaximum(best, cands) && !LagAllowed(cfg, best.lag)
                                 && why == LagRefusal(best)
    ensures Justified(cfg, nodes, w, why)
  {
    if cands != [] {
      var best :| IsMaximum(best, cands) && !LagAllowed(cfg, best.lag) && why == LagRefusal(best);
      BestIsBest(nodes, w, cands, best);
    }
  }

  /** If the best candidate found is over the limit, or there is none, no node is the best one within it. */
  lemma NoneAllowed(cfg: Config, nodes: seq<Node>, w: World, cands: seq<Candidate>)
    requires CandidatesOf(nodes, w, |nodes|, cands)
    requires cands == [] || exists best :: IsMaximum(best, cands) && !LagAllowed(cfg, best.lag)
    ensures forall t :: 0 <= t < |nodes| && IsBest(nodes, w, t) ==> !LagAllowed(cfg, nodes[t].lag)
  {
    if cands != [] {
      var best :| IsMaximum(best, cands) && !LagAllowed(cfg, best.lag);
      BestIsBest(nodes, w, cands, best);
    }
  }
}
