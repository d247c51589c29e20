/** The failover controller's own operations, as the code performs them: the history ring, closing an
    entry by id, choosing a candidate, and polling a standby until it stops moving. */
module FailoverController {
  import opened Wrappers
  import opened Sorting
  import opened FailoverProtocol

  // ---- choosing a candidate ------------------------------------------------------------------

  datatype Candidate = Candidate(node: NodeId, isSync: bool, lag: nat, priority: nat)

  /** The comparison that `sort_by` is given: `a` does not come after `b`. */
  predicate NotAfter(a: Candidate, b: Candidate, preferSync: bool) {
    if preferSync && a.isSync != b.isSync then a.isSync
    else if a.lag != b.lag then a.lag < b.lag
    else a.priority <= b.priority
  }

  function Order(preferSync: bool): (Candidate, Candidate) -> bool {
    (a: Candidate, b: Candidate) => NotAfter(a, b, preferSync)
  }

  /** The comparison is consistent, so that sorting by it has a meaning. */
  lemma OrderIsTotal(preferSync: bool)
    ensures TotalPreorder(Order(preferSync))
  {
  }

  /** The best standby: synchronous first if that is preferred, then the smallest lag, then the
      smallest priority. `cs` are the candidates in whatever order the map yields them. */
  method SelectBestCandidate(cs: seq<Candidate>, preferSync: bool) returns (r: Option<Candidate>)
    ensures r.None? <==> cs == []
    ensures r.Some? ==> r.value in cs
    ensures r.Some? && preferSync && (exists c :: c in cs && c.isSync) ==> r.value.isSync
    ensures r.Some? ==> forall c :: c in cs && (preferSync ==> c.isSync == r.value.isSync) ==>
                          r.value.lag < c.lag || (r.value.lag == c.lag && r.value.priority <= c.priority)
  {
    if cs == [] {
      return None;
    }
    OrderIsTotal(preferSync);
    var sorted := Sort(cs, Order(preferSync));
    assert |sorted| == |multiset(sorted)| == |multiset(cs)| == |cs|;
    forall c | c in cs ensures NotAfter(sorted[0], c, preferSync) {
      assert c in multiset(sorted);
      assert Order(preferSync)(c, c);
    }
    assert sorted[0] in multiset(cs);
    r := Some(sorted[0]);
  }

  // ---- waiting for a standby to stop moving --------------------------------------------------

  datatype Poll = Position(text: string) | Null | ProbeError

  datatype Waited = CaughtUp(polls: nat) | NullPosition | ProbeFailed | TimedOut

  /** Poll `k` and the two before it saw the same position. */
  predicate Stable(polls: seq<Poll>, k: nat) {
    2 <= k < |polls| && polls[k].Position? && polls[k - 2] == polls[k - 1] == polls[k]
  }

  /** The answers until the timeout are `polls`. The wait ends well at the first poll that repeats the
      position of the two before it, provided no poll until then failed. */
  method PollUntilCaughtUp(polls: seq<Poll>) returns (r: Waited)
    ensures r.CaughtUp? ==>
              && r.polls >= 1 && Stable(polls, r.polls - 1)
              && forall j :: 0 <= j < r.polls - 1 ==> polls[j].Position? && !Stable(polls, j)
    ensures r.TimedOut? <==> forall j :: 0 <= j < |polls| ==> polls[j].Position? && !Stable(polls, j)
    ensures r.NullPosition? || r.ProbeFailed? ==>
              exists k :: 0 <= k < |polls| && polls[k] == (if r.NullPosition? then Null else ProbeError)
                          && forall j :: 0 <= j < k ==> polls[j].Position? && !Stable(polls, j)
  {
    var last: Option<string> := None;
    var stablePolls := 0;
    for k := 0 to |polls|
      invariant forall j :: 0 <= j < k ==> polls[j].Position? && !Stable(polls, j)
      invariant last == if k == 0 then None else Some(polls[k - 1].text)
      invariant stablePolls == if k >= 2 && polls[k - 1] == polls[k - 2] then 1 else 0
    {
      if polls[k].ProbeError? {
        return ProbeFailed;
      }
      if polls[k].Null? {
        return NullPosition;
      }
      if last == Some(polls[k].text) {
        stablePolls := stablePolls + 1;
        if stablePolls >= 2 {
          return CaughtUp(k + 1);
        }
      } else {
        stablePolls := 0;
        last := Some(polls[k].text);
      }
    }
    r := TimedOut;
  }

  // ---- the controller ------------------------------------------------------------------------

  ghost function Ids(history: seq<HistoryEntry>): set<nat> {
    set e | e in history :: e.id
  }

  /** An entry with a new id is pushed to the back, and found there when it is closed. */
  lemma FreshLast(history: seq<HistoryEntry>, e: HistoryEntry, cap: nat, success: bool)
    requires e.id !in Ids(history) && cap >= 1
    ensures var pushed := Push(history, e, cap);
            var closed := CloseEntry(pushed, e.id, success);
            && pushed != [] && pushed[|pushed| - 1] == e
            && closed != []
            && closed[|closed| - 1] == HistoryEntry(e.id, e.oldPrimary, e.newPrimary, true, success, !success)
  {
    hide FirstWithId;
    var pushed := Push(history, e, cap);
    assert pushed[|pushed| - 1] == e;
    assert forall k :: 0 <= k < |pushed| - 1 ==> pushed[k] in history && pushed[k].id in Ids(history);
    assert FirstWithId(pushed, e.id) == |pushed| - 1;
  }

  class FailoverController {
    const maxHistory: nat
    var history: seq<HistoryEntry>
    var count: nat
    var primary: Option<NodeId>
    var state: FailoverState

    constructor (max: nat)
      ensures maxHistory == Cap(max) && history == [] && count == 0 && primary == None && state == Normal
    {
      maxHistory := if max == 0 then 1 else max;
      history, count, primary, state := [], 0, None, Normal;
    }

    method PushEntry(e: HistoryEntry)
      modifies this`history
      ensures history == Push(old(history), e, maxHistory)
      ensures |history| == if |old(history)| < maxHistory then |old(history)| + 1 else maxHistory
      ensures history == (old(history) + [e])[|old(history)| + 1 - |history|..]
    {
      history := history + [e];
      ghost var all := history;
      ghost var popped := 0;
      while |history| > maxHistory
        invariant popped <= |all| && history == all[popped..]
        invariant popped > 0 ==> |history| >= maxHistory
      {
        history := history[1..];
        popped := popped + 1;
      }
    }

    method CloseHistoryEntry(id: nat, success: bool)
      modifies this`history
      ensures history == CloseEntry(old(history), id, success)
      ensures |history| == |old(history)|
      ensures forall k :: 0 <= k < |history| && history[k].id != id ==> history[k] == old(history)[k]
      ensures forall k :: 0 <= k < |history| && history[k].id == id && id !in Ids(old(history)[..k]) ==>
                history[k] == HistoryEntry(id, old(history)[k].oldPrimary, old(history)[k].newPrimary,
                                           true, success, !success)
    {
      var k := 0;
      while k < |history| && history[k].id != id
        invariant k <= |history|
        invariant FirstWithId(history, id) == k + FirstWithId(history[k..], id)
      {
        assert history[k..][1..] == history[k + 1..];
        k := k + 1;
      }
      if k < |history| {
        history := history[k := history[k].(ended := true, success := success, failed := !success)];
      }
    }

    /** What the protocol sees of the controller. */
    ghost function View(attempts: seq<Attempt>, order: seq<nat>): System
      reads this
    {
      System(history, count, primary, state, attempts, order)
    }

    /** The body of `initiate_failover` from the moment the candidate has been chosen. */
    method RunAttempt(i: nat, a: Attempt, synced: bool, promoted: bool) returns (end: Stage)
      modifies this
      ensures end == if a.lagging && !synced then FailedClosed else if !promoted then PromoteFailed else Closed
      ensures primary == if end.Closed? then Some(a.newPrimary) else old(primary)
      ensures count == old(count) + if end.Closed? then 1 else 0
      ensures state == if end.FailedClosed? then Failed
                       else if end.Closed? then Completed
                       else if a.lagging then WaitingForSync
                       else InProgress
      ensures var pushed := Push(old(history), EntryOf(i, a), maxHistory);
              history == if end.PromoteFailed? then pushed else CloseEntry(pushed, i, end.Closed?)
    {
      hide Push, CloseEntry, FirstWithId;
      state := InProgress;
      PushEntry(EntryOf(i, a));
      if a.lagging {
        state := WaitingForSync;
        if !synced {
          state := Failed;
          CloseHistoryEntry(i, false);
          return FailedClosed;
        }
      }
      if !promoted {
        return PromoteFailed;
      }
      primary := Some(a.newPrimary);
      state := Completed;
      count := count + 1;
      CloseHistoryEntry(i, true);
      return Closed;
    }

    /** Attempt `i`, alone from the moment it has chosen its candidate to its end. The two outcomes are
        those of waiting for sync and of promoting. */
    method CompleteFailover(i: nat, a: Attempt, synced: bool, promoted: bool) returns (end: Stage)
      requires !a.manual && a.stage.Chosen?
      modifies this
      ensures end == if a.lagging && !synced then FailedClosed else if !promoted then PromoteFailed else Closed
      ensures primary == if end.Closed? then Some(a.newPrimary) else old(primary)
      ensures count == old(count) + if end.Closed? then 1 else 0
      ensures maxHistory >= 1 && i !in Ids(old(history)) ==>
                && history != []
                && history[|history| - 1] == HistoryEntry(i, a.oldPrimary, a.newPrimary,
                                                          !end.PromoteFailed?, end.Closed?, end.FailedClosed?)
      ensures forall attempts: seq<Attempt>, order: seq<nat> :: i < |attempts| && attempts[i] == a ==>
                View(attempts[i := a.(stage := end)], order + [i])
                == Alone(old(View(attempts, order)), i, synced, promoted, maxHistory)
    {
      hide Alone, Push, CloseEntry, FirstWithId, StepAttempt;
      forall attempts: seq<Attempt>, order: seq<nat> | i < |attempts| && attempts[i] == a {
        AloneEnds(View(attempts, order), i, synced, promoted, maxHistory);
      }
      if i !in Ids(history) && maxHistory >= 1 {
        FreshLast(history, EntryOf(i, a), maxHistory, true);
        FreshLast(history, EntryOf(i, a), maxHistory, false);
      }
      end := RunAttempt(i, a, synced, promoted);
    }

    /** `manual_failover` as attempt `i`: refused unless the target is a candidate, and never in the
        history. */
    method ManualFailover(i: nat, target: NodeId, isCandidate: bool, promoted: bool) returns (ok: bool)
      modifies this
      ensures ok <==> isCandidate && promoted
      ensures !isCandidate ==> unchanged(this)
      ensures history == old(history)
      ensures primary == if ok then Some(target) else old(primary)
      ensures count == old(count) + if ok then 1 else 0
      ensures isCandidate ==> state == if ok then Completed else InProgress
      ensures isCandidate ==>
                forall attempts: seq<Attempt>, order: seq<nat> :: i == |attempts| ==>
                  var begun := Apply(old(View(attempts, order)), Manual(target), maxHistory);
                  View(SetStage(begun, i, if ok then Finished else PromoteFailed).attempts, order)
                  == Alone(begun, i, true, promoted, maxHistory)
    {
      if !isCandidate {
        return false;
      }
      forall attempts: seq<Attempt>, order: seq<nat> | i == |attempts| {
        AloneManual(Apply(View(attempts, order), Manual(target), maxHistory), i, promoted, maxHistory);
      }
      state := InProgress;
      if !promoted {
        return false;
      }
      primary := Some(target);
      state := Completed;
      count := count + 1;
      return true;
    }
  }

  function Rank(st: Stage): nat {
    match st
    case Chosen => 8
    case Pushed => 7
    case Syncing => 6
    case SyncFailed => 5
    case Promoting => 4
    case Promoted => 3
    case PrimarySet => 2
    case Counted => 1
    case _ => 0
  }

  /** The protocol when only attempt `i` moves, until it ends. */
  function Alone(s: System, i: nat, synced: bool, promoted: bool, cap: nat): System
    requires i < |s.attempts|
    decreases Rank(s.attempts[i].stage)
  {
    var st := s.attempts[i].stage;
    if Ended(st) then s
    else Alone(StepAttempt(s, i, if st.Syncing? then synced else promoted, cap), i, synced, promoted, cap)
  }

  lemma AloneStep(s: System, i: nat, synced: bool, promoted: bool, cap: nat)
    requires i < |s.attempts| && !Ended(s.attempts[i].stage)
    ensures var s' := StepAttempt(s, i, if s.attempts[i].stage.Syncing? then synced else promoted, cap);
            Alone(s, i, synced, promoted, cap) == Alone(s', i, synced, promoted, cap)
  {
  }

  /** From the promotion on. */
  lemma AlonePromotes(s: System, i: nat, synced: bool, promoted: bool, cap: nat)
    requires i < |s.attempts| && s.attempts[i].stage.Promoting?
    ensures var a := s.attempts[i];
            Alone(s, i, synced, promoted, cap) ==
            if !promoted then SetStage(s, i, PromoteFailed)
            else
              SetStage(s, i, if a.manual then Finished else Closed).(
                primary := Some(a.newPrimary), state := Completed, count := s.count + 1,
                history := if a.manual then s.history else CloseEntry(s.history, i, true))
  {
    hide CloseEntry, Push, EntryOf;
    AloneStep(s, i, synced, promoted, cap);
    if promoted {
      var s1 := SetStage(s, i, Promoted);
      AloneStep(s1, i, synced, promoted, cap);
      var s2 := SetStage(s1, i, PrimarySet).(primary := Some(s.attempts[i].newPrimary));
      AloneStep(s2, i, synced, promoted, cap);
      var s3 := SetStage(s2, i, Counted).(state := Completed, count := s.count + 1);
      AloneStep(s3, i, synced, promoted, cap);
      assert s3.attempts == s.attempts[i := s.attempts[i].(stage := Counted)];
    }
  }

  lemma AloneManual(s: System, i: nat, promoted: bool, cap: nat)
    requires i < |s.attempts| && s.attempts[i].manual && s.attempts[i].stage.Chosen?
    ensures Alone(s, i, true, promoted, cap) ==
            if !promoted then SetStage(s, i, PromoteFailed).(state := InProgress)
            else
              SetStage(s, i, Finished).(
                primary := Some(s.attempts[i].newPrimary), state := Completed, count := s.count + 1)
  {
    hide CloseEntry, Push;
    AloneStep(s, i, true, promoted, cap);
    AlonePromotes(StepAttempt(s, i, promoted, cap), i, true, promoted, cap);
  }

  lemma AloneEnds(s: System, i: nat, synced: bool, promoted: bool, cap: nat)
    requires i < |s.attempts| && !s.attempts[i].manual && s.attempts[i].stage.Chosen?
    ensures var a := s.attempts[i];
            var pushed := s.(history := Push(s.history, EntryOf(i, a), cap), order := s.order + [i]);
            var waited := pushed.(state := if a.lagging then WaitingForSync else InProgress);
            Alone(s, i, synced, promoted, cap) ==
            if a.lagging && !synced then
              SetStage(pushed, i, FailedClosed).(state := Failed, history := CloseEntry(pushed.history, i, false))
            else if !promoted then SetStage(waited, i, PromoteFailed)
            else
              SetStage(waited, i, Closed).(
                primary := Some(a.newPrimary), state := Completed, count := s.count + 1,
                history := CloseEntry(pushed.history, i, true))
  {
    hide CloseEntry, Push;
    AloneStep(s, i, synced, promoted, cap);
    var s1 := StepAttempt(s, i, promoted, cap);
    AloneStep(s1, i, synced, promoted, cap);
    var s2 := StepAttempt(s1, i, promoted, cap);
    if s.attempts[i].lagging {
      AloneStep(s2, i, synced, promoted, cap);
      var s3 := StepAttempt(s2, i, synced, cap);
      if synced {
        AlonePromotes(s3, i, synced, promoted, cap);
      } else {
        AloneStep(s3, i, synced, promoted, cap);
      }
    } else {
      AlonePromotes(s2, i, synced, promoted, cap);
    }
  }
}
