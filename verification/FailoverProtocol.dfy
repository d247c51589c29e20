/** Overlapping failovers: any number of attempts run at once, in any interleaving, and share one
    bounded history, one counter and one idea of the primary. */
module FailoverProtocol {
  import opened Wrappers
  import opened Sums

  type NodeId = nat

  datatype FailoverState = Normal | PrimaryFailed | InProgress | WaitingForSync | Completed | Failed

  datatype HistoryEntry = HistoryEntry(
    id: nat, oldPrimary: NodeId, newPrimary: NodeId, ended: bool, success: bool, failed: bool)

  /** How far an attempt has come. `Refused`, `PromoteFailed`, `FailedClosed`, `Closed` and `Finished`
      are its ends; a failed promotion ends it without closing its entry. */
  datatype Stage =
    | Chosen | Pushed | Syncing | SyncFailed | Promoting | Promoted | PrimarySet | Counted
    | Refused | PromoteFailed | FailedClosed | Closed | Finished

  /** One call of `initiate_failover` or `manual_failover`. Its index is its id. */
  datatype Attempt = Attempt(manual: bool, oldPrimary: NodeId, newPrimary: NodeId, lagging: bool, stage: Stage)

  datatype System = System(
    history: seq<HistoryEntry>,
    count: nat,
    primary: Option<NodeId>,
    state: FailoverState,
    attempts: seq<Attempt>,
    order: seq<nat>)     // the ids in the order in which they were pushed to the history

  /** `Initiate` has found the best candidate, if there is any; `lagging` says that its lag is above
      the limit. `Step(i, ok)` is the next action of attempt `i`; `ok` is the outcome of waiting or
      promoting. */
  datatype Event =
    | SetPrimary(node: NodeId)
    | Initiate(candidate: Option<NodeId>, lagging: bool)
    | Manual(target: NodeId)
    | Step(i: nat, ok: bool)
    | ResetState

  /** A new entry at the back; the oldest go when there are too many. */
  function Push(history: seq<HistoryEntry>, e: HistoryEntry, cap: nat): seq<HistoryEntry> {
    LastN(history + [e], cap)
  }

  function FirstWithId(history: seq<HistoryEntry>, id: nat): (k: nat)
    ensures k <= |history|
    ensures forall j :: 0 <= j < k ==> history[j].id != id
    ensures k < |history| ==> history[k].id == id
  {
    if history == [] || history[0].id == id then 0 else 1 + FirstWithId(history[1..], id)
  }

  /** The entry with this id is closed; nothing happens if it has been evicted. */
  function CloseEntry(history: seq<HistoryEntry>, id: nat, success: bool): seq<HistoryEntry> {
    var k := FirstWithId(history, id);
    if k == |history| then history else history[k := history[k].(ended := true, success := success, failed := !success)]
  }

  function EntryOf(id: nat, a: Attempt): HistoryEntry {
    var st := a.stage;
    HistoryEntry(id, a.oldPrimary, a.newPrimary, st.Closed? || st.FailedClosed?, st.Closed?, st.FailedClosed?)
  }

  function SetStage(s: System, i: nat, stage: Stage): System
    requires i < |s.attempts|
  {
    s.(attempts := s.attempts[i := s.attempts[i].(stage := stage)])
  }

  function StepAttempt(s: System, i: nat, ok: bool, cap: nat): System
    requires i < |s.attempts|
  {
    var a := s.attempts[i];
    match a.stage
    case Chosen =>
      if a.manual then SetStage(s, i, Promoting).(state := InProgress)
      else
        SetStage(s, i, Pushed).(
          state := InProgress,
          history := Push(s.history, EntryOf(i, a), cap),
          order := s.order + [i])
    case Pushed => if a.lagging then SetStage(s, i, Syncing).(state := WaitingForSync) else SetStage(s, i, Promoting)
    case Syncing => SetStage(s, i, if ok then Promoting else SyncFailed)
    case SyncFailed => SetStage(s, i, FailedClosed).(state := Failed, history := CloseEntry(s.history, i, false))
    case Promoting => SetStage(s, i, if ok then Promoted else PromoteFailed)
    case Promoted => SetStage(s, i, PrimarySet).(primary := Some(a.newPrimary))
    case PrimarySet => SetStage(s, i, Counted).(state := Completed, count := s.count + 1)
    case Counted =>
      if a.manual then SetStage(s, i, Finished)
      else SetStage(s, i, Closed).(history := CloseEntry(s.history, i, true))
    case _ => s
  }

  function Apply(s: System, e: Event, cap: nat): System {
    match e
    case SetPrimary(node) => s.(primary := Some(node))
    case ResetState => s.(state := Normal)
    case Initiate(candidate, lagging) =>
      var old_ := if s.primary.Some? then s.primary.value else 0;
      var new_ := if candidate.Some? then candidate.value else 0;
      var stage := if s.primary.Some? && candidate.Some? then Chosen else Refused;
      s.(attempts := s.attempts + [Attempt(false, old_, new_, lagging, stage)])
    case Manual(target) =>
      var old_ := if s.primary.Some? then s.primary.value else 0;
      s.(attempts := s.attempts + [Attempt(true, old_, target, false, Chosen)])
    case Step(i, ok) => if i < |s.attempts| then StepAttempt(s, i, ok, cap) else s
  }

  function Initial(): System {
    System([], 0, None, Normal, [], [])
  }

  /** `new` raises a cap of zero to one. */
  function Cap(maxHistory: nat): nat {
    if maxHistory == 0 then 1 else maxHistory
  }

  function Run(events: seq<Event>, maxHistory: nat): System {
    if events == [] then Initial()
    else Apply(Run(events[..|events| - 1], maxHistory), events[|events| - 1], Cap(maxHistory))
  }

  // ---- what the history is -------------------------------------------------------------------

  predicate HasEntry(a: Attempt) {
    !a.manual && !a.stage.Chosen? && !a.stage.Refused?
  }

  /** An attempt whose promotion succeeded, and one that has been counted. */
  predicate WasPromoted(a: Attempt) {
    a.stage.Promoted? || a.stage.PrimarySet? || WasCounted(a)
  }

  predicate WasCounted(a: Attempt) {
    a.stage.Counted? || a.stage.Closed? || a.stage.Finished?
  }

  function CountedPart(a: Attempt): nat {
    if WasCounted(a) then 1 else 0
  }

  ghost predicate OrderOk(order: seq<nat>, attempts: seq<Attempt>) {
    && (forall k :: 0 <= k < |order| ==> order[k] < |attempts| && HasEntry(attempts[order[k]]))
    && (forall j, k :: 0 <= j < k < |order| ==> order[j] != order[k])
    && (forall i :: 0 <= i < |attempts| && HasEntry(attempts[i]) ==> i in order)
  }

  /** What each pushed attempt would have written, in push order, were nothing ever evicted. */
  ghost function Entries(order: seq<nat>, attempts: seq<Attempt>): seq<HistoryEntry>
    requires forall k :: 0 <= k < |order| ==> order[k] < |attempts|
  {
    seq(|order|, k requires 0 <= k < |order| => EntryOf(order[k], attempts[order[k]]))
  }

  ghost predicate Inv(s: System, cap: nat) {
    && OrderOk(s.order, s.attempts)
    && s.history == LastN(Entries(s.order, s.attempts), cap)
    && s.count == SeqSum(s.attempts, CountedPart)
    && forall i :: 0 <= i < |s.attempts| ==> ManualOk(s.attempts[i])
  }

  /** A manual failover never waits for sync and has no entry to close; the others do not end without
      closing theirs, unless their promotion fails. */
  predicate ManualOk(a: Attempt) {
    var st := a.stage;
    if a.manual then !st.Pushed? && !st.Syncing? && !st.SyncFailed? && !st.Closed? && !st.FailedClosed?
    else !st.Finished?
  }

  lemma LastNPush<T>(s: seq<T>, x: T, n: nat)
    requires n >= 1
    ensures LastN(LastN(s, n) + [x], n) == LastN(s + [x], n)
  {
  }

  /** Closing by id hits the entry's own place, wherever it is, and nothing if it is gone. */
  lemma CloseInWindow(all: seq<HistoryEntry>, p: nat, cap: nat, success: bool)
    requires p < |all|
    requires forall j, k :: 0 <= j < k < |all| ==> all[j].id != all[k].id
    ensures CloseEntry(LastN(all, cap), all[p].id, success)
         == LastN(all[p := all[p].(ended := true, success := success, failed := !success)], cap)
  {
    hide FirstWithId;
    var window := LastN(all, cap);
    var offset := |all| - |window|;
    assert window == all[offset..];
    var k := FirstWithId(window, all[p].id);
    var closed := all[p].(ended := true, success := success, failed := !success);
    if p >= offset {
      assert window[p - offset] == all[p];
      assert k == p - offset;
      assert all[p := closed][offset..] == window[k := closed];
    } else {
      assert k == |window|;
      assert all[p := closed][offset..] == window;
    }
  }

  /** A step that leaves the entry of the attempt as it is leaves the history's contents alone. */
  lemma SameEntries(order: seq<nat>, a: seq<Attempt>, b: seq<Attempt>)
    requires |a| <= |b| && forall k :: 0 <= k < |order| ==> order[k] < |a|
    requires forall k :: 0 <= k < |order| ==> EntryOf(order[k], a[order[k]]) == EntryOf(order[k], b[order[k]])
    ensures Entries(order, a) == Entries(order, b)
  {
  }

  lemma OrderUpdate(order: seq<nat>, attempts: seq<Attempt>, i: nat, a: Attempt)
    requires OrderOk(order, attempts) && i < |attempts| && HasEntry(a) == HasEntry(attempts[i])
    ensures OrderOk(order, attempts[i := a])
  {
  }

  lemma OrderAppend(order: seq<nat>, attempts: seq<Attempt>, a: Attempt)
    requires OrderOk(order, attempts) && !HasEntry(a)
    ensures OrderOk(order, attempts + [a])
  {
  }

  lemma EntriesUpdate(order: seq<nat>, attempts: seq<Attempt>, i: nat, a: Attempt, p: nat)
    requires OrderOk(order, attempts) && i < |attempts| && p < |order| && order[p] == i
    ensures Entries(order, attempts[i := a]) == Entries(order, attempts)[p := EntryOf(i, a)]
  {
    var l, r := Entries(order, attempts[i := a]), Entries(order, attempts)[p := EntryOf(i, a)];
    forall k | 0 <= k < |order| ensures l[k] == r[k] {
    }
  }

  lemma PushStep(s: System, i: nat, ok: bool, cap: nat)
    requires Inv(s, cap) && cap >= 1 && i < |s.attempts| && s.attempts[i].stage.Chosen? && !s.attempts[i].manual
    ensures Inv(StepAttempt(s, i, ok, cap), cap)
  {
    hide SeqSum, LastN;
    var s' := StepAttempt(s, i, ok, cap);
    SeqSumUpdate(s.attempts, i, s'.attempts[i], CountedPart);
    SameEntries(s.order, s.attempts, s'.attempts);
    var all := Entries(s.order, s.attempts);
    assert Entries(s'.order, s'.attempts) == all + [EntryOf(i, s.attempts[i])];
    LastNPush(all, EntryOf(i, s.attempts[i]), cap);
  }

  lemma CloseStep(s: System, i: nat, ok: bool, cap: nat)
    requires Inv(s, cap) && i < |s.attempts|
    requires s.attempts[i].stage.SyncFailed? || (s.attempts[i].stage.Counted? && !s.attempts[i].manual)
    ensures Inv(StepAttempt(s, i, ok, cap), cap)
  {
    hide SeqSum, LastN, CloseEntry, Entries;
    var a, success := s.attempts[i], s.attempts[i].stage.Counted?;
    var a' := a.(stage := if success then Closed else FailedClosed);
    SeqSumUpdate(s.attempts, i, a', CountedPart);
    assert HasEntry(a);
    var p :| 0 <= p < |s.order| && s.order[p] == i;
    var all := Entries(s.order, s.attempts);
    EntriesAt(s.order, s.attempts);
    CloseInWindow(all, p, cap, success);
    EntriesUpdate(s.order, s.attempts, i, a', p);
    OrderUpdate(s.order, s.attempts, i, a');
  }

  lemma EntriesAt(order: seq<nat>, attempts: seq<Attempt>)
    requires OrderOk(order, attempts)
    ensures var all := Entries(order, attempts);
            && |all| == |order|
            && (forall k :: 0 <= k < |all| ==> all[k] == EntryOf(order[k], attempts[order[k]]))
            && (forall j, k :: 0 <= j < k < |all| ==> all[j].id != all[k].id)
  {
  }

  /** All other steps: the attempt moves on, its entry stays what it was. */
  lemma MoveFacts(s: System, i: nat, ok: bool, cap: nat)
    requires i < |s.attempts| && ManualOk(s.attempts[i])
    requires var a := s.attempts[i];
             !a.stage.SyncFailed? && (a.stage.Counted? || a.stage.Chosen? ==> a.manual)
    ensures var s', a := StepAttempt(s, i, ok, cap), s.attempts[i];
            && |s'.attempts| == |s.attempts|
            && var a' := s'.attempts[i];
            && s'.attempts == s.attempts[i := a'] && s'.history == s.history && s'.order == s.order
            && s'.count + CountedPart(a) == s.count + CountedPart(a')
            && HasEntry(a') == HasEntry(a) && EntryOf(i, a') == EntryOf(i, a)
            && ManualOk(a')
  {
  }

  lemma MoveStep(s: System, i: nat, ok: bool, cap: nat)
    requires Inv(s, cap) && i < |s.attempts|
    requires var a := s.attempts[i];
             !a.stage.SyncFailed? && (a.stage.Counted? || a.stage.Chosen? ==> a.manual)
    ensures Inv(StepAttempt(s, i, ok, cap), cap)
  {
    hide SeqSum, LastN, Entries, StepAttempt, HasEntry, EntryOf;
    MoveFacts(s, i, ok, cap);
    var s' := StepAttempt(s, i, ok, cap);
    var a' := s'.attempts[i];
    SeqSumUpdate(s.attempts, i, a', CountedPart);
    OrderUpdate(s.order, s.attempts, i, a');
    SameEntries(s.order, s.attempts, s'.attempts);
  }

  lemma BeginStep(s: System, a: Attempt, cap: nat)
    requires Inv(s, cap) && (a.stage.Chosen? || a.stage.Refused?)
    ensures Inv(s.(attempts := s.attempts + [a]), cap)
  {
    hide SeqSum, LastN, Entries;
    SeqSumAppend(s.attempts, a, CountedPart);
    OrderAppend(s.order, s.attempts, a);
    SameEntries(s.order, s.attempts, s.attempts + [a]);
  }

  lemma InvStep(s: System, e: Event, cap: nat)
    requires Inv(s, cap) && cap >= 1
    ensures Inv(Apply(s, e, cap), cap)
  {
    match e
    case SetPrimary(_) =>
    case ResetState =>
    case Initiate(_, _) => BeginStep(s, Apply(s, e, cap).attempts[|s.attempts|], cap);
    case Manual(_) => BeginStep(s, Apply(s, e, cap).attempts[|s.attempts|], cap);
    case Step(i, ok) =>
      if i < |s.attempts| {
        var a := s.attempts[i];
        if a.stage.Chosen? && !a.manual {
          PushStep(s, i, ok, cap);
        } else if a.stage.SyncFailed? || (a.stage.Counted? && !a.manual) {
          CloseStep(s, i, ok, cap);
        } else {
          MoveStep(s, i, ok, cap);
        }
      }
  }

  lemma {:induction false} RunInv(events: seq<Event>, maxHistory: nat)
    ensures Inv(Run(events, maxHistory), Cap(maxHistory))
  {
    if events != [] {
      RunInv(events[..|events| - 1], maxHistory);
      InvStep(Run(events[..|events| - 1], maxHistory), events[|events| - 1], Cap(maxHistory));
    }
  }

  /** In every run, the history is the newest `max(1, max_history)` pushed attempts in push order, and
      each entry says what its own attempt, and no other, has come to. */
  lemma HistoryIsNewestAttempts(events: seq<Event>, maxHistory: nat)
    ensures var s := Run(events, maxHistory);
            && OrderOk(s.order, s.attempts)
            && s.history == LastN(Entries(s.order, s.attempts), Cap(maxHistory))
  {
    RunInv(events, maxHistory);
  }

  /** Each entry of the history is that of its own attempt. */
  lemma EntryAt(events: seq<Event>, maxHistory: nat, k: nat)
    requires k < |Run(events, maxHistory).history|
    ensures var s := Run(events, maxHistory);
            var id := s.history[k].id;
            && id < |s.attempts| && HasEntry(s.attempts[id]) && s.history[k] == EntryOf(id, s.attempts[id])
            && ManualOk(s.attempts[id])
  {
    RunInv(events, maxHistory);
    hide Run, HasEntry, ManualOk;
    var s := Run(events, maxHistory);
    var all := Entries(s.order, s.attempts);
    var p := |all| - |s.history| + k;
    assert s.history[k] == all[p] == EntryOf(s.order[p], s.attempts[s.order[p]]);
  }

  /** An entry marked as a success belongs to an attempt whose promotion succeeded. */
  lemma SuccessMeansPromoted(events: seq<Event>, maxHistory: nat, k: nat)
    requires k < |Run(events, maxHistory).history| && Run(events, maxHistory).history[k].success
    ensures var s := Run(events, maxHistory);
            s.history[k].id < |s.attempts| && WasPromoted(s.attempts[s.history[k].id])
  {
    hide Run;
    EntryAt(events, maxHistory, k);
  }

  /** The promotion of attempt `i` succeeded as the `k`th event of the schedule. */
  ghost predicate PromotedAt(events: seq<Event>, maxHistory: nat, i: nat, k: nat) {
    && k < |events| && events[k] == Step(i, true)
    && var before := Run(events[..k], maxHistory);
    && i < |before.attempts| && before.attempts[i].stage.Promoting?
  }

  lemma NewlyPromoted(s: System, e: Event, cap: nat, i: nat)
    requires i < |Apply(s, e, cap).attempts| && WasPromoted(Apply(s, e, cap).attempts[i])
    ensures i < |s.attempts| && (WasPromoted(s.attempts[i]) || (e == Step(i, true) && s.attempts[i].stage.Promoting?))
  {
    hide CloseEntry, Push, EntryOf;
    if e.Step? && e.i < |s.attempts| {
      var s' := StepAttempt(s, e.i, e.ok, cap);
      assert s'.attempts == s.attempts[e.i := s'.attempts[e.i]];
    }
  }

  /** And "promoted" is not just a mark: there is a moment at which the promotion succeeded. */
  lemma {:induction false} PromotionHappened(events: seq<Event>, maxHistory: nat, i: nat)
    requires i < |Run(events, maxHistory).attempts| && WasPromoted(Run(events, maxHistory).attempts[i])
    ensures exists k: nat :: PromotedAt(events, maxHistory, i, k)
  {
    hide Apply, WasPromoted;
    var n := |events| - 1;
    var front := events[..n];
    NewlyPromoted(Run(front, maxHistory), events[n], Cap(maxHistory), i);
    if WasPromoted(Run(front, maxHistory).attempts[i]) {
      PromotionHappened(front, maxHistory, i);
      var k: nat :| PromotedAt(front, maxHistory, i, k);
      assert front[..k] == events[..k];
      assert PromotedAt(events, maxHistory, i, k);
    } else {
      assert PromotedAt(events, maxHistory, i, n);
    }
  }

  /** The counter counts exactly the attempts that came to the counting step. */
  lemma CountIsPromotions(events: seq<Event>, maxHistory: nat)
    ensures Run(events, maxHistory).count == SeqSum(Run(events, maxHistory).attempts, CountedPart)
  {
    RunInv(events, maxHistory);
  }

  // ---- where an attempt comes from -----------------------------------------------------------

  /** The `k`th event begins attempt `i`, of this kind, from the primary of that moment to this target; it is
      refused exactly if there is no primary, or no candidate. */
  ghost predicate BegunAt(events: seq<Event>, maxHistory: nat, k: nat, i: nat, a: Attempt) {
    && k < |events|
    && var before := Run(events[..k], maxHistory);
    && i == |before.attempts|
    && match events[k]
       case Initiate(candidate, lagging) =>
         && !a.manual && a.lagging == lagging
         && (candidate.Some? ==> a.newPrimary == candidate.value)
         && (before.primary.Some? ==> a.oldPrimary == before.primary.value)
         && (a.stage.Refused? <==> before.primary.None? || candidate.None?)
       case Manual(target) =>
         && a.manual && a.newPrimary == target && !a.stage.Refused?
         && (before.primary.Some? ==> a.oldPrimary == before.primary.value)
       case _ => false
  }

  /** An event begins at most one attempt, and leaves all that is fixed of the others. */
  lemma AttemptsStep(s: System, e: Event, cap: nat, i: nat)
    requires i < |Apply(s, e, cap).attempts|
    ensures var a := Apply(s, e, cap).attempts[i];
            if i < |s.attempts| then
              && a == s.attempts[i].(stage := a.stage)
              && (a.stage.Refused? <==> s.attempts[i].stage.Refused?)
            else i == |s.attempts| && (e.Initiate? || e.Manual?)
  {
    hide CloseEntry, Push, EntryOf;
    if e.Step? && e.i < |s.attempts| {
      var s' := StepAttempt(s, e.i, e.ok, cap);
      assert s'.attempts == s.attempts[e.i := s.attempts[e.i].(stage := s'.attempts[e.i].stage)];
    }
  }

  /** In every schedule each attempt has the target that it was begun with and the primary that it found. */
  lemma {:induction false} AttemptsComeFromEvents(events: seq<Event>, maxHistory: nat, i: nat)
    requires i < |Run(events, maxHistory).attempts|
    ensures exists k: nat :: BegunAt(events, maxHistory, k, i, Run(events, maxHistory).attempts[i])
  {
    var n := |events| - 1;
    var front := events[..n];
    var before, a := Run(front, maxHistory), Run(events, maxHistory).attempts[i];
    AttemptsStep(before, events[n], Cap(maxHistory), i);
    if i < |before.attempts| {
      hide Apply;
      AttemptsComeFromEvents(front, maxHistory, i);
      var k: nat :| BegunAt(front, maxHistory, k, i, before.attempts[i]);
      assert front[..k] == events[..k] && front[k] == events[k];
      assert BegunAt(events, maxHistory, k, i, a);
    } else {
      assert BegunAt(events, maxHistory, n, i, a);
    }
  }

  // ---- the primary ---------------------------------------------------------------------------

  /** The event that makes a node the current primary: it is set from outside, or an attempt whose promotion
      succeeded sets its own target. */
  ghost predicate Writes(s: System, e: Event, node: NodeId) {
    || e == SetPrimary(node)
    || (e.Step? && e.i < |s.attempts| && s.attempts[e.i].stage.Promoted? && s.attempts[e.i].newPrimary == node)
  }

  ghost predicate WritesAt(events: seq<Event>, maxHistory: nat, k: nat, node: NodeId) {
    k < |events| && Writes(Run(events[..k], maxHistory), events[k], node)
  }

  /** `k` is the last write, and it writes `node`. */
  ghost predicate LastWrite(events: seq<Event>, maxHistory: nat, k: nat, node: NodeId) {
    && WritesAt(events, maxHistory, k, node)
    && forall j: nat, other: NodeId :: k < j ==> !WritesAt(events, maxHistory, j, other)
  }

  lemma PrimaryStep(s: System, e: Event, cap: nat)
    ensures forall node: NodeId :: Writes(s, e, node) ==> Apply(s, e, cap).primary == Some(node)
    ensures (forall node: NodeId :: !Writes(s, e, node)) ==> Apply(s, e, cap).primary == s.primary
  {
    hide CloseEntry, Push, EntryOf;
    if e.Step? && e.i < |s.attempts| && s.attempts[e.i].stage.Promoted? {
      assert Writes(s, e, s.attempts[e.i].newPrimary);
    } else if e.SetPrimary? {
      assert Writes(s, e, e.node);
    }
  }

  lemma WritesAtFront(events: seq<Event>, maxHistory: nat, k: nat, node: NodeId)
    requires k < |events| - 1
    ensures WritesAt(events, maxHistory, k, node) <==> WritesAt(events[..|events| - 1], maxHistory, k, node)
  {
    assert events[..|events| - 1][..k] == events[..k];
  }

  /** In every schedule the primary is what the last write wrote, and none if there was no write. */
  lemma {:induction false} PrimaryIsLastWrite(events: seq<Event>, maxHistory: nat)
    ensures var primary := Run(events, maxHistory).primary;
            if primary.None? then forall k: nat, node: NodeId :: !WritesAt(events, maxHistory, k, node)
            else exists k: nat :: LastWrite(events, maxHistory, k, primary.value)
  {
    if events != [] {
      hide Apply, Writes;
      var n := |events| - 1;
      var front := events[..n];
      var before, after := Run(front, maxHistory), Run(events, maxHistory);
      PrimaryIsLastWrite(front, maxHistory);
      PrimaryStep(before, events[n], Cap(maxHistory));
      assert after == Apply(before, events[n], Cap(maxHistory));
      WritesInFront(events, maxHistory);
      if node: NodeId :| Writes(before, events[n], node) {
        assert LastWrite(events, maxHistory, n, after.primary.value);
      } else {
        assert after.primary == before.primary;
        assert forall node: NodeId :: !WritesAt(events, maxHistory, n, node);
        if before.primary.Some? {
          var k: nat :| LastWrite(front, maxHistory, k, before.primary.value);
          LastWriteStays(events, n, maxHistory, k, after.primary.value);
        }
      }
    }
  }

  lemma LastWriteStays(events: seq<Event>, n: nat, maxHistory: nat, k: nat, node: NodeId)
    requires |events| == n + 1 && LastWrite(events[..n], maxHistory, k, node)
    requires forall other: NodeId :: !WritesAt(events, maxHistory, n, other)
    ensures LastWrite(events, maxHistory, k, node)
  {
    hide Run, Writes;
    WritesInFront(events, maxHistory);
  }

  lemma WritesInFront(events: seq<Event>, maxHistory: nat)
    requires events != []
    ensures var n := |events| - 1;
            && (forall k: nat, node: NodeId :: k < n ==>
                  (WritesAt(events, maxHistory, k, node) <==> WritesAt(events[..n], maxHistory, k, node)))
            && (forall node: NodeId ::
                  WritesAt(events, maxHistory, n, node) <==> Writes(Run(events[..n], maxHistory), events[n], node))
  {
    hide Run, Writes;
    forall k: nat, node: NodeId | k < |events| - 1
      ensures WritesAt(events, maxHistory, k, node) <==> WritesAt(events[..|events| - 1], maxHistory, k, node)
    {
      WritesAtFront(events, maxHistory, k, node);
    }
  }

  /** Attempt `i` is the one whose promotion succeeded last, as the `k`th event. */
  ghost predicate PromotedLast(events: seq<Event>, maxHistory: nat, i: nat, k: nat) {
    && PromotedAt(events, maxHistory, i, k)
    && forall j: nat, m: nat :: k < m ==> !PromotedAt(events, maxHistory, j, m)
  }

  /** Event `w` writes `node`, and no other node has been written since. */
  ghost predicate OnlyWriteSince(events: seq<Event>, maxHistory: nat, w: nat, node: NodeId) {
    && WritesAt(events, maxHistory, w, node)
    && forall j: nat, other: NodeId :: w < j && WritesAt(events, maxHistory, j, other) ==> other == node
  }

  /** A node is the primary if and only if it has been written and no other node has been written since. */
  lemma PrimaryIff(events: seq<Event>, maxHistory: nat, node: NodeId)
    ensures Run(events, maxHistory).primary == Some(node) <==>
            exists w: nat :: OnlyWriteSince(events, maxHistory, w, node)
  {
    hide Run, Writes;
    PrimaryIsLastWrite(events, maxHistory);
    var primary := Run(events, maxHistory).primary;
    if primary == Some(node) {
      var w: nat :| LastWrite(events, maxHistory, w, node);
      assert OnlyWriteSince(events, maxHistory, w, node);
    }
    if w: nat :| OnlyWriteSince(events, maxHistory, w, node) {
      var last: nat :| LastWrite(events, maxHistory, last, primary.value);
      if last == w {
        OneWrite(Run(events[..w], maxHistory), events[w], primary.value, node);
      }
    }
  }

  /** In particular for the target of any attempt, the one promoted last among them: whoever wrote it, no
      other attempt may have overtaken it since with another target. */
  lemma TargetIsPrimaryIff(events: seq<Event>, maxHistory: nat, i: nat)
    requires i < |Run(events, maxHistory).attempts|
    ensures var s := Run(events, maxHistory);
            s.primary == Some(s.attempts[i].newPrimary) <==>
            exists w: nat :: OnlyWriteSince(events, maxHistory, w, s.attempts[i].newPrimary)
  {
    hide Run, OnlyWriteSince;
    PrimaryIff(events, maxHistory, Run(events, maxHistory).attempts[i].newPrimary);
  }

  lemma OneWrite(s: System, e: Event, a: NodeId, b: NodeId)
    requires Writes(s, e, a) && Writes(s, e, b)
    ensures a == b
  {
  }

  /** Two attempts: the second is promoted after the first (events 7 and 8) and sets the primary before it
      (events 9 and 10). */
  function Overtaking(): seq<Event> {
    [SetPrimary(1), Initiate(Some(2), false), Initiate(Some(3), false),
     Step(0, true), Step(0, true), Step(1, true), Step(1, true),
     Step(0, true), Step(1, true), Step(1, true), Step(0, true)]
  }

  function OvertakingAttempts(k: nat): seq<Attempt> {
    var first := if k < 4 then Chosen else if k < 5 then Pushed else if k < 8 then Promoting
                 else if k < 11 then Promoted else PrimarySet;
    var second := if k < 6 then Chosen else if k < 7 then Pushed else if k < 9 then Promoting
                  else if k < 10 then Promoted else PrimarySet;
    [Attempt(false, 1, 2, false, first), Attempt(false, 1, 3, false, second)]
  }

  lemma {:induction false} OvertakingStates(maxHistory: nat, k: nat)
    requires 3 <= k <= 11
    ensures var s := Run(Overtaking()[..k], maxHistory);
            && s.attempts == OvertakingAttempts(k)
            && s.primary == Some(if k < 10 then 1 else if k < 11 then 3 else 2)
  {
    hide Run, Push, CloseEntry, EntryOf, Cap;
    if k == 3 {
      OvertakingBegins(maxHistory);
    } else {
      OvertakingStates(maxHistory, k - 1);
      RunTo(Overtaking(), k - 1, maxHistory);
    }
  }

  lemma OvertakingBegins(maxHistory: nat)
    ensures var s := Run(Overtaking()[..3], maxHistory);
            s.attempts == OvertakingAttempts(3) && s.primary == Some(1)
  {
    var events := Overtaking();
    assert events[..0] == [] && Run([], maxHistory) == Initial();
    hide Run, Cap, StepAttempt;
    RunTo(events, 0, maxHistory);
    RunTo(events, 1, maxHistory);
    RunTo(events, 2, maxHistory);
  }

  lemma EarlierPromotionWins(maxHistory: nat)
    ensures var s := Run(Overtaking(), maxHistory);
            && PromotedLast(Overtaking(), maxHistory, 1, 8)
            && |s.attempts| == 2 && s.attempts[1].newPrimary == 3 && s.primary == Some(2)
  {
    hide Run;
    var events := Overtaking();
    assert events[..11] == events;
    OvertakingStates(maxHistory, 8);
    OvertakingStates(maxHistory, 9);
    OvertakingStates(maxHistory, 10);
    OvertakingStates(maxHistory, 11);
    forall i: nat, m: nat | 8 < m ensures !PromotedAt(events, maxHistory, i, m) {
      assert m == 9 || m == 10 || m >= |events|;
    }
  }

  predicate Ended(st: Stage) {
    st.Refused? || st.PromoteFailed? || st.FailedClosed? || st.Closed? || st.Finished?
  }

  /** The promotion of attempt `i` failed as the `k`th event of the schedule. */
  ghost predicate FailedAt(events: seq<Event>, maxHistory: nat, i: nat, k: nat) {
    && k < |events| && events[k] == Step(i, false)
    && var before := Run(events[..k], maxHistory);
    && i < |before.attempts| && before.attempts[i].stage.Promoting?
  }

  /** An attempt gets to `PromoteFailed` by a failing promotion only, and stays there. */
  lemma NewlyFailed(s: System, e: Event, cap: nat, i: nat)
    ensures var s' := Apply(s, e, cap);
            i < |s'.attempts| && s'.attempts[i].stage.PromoteFailed? <==>
            && i < |s.attempts|
            && (s.attempts[i].stage.PromoteFailed? || (e == Step(i, false) && s.attempts[i].stage.Promoting?))
  {
    hide CloseEntry, Push, EntryOf;
    if e.Step? && e.i < |s.attempts| {
      var s' := StepAttempt(s, e.i, e.ok, cap);
      assert s'.attempts == s.attempts[e.i := s'.attempts[e.i]];
    }
  }

  lemma FailedAtFront(events: seq<Event>, maxHistory: nat, i: nat, k: nat)
    requires k < |events| - 1
    ensures FailedAt(events, maxHistory, i, k) <==> FailedAt(events[..|events| - 1], maxHistory, i, k)
  {
    assert events[..|events| - 1][..k] == events[..k];
  }

  lemma {:induction false} FailureIsInSchedule(events: seq<Event>, maxHistory: nat, i: nat)
    ensures var s := Run(events, maxHistory);
            i < |s.attempts| && s.attempts[i].stage.PromoteFailed? <==>
            exists k: nat :: FailedAt(events, maxHistory, i, k)
  {
    hide Apply;
    if events != [] {
      var n := |events| - 1;
      var front := events[..n];
      FailureIsInSchedule(front, maxHistory, i);
      NewlyFailed(Run(front, maxHistory), events[n], Cap(maxHistory), i);
      forall k: nat | k < n ensures FailedAt(events, maxHistory, i, k) <==> FailedAt(front, maxHistory, i, k) {
        FailedAtFront(events, maxHistory, i, k);
      }
      hide Run;
      if k: nat :| FailedAt(front, maxHistory, i, k) {
        assert FailedAt(events, maxHistory, i, k);
      }
      if k: nat :| FailedAt(events, maxHistory, i, k) {
        assert k == n || FailedAt(front, maxHistory, i, k);
      }
      assert FailedAt(events, maxHistory, i, n) <==>
          events[n] == Step(i, false) && i < |Run(front, maxHistory).attempts|
          && Run(front, maxHistory).attempts[i].stage.Promoting?;
    }
  }

  /** When an attempt has ended, its entry is left open if and only if the attempt's promotion failed at
      some event of the schedule. */
  lemma EndedEntryOpenIff(events: seq<Event>, maxHistory: nat, k: nat)
    requires k < |Run(events, maxHistory).history|
    ensures var s := Run(events, maxHistory);
            var id := s.history[k].id;
            && id < |s.attempts|
            && (Ended(s.attempts[id].stage) ==>
                  (!s.history[k].ended <==> exists n: nat :: FailedAt(events, maxHistory, id, n)))
  {
    hide Run, FailedAt;
    EntryAt(events, maxHistory, k);
    FailureIsInSchedule(events, maxHistory, Run(events, maxHistory).history[k].id);
  }

  lemma RunTo(events: seq<Event>, k: nat, maxHistory: nat)
    requires k < |events|
    ensures Run(events[..k + 1], maxHistory) == Apply(Run(events[..k], maxHistory), events[k], Cap(maxHistory))
  {
    assert events[..k + 1][..k] == events[..k];
  }

  /** And that does happen: one attempt, no lag, and the promotion fails. */
  lemma FailedPromotionStaysOpen(maxHistory: nat)
    ensures var events := [SetPrimary(1), Initiate(Some(2), false), Step(0, true), Step(0, true), Step(0, false)];
            var s := Run(events, maxHistory);
            && |s.attempts| == 1 && s.attempts[0].stage.PromoteFailed?
            && s.history == [HistoryEntry(0, 1, 2, false, false, false)]
  {
    var events := [SetPrimary(1), Initiate(Some(2), false), Step(0, true), Step(0, true), Step(0, false)];
    assert events[..0] == [] && events[..5] == events && Run([], maxHistory) == Initial();
    hide Run;
    RunTo(events, 0, maxHistory);
    RunTo(events, 1, maxHistory);
    assert Run(events[..2], maxHistory).attempts == [Attempt(false, 1, 2, false, Chosen)];
    RunTo(events, 2, maxHistory);
    assert Run(events[..3], maxHistory).history == [HistoryEntry(0, 1, 2, false, false, false)];
    RunTo(events, 3, maxHistory);
    RunTo(events, 4, maxHistory);
  }
}
