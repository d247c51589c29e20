/** Overlapping replays: `execute_replay` runs a transaction in one lock section and takes it out of the
    active set in a later one, and any number of calls interleave. */
module ReplayProtocol {
  import opened Wrappers
  import opened Sums
  import opened FailoverReplay

  /** A call of `execute_replay`. `Gap` lies between its two lock sections: the transaction has run, under
      the `start`th accepted call of `start_replay`, and is still in the active set. */
  datatype Call = Gap(txId: nat, start: nat, committed: bool) | Returned(start: nat)

  datatype State = State(
    active: map<nat, Active>,
    starts: map<nat, nat>,       // which start each active replay comes from
    nextStart: nat,
    cancelled: set<nat>,         // the starts that were cancelled while active
    replaced: set<nat>,          // the starts whose transaction was started anew while active
    commits: seq<nat>,           // the starts whose transaction took effect, in order
    applied: seq<Entry>,         // the entries that took effect, in order
    calls: seq<Call>)

  datatype Event =
    | Start(journal: Journal)
    | Cancel(txId: nat)
    | Execute(txId: nat, backend: Option<Script>, walReached: bool)
    | Finish(i: nat)

  /** The start that a transaction is active under, if any. */
  function StartOf(s: State, txId: nat): set<nat> {
    if txId in s.starts then {s.starts[txId]} else {}
  }

  function Remove(s: State, txId: nat): State {
    s.(active := s.active - {txId}, starts := s.starts - {txId})
  }

  /** The transaction is active and its WAL position reached. */
  predicate Runs(cfg: Config, s: State, e: Event)
    requires e.Execute?
  {
    e.txId in s.active && e.txId in s.starts && WalReady(cfg, s.active[e.txId].journal, e.backend, e.walReached)
  }

  ghost function Todo(cfg: Config, s: State, e: Event): seq<Entry>
    requires e.Execute? && Runs(cfg, s, e)
  {
    ToApply(cfg, s.active[e.txId].journal.entries)
  }

  /** The first lock section of `execute_replay`. */
  ghost function RunIt(cfg: Config, s: State, e: Event): State
    requires e.Execute? && Runs(cfg, s, e)
  {
    var todo, start := Todo(cfg, s, e), s.starts[e.txId];
    var committed := Commits(cfg, todo, e.backend);
    s.(active := Ran(cfg, s.active, e.txId, e.backend),
       commits := if committed then s.commits + [start] else s.commits,
       applied := if committed then s.applied + todo else s.applied,
       calls := s.calls + [Gap(e.txId, start, committed)])
  }

  ghost function Apply(cfg: Config, s: State, e: Event): State {
    match e
    case Start(journal) =>
      if journal.incomplete then s
      else
        s.(active := Started(s.active, journal),
           starts := s.starts[journal.txId := s.nextStart],
           replaced := s.replaced + StartOf(s, journal.txId),
           nextStart := s.nextStart + 1)
    case Cancel(txId) => Remove(s, txId).(cancelled := s.cancelled + StartOf(s, txId))
    case Execute(_, _, _) => if Runs(cfg, s, e) then RunIt(cfg, s, e) else s
    case Finish(i) =>
      if i < |s.calls| && s.calls[i].Gap? then 
        Remove(s, s.calls[i].txId).(calls := s.calls[i := Returned(s.calls[i].start)])
      else s
  }

  function Initial(): State {
    State(map[], map[], 0, {}, {}, [], [], [])
  }

  ghost function Run(cfg: Config, events: seq<Event>): State {
    if events == [] then Initial()
    else Apply(cfg, Run(cfg, events[..|events| - 1]), events[|events| - 1])
  }

  // ---- how often a start takes effect --------------------------------------------------------

  ghost function IsStart(n: nat): nat -> nat {
    (m: nat) => if m == n then 1 else 0
  }

  ghost function Times(s: State, n: nat): nat {
    SeqSum(s.commits, IsStart(n))
  }

  /** No start takes effect twice. */
  ghost predicate AtMostOnce(s: State) {
    forall n: nat :: Times(s, n) <= 1
  }

  /** A call is in its gap after having committed this start. */
  ghost predicate InGap(s: State, txId: nat, start: nat) {
    exists i :: 0 <= i < |s.calls| && s.calls[i] == Gap(txId, start, true)
  }

  /** Starts are numbered apart; only past starts have taken effect; an active replay whose start has
      taken effect is in the gap of the call that did it; and a call in its gap says the truth. */
  ghost predicate Inv(s: State) {
    && (forall txId :: txId in s.starts ==> s.starts[txId] < s.nextStart)
    && (forall a, b :: a in s.starts && b in s.starts && a != b ==> s.starts[a] != s.starts[b])
    && (forall n: nat :: n >= s.nextStart ==> Times(s, n) == 0)
    && (forall txId :: txId in s.starts && Times(s, s.starts[txId]) > 0 ==> InGap(s, txId, s.starts[txId]))
    && (forall i :: 0 <= i < |s.calls| && s.calls[i].Gap? && s.calls[i].committed ==>
          s.calls[i].start < s.nextStart && Times(s, s.calls[i].start) > 0)
  }

  /** This event runs a transaction to its COMMIT once more, in the gap of a call that has done so. */
  ghost predicate StrikesGap(cfg: Config, s: State, e: Event) {
    && e.Execute? && Runs(cfg, s, e) && Commits(cfg, Todo(cfg, s, e), e.backend)
    && InGap(s, e.txId, s.starts[e.txId])
  }

  lemma TimesRun(cfg: Config, s: State, e: Event, n: nat)
    requires e.Execute? && Runs(cfg, s, e)
    ensures Times(RunIt(cfg, s, e), n) == Times(s, n)
              + if Commits(cfg, Todo(cfg, s, e), e.backend) && n == s.starts[e.txId] then 1 else 0
  {
    hide SeqSum, Commits;
    SeqSumAppend(s.commits, s.starts[e.txId], IsStart(n));
  }

  lemma GapStays(s: State, calls: seq<Call>, txId: nat, start: nat)
    requires InGap(s, txId, start) && |s.calls| <= |calls|
    requires forall i :: 0 <= i < |s.calls| && s.calls[i].Gap? && s.calls[i].txId == txId ==> calls[i] == s.calls[i]
    ensures InGap(s.(calls := calls), txId, start)
  {
    var i :| 0 <= i < |s.calls| && s.calls[i] == Gap(txId, start, true);
    assert calls[i] == Gap(txId, start, true);
  }

  lemma RunItInv(cfg: Config, s: State, e: Event)
    requires Inv(s) && e.Execute? && Runs(cfg, s, e)
    ensures Inv(RunIt(cfg, s, e))
  {
    hide Times, Commits, Ran;
    var s', start := RunIt(cfg, s, e), s.starts[e.txId];
    var committed := Commits(cfg, Todo(cfg, s, e), e.backend);
    forall n: nat ensures Times(s', n) == Times(s, n) + if committed && n == start then 1 else 0 {
      TimesRun(cfg, s, e, n);
    }
    forall txId | txId in s'.starts && Times(s', s'.starts[txId]) > 0 ensures InGap(s', txId, s'.starts[txId]) {
      if txId == e.txId && committed {
        assert s'.calls[|s.calls|] == Gap(txId, start, true);
      } else {
        GapStays(s, s'.calls, txId, s.starts[txId]);
      }
    }
  }

  lemma FinishInv(cfg: Config, s: State, i: nat)
    requires Inv(s) && i < |s.calls| && s.calls[i].Gap?
    ensures Inv(Apply(cfg, s, Finish(i)))
  {
    hide SeqSum;
    var s' := Apply(cfg, s, Finish(i));
    assert forall n: nat :: Times(s', n) == Times(s, n);
    forall txId | txId in s'.starts && Times(s', s'.starts[txId]) > 0 ensures InGap(s', txId, s'.starts[txId]) {
      GapStays(s, s'.calls, txId, s.starts[txId]);
    }
  }

  lemma InvStep(cfg: Config, s: State, e: Event)
    requires Inv(s)
    ensures Inv(Apply(cfg, s, e))
  {
    hide SeqSum, RunIt, Runs;
    match e
    case Execute(_, _, _) =>
      if Runs(cfg, s, e) {
        RunItInv(cfg, s, e);
      }
    case Finish(i) =>
      if i < |s.calls| && s.calls[i].Gap? {
        FinishInv(cfg, s, i);
      }
    case _ =>
      var s' := Apply(cfg, s, e);
      assert forall n: nat :: Times(s', n) == Times(s, n);
      forall txId, start | InGap(s, txId, start) ensures InGap(s', txId, start) {
        GapStays(s, s'.calls, txId, start);
      }
  }

  /** One event: it breaks "at most once" exactly if it strikes in a gap. */
  lemma OnceStep(cfg: Config, s: State, e: Event)
    requires Inv(s)
    ensures AtMostOnce(Apply(cfg, s, e)) <==> AtMostOnce(s) && !StrikesGap(cfg, s, e)
  {
    hide SeqSum, Commits, Runs, Ran, Todo;
    var s' := Apply(cfg, s, e);
    if e.Execute? && Runs(cfg, s, e) {
      RunsKnows(cfg, s, e);
      var start := s.starts[e.txId];
      var committed := Commits(cfg, Todo(cfg, s, e), e.backend);
      forall n: nat ensures Times(s', n) == Times(s, n) + if committed && n == start then 1 else 0 {
        TimesRun(cfg, s, e, n);
      }
      if InGap(s, e.txId, start) {
        var i :| 0 <= i < |s.calls| && s.calls[i] == Gap(e.txId, start, true);
        assert Times(s, s.calls[i].start) > 0;
      }
      assert committed ==> Times(s', start) == Times(s, start) + 1;
      assert forall n: nat :: Times(s, n) <= Times(s', n);
    } else {
      assert s'.commits == s.commits;
      assert forall n: nat :: Times(s', n) == Times(s, n);
    }
  }

  lemma RunsKnows(cfg: Config, s: State, e: Event)
    requires e.Execute? && Runs(cfg, s, e)
    ensures e.txId in s.active && e.txId in s.starts
  {
  }

  lemma {:induction false} RunInv(cfg: Config, events: seq<Event>)
    ensures Inv(Run(cfg, events))
  {
    hide Apply;
    if events == [] {
      assert forall n: nat :: Times(Initial(), n) == 0;
    } else {
      RunInv(cfg, events[..|events| - 1]);
      InvStep(cfg, Run(cfg, events[..|events| - 1]), events[|events| - 1]);
    }
  }

  ghost predicate StrikesAt(cfg: Config, events: seq<Event>, k: nat)
    requires k < |events|
  {
    StrikesGap(cfg, Run(cfg, events[..k]), events[k])
  }

  /** In every schedule: each start takes effect at most once if and only if no `execute_replay` that gets
      to its COMMIT begins in the gap of another one that has committed the same start. */
  lemma {:induction false} AppliedOnceIff(cfg: Config, events: seq<Event>)
    ensures AtMostOnce(Run(cfg, events)) <==> forall k :: 0 <= k < |events| ==> !StrikesAt(cfg, events, k)
  {
    hide Apply, StrikesGap, Inv;
    if events == [] {
      assert forall n: nat :: Times(Initial(), n) == 0;
    } else {
      hide AtMostOnce;
      var n := |events| - 1;
      var front := events[..n];
      AppliedOnceIff(cfg, front);
      RunInv(cfg, front);
      OnceStep(cfg, Run(cfg, front), events[n]);
      forall k | 0 <= k < n ensures StrikesAt(cfg, events, k) <==> StrikesAt(cfg, front, k) {
        assert front[..k] == events[..k];
      }
      assert StrikesAt(cfg, events, n) <==> StrikesGap(cfg, Run(cfg, front), events[n]);
    }
  }

  // ---- what becomes of a start ---------------------------------------------------------------

  ghost predicate IsActive(s: State, n: nat) {
    exists txId :: txId in s.starts && s.starts[txId] == n
  }

  /** Some call of `execute_replay` has run the transaction under this start. */
  ghost predicate WasRun(s: State, n: nat) {
    exists i :: 0 <= i < |s.calls| && s.calls[i].start == n
  }

  /** The start is active, or has been run, cancelled or replaced. */
  ghost predicate AccountedFor(s: State, n: nat) {
    IsActive(s, n) || WasRun(s, n) || n in s.cancelled || n in s.replaced
  }

  ghost predicate NoneForgotten(s: State) {
    forall n: nat :: n < s.nextStart ==> AccountedFor(s, n)
  }

  /** Starts are numbered apart; an active one has been neither cancelled nor replaced; and nothing is said
      of starts to come. */
  ghost predicate StartsInv(s: State) {
    && (forall txId :: txId in s.starts ==>
          s.starts[txId] < s.nextStart && s.starts[txId] !in s.cancelled && s.starts[txId] !in s.replaced)
    && (forall a, b :: a in s.starts && b in s.starts && a != b ==> s.starts[a] != s.starts[b])
    && (forall n :: n in s.cancelled || n in s.replaced ==> n < s.nextStart)
    && (forall i :: 0 <= i < |s.calls| ==> s.calls[i].start < s.nextStart)
  }

  /** A call takes a transaction out of the active set that has been started anew and not run since. */
  ghost predicate Sweeps(s: State, e: Event) {
    && e.Finish? && e.i < |s.calls| && s.calls[e.i].Gap?
    && s.calls[e.i].txId in s.starts && !WasRun(s, s.starts[s.calls[e.i].txId])
  }

  lemma StartsInvStep(cfg: Config, s: State, e: Event)
    requires StartsInv(s)
    ensures StartsInv(Apply(cfg, s, e))
  {
    hide Commits, Ran, WalReady, ToApply;
  }

  /** What an event does to the starts. */
  lemma RunStays(cfg: Config, s: State, e: Event, n: nat)
    ensures WasRun(s, n) ==> WasRun(Apply(cfg, s, e), n)
    ensures WasRun(Apply(cfg, s, e), n) ==>
              WasRun(s, n) || (e.Execute? && Runs(cfg, s, e) && s.starts[e.txId] == n)
    ensures e.Execute? && Runs(cfg, s, e) ==> WasRun(Apply(cfg, s, e), s.starts[e.txId])
  {
    hide Commits, Ran, WalReady, ToApply;
    var s' := Apply(cfg, s, e);
    if i :| 0 <= i < |s.calls| && s.calls[i].start == n {
      assert s'.calls[i].start == n;
    }
    if i :| 0 <= i < |s'.calls| && s'.calls[i].start == n {
      assert i < |s.calls| ==> s.calls[i].start == n;
    }
    if e.Execute? && Runs(cfg, s, e) {
      assert s'.calls[|s.calls|].start == s.starts[e.txId];
    }
  }

  /** An active start goes on being active, unless its own transaction is started, cancelled or taken out. */
  lemma ActiveStays(cfg: Config, s: State, e: Event, txId: nat)
    requires txId in s.starts
    ensures var s', n := Apply(cfg, s, e), s.starts[txId];
            || IsActive(s', n)
            || (e.Start? && e.journal.txId == txId && n in s'.replaced)
            || (e.Cancel? && e.txId == txId && n in s'.cancelled)
            || (e.Finish? && e.i < |s.calls| && s.calls[e.i].Gap? && s.calls[e.i].txId == txId)
  {
    hide Commits, Ran, WalReady, ToApply;
    var s' := Apply(cfg, s, e);
    if txId in s'.starts && s'.starts[txId] == s.starts[txId] {
      assert IsActive(s', s.starts[txId]);
    }
  }

  /** A start that is not active does not become so, is not run, and is neither cancelled nor replaced. */
  lemma InactiveStays(cfg: Config, s: State, e: Event, n: nat)
    requires n < s.nextStart && !IsActive(s, n)
    ensures var s' := Apply(cfg, s, e);
            && !IsActive(s', n) && (WasRun(s', n) ==> WasRun(s, n))
            && (n in s'.cancelled ==> n in s.cancelled) && (n in s'.replaced ==> n in s.replaced)
  {
    hide Commits, Ran, WalReady, ToApply;
    RunStays(cfg, s, e, n);
    var s' := Apply(cfg, s, e);
    forall txId | txId in s'.starts ensures s'.starts[txId] != n {
    }
  }

  lemma SweptIsGone(cfg: Config, s: State, e: Event)
    requires StartsInv(s) && Sweeps(s, e)
    ensures var s', n := Apply(cfg, s, e), s.starts[s.calls[e.i].txId];
            n < s'.nextStart && !AccountedFor(s', n)
  {
    RunStays(cfg, s, e, s.starts[s.calls[e.i].txId]);
  }

  /** One event: it makes a start forgotten exactly if it sweeps one away. */
  lemma ForgottenStep(cfg: Config, s: State, e: Event)
    requires StartsInv(s)
    ensures NoneForgotten(Apply(cfg, s, e)) <==> NoneForgotten(s) && !Sweeps(s, e)
  {
    var s' := Apply(cfg, s, e);
    assert s.nextStart <= s'.nextStart && s.cancelled <= s'.cancelled && s.replaced <= s'.replaced by {
      hide Commits, Ran, WalReady, ToApply;
    }
    StartIsActive(cfg, s, e);
    if Sweeps(s, e) {
      SweptIsGone(cfg, s, e);
    } else if n: nat :| n < s.nextStart && !AccountedFor(s, n) {
      InactiveStays(cfg, s, e, n);
      assert !AccountedFor(s', n);
    } else {
      hide Apply;
      forall n: nat | n < s'.nextStart ensures AccountedFor(s', n) {
        if n < s.nextStart {
          assert AccountedFor(s, n);
          RunStays(cfg, s, e, n);
          if IsActive(s, n) && !WasRun(s, n) {
            var txId :| txId in s.starts && s.starts[txId] == n;
            ActiveStays(cfg, s, e, txId);
          }
        }
      }
    }
  }

  lemma StartIsActive(cfg: Config, s: State, e: Event)
    ensures var s' := Apply(cfg, s, e);
            s'.nextStart == s.nextStart || (s'.nextStart == s.nextStart + 1 && IsActive(s', s.nextStart))
  {
    hide Commits, Ran, WalReady, ToApply;
    var s' := Apply(cfg, s, e);
    if e.Start? && !e.journal.incomplete {
      assert s'.starts[e.journal.txId] == s.nextStart;
    }
  }

  lemma {:induction false} RunStartsInv(cfg: Config, events: seq<Event>)
    ensures StartsInv(Run(cfg, events))
  {
    hide Apply;
    if events != [] {
      RunStartsInv(cfg, events[..|events| - 1]);
      StartsInvStep(cfg, Run(cfg, events[..|events| - 1]), events[|events| - 1]);
    }
  }

  ghost predicate SweepsAt(cfg: Config, events: seq<Event>, k: nat)
    requires k < |events|
  {
    Sweeps(Run(cfg, events[..k]), events[k])
  }

  /** In every schedule: every accepted start is active, or has been run, cancelled or replaced, if and only
      if no call of `execute_replay` took a transaction out of the active set that had been started anew
      since it ran and not run since then. */
  lemma {:induction false} StartsKeptIff(cfg: Config, events: seq<Event>)
    ensures NoneForgotten(Run(cfg, events)) <==> forall k :: 0 <= k < |events| ==> !SweepsAt(cfg, events, k)
  {
    if events != [] {
      hide Apply, NoneForgotten, Sweeps, StartsInv;
      var n := |events| - 1;
      var front := events[..n];
      StartsKeptIff(cfg, front);
      RunStartsInv(cfg, front);
      ForgottenStep(cfg, Run(cfg, front), events[n]);
      forall k | 0 <= k < n ensures SweepsAt(cfg, events, k) <==> SweepsAt(cfg, front, k) {
        assert front[..k] == events[..k];
      }
      assert SweepsAt(cfg, events, n) <==> Sweeps(Run(cfg, front), events[n]);
    }
  }

  // ---- schedules on which these fail ---------------------------------------------------------

  lemma RunSnoc(cfg: Config, events: seq<Event>, e: Event)
    ensures Run(cfg, events + [e]) == Apply(cfg, Run(cfg, events), e)
  {
    assert (events + [e])[..|events|] == events;
  }

  /** One start, and two calls that both run before either removes the replay. */
  lemma TwoCallsApplyTwice(cfg: Config, journal: Journal, backend: Option<Script>)
    requires !journal.incomplete && WalReady(cfg, journal, backend, true)
    requires Commits(cfg, ToApply(cfg, journal.entries), backend)
    ensures var execute := Execute(journal.txId, backend, true);
            var s := Run(cfg, [Start(journal)] + [execute] + [execute]);
            && s.commits == [0, 0]
            && s.applied == ToApply(cfg, journal.entries) + ToApply(cfg, journal.entries)
  {
    assert Run(cfg, []) == Initial();
    hide Run, Commits, ToApply, Ledger, WalReady;
    var execute := Execute(journal.txId, backend, true);
    RunSnoc(cfg, [], Start(journal));
    assert [] + [Start(journal)] == [Start(journal)];
    var s1 := Run(cfg, [Start(journal)]);
    RunSnoc(cfg, [Start(journal)], execute);
    var s2 := Run(cfg, [Start(journal)] + [execute]);
    assert Runs(cfg, s1, execute);
    RanKeeps(cfg, s1.active, journal.txId, backend);
    assert Runs(cfg, s2, execute);
    hide Ran;
    assert s2.commits == [0] && s2.applied == ToApply(cfg, journal.entries);
    RunSnoc(cfg, [Start(journal)] + [execute], execute);
  }

  /** The transaction is started again while the call that ran it has yet to take it out: the second start
      is gone without having run. */
  lemma SecondStartIsSwept(cfg: Config, journal: Journal, backend: Option<Script>)
    requires !journal.incomplete && WalReady(cfg, journal, backend, true)
    ensures var execute := Execute(journal.txId, backend, true);
            var s := Run(cfg, [Start(journal)] + [execute] + [Start(journal)] + [Finish(0)]);
            s.nextStart == 2 && !AccountedFor(s, 1)
  {
    assert Run(cfg, []) == Initial();
    hide Run, Commits, ToApply, Ledger, WalReady, Ran;
    var execute := Execute(journal.txId, backend, true);
    RunSnoc(cfg, [], Start(journal));
    assert [] + [Start(journal)] == [Start(journal)];
    RunSnoc(cfg, [Start(journal)], execute);
    var s2 := Run(cfg, [Start(journal)] + [execute]);
    assert s2.starts == map[journal.txId := 0] && s2.calls[0].Gap? && s2.calls[0].txId == journal.txId;
    RunSnoc(cfg, [Start(journal)] + [execute], Start(journal));
    RunSnoc(cfg, [Start(journal)] + [execute] + [Start(journal)], Finish(0));
  }

  lemma RanKeeps(cfg: Config, active: map<nat, Active>, txId: nat, backend: Option<Script>)
    requires txId in active
    ensures txId in Ran(cfg, active, txId, backend)
    ensures Ran(cfg, active, txId, backend)[txId].journal == active[txId].journal
  {
  }

  /** And there are such journals and backends: one statement, and a backend that does as it is told. */
  lemma SomeTransactionCommits(cfg: Config)
    ensures var entry := Entry(0, "INSERT INTO t VALUES (1)", Insert, None, None, false);
            var backend := Some(Script((k: nat) => true, Begun, (k: nat) => Rows(None), Tag(true), true));
            ToApply(cfg, [entry]) == [entry] && Commits(cfg, ToApply(cfg, [entry]), backend)
  {
    var entry := Entry(0, "INSERT INTO t VALUES (1)", Insert, None, None, false);
    var backend := Script((k: nat) => true, Begun, (k: nat) => Rows(None), Tag(true), true);
    assert [entry][..0] == [] && ToApply(cfg, []) == [];
    assert backend.connects(0);
  }
}
