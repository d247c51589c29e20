/** Replaying a journaled transaction on a new node: one BEGIN ... COMMIT that the driver owns,
    against a backend that may answer anything at any point. */
module FailoverReplay {
  import opened Wrappers
  import opened Sums

  datatype StatementType = Select | Insert | Update | Delete | Ddl | Transaction | Set | Other

  /** A journal entry. `boundary` says that its SQL may end the enclosing transaction or cannot be
      split into statements, which the client refuses before sending anything. */
  datatype Entry = Entry(
    sequence: nat,
    statement: string,
    kind: StatementType,
    rowsAffected: Option<nat>,
    checksum: Option<nat>,
    boundary: bool)

  datatype Journal = Journal(
    txId: nat, entries: seq<Entry>, currentSequence: nat, startLsn: nat, incomplete: bool)

  datatype Config = Config(
    verifyResults: bool, retryOnError: bool, maxRetries: nat, skipReadOnly: bool, waitForWalSync: bool)

  datatype Reason = NoBackend | ConnectFailed | Diverged | Refused | Backend | RolledBack | CommitTag | CommitFailed

  datatype StatementResult = StatementResult(
    sequence: nat, success: bool, checksumMatched: Option<bool>, rowsMatched: Option<bool>, error: Option<Reason>)

  datatype ReplayResult = ReplayResult(
    txId: nat, success: bool, replayed: nat, skipped: nat, failed: nat, diverged: nat,
    results: seq<StatementResult>)

  // ---- the target node -----------------------------------------------------------------------

  /** The statements the target holds durably, and those of the transaction open on this
      connection. A state of the database is a function of the statements applied to it. */
  datatype Target = Target(durable: seq<Entry>, inTx: Option<seq<Entry>>)

  /** Answers of the backend. An error leaves open whether the request took effect. */
  datatype BeginAnswer = Begun | BeginError(effective: bool)
  datatype StatementAnswer = Rows(count: Option<nat>) | StatementError(applied: bool)
  datatype CommitAnswer = Tag(isCommit: bool) | CommitError(committed: bool)

  datatype Script = Script(
    connects: nat -> bool,
    begin: BeginAnswer,
    statements: nat -> StatementAnswer,
    commit: CommitAnswer,
    rollbackOk: bool)

  function OnBegin(t: Target, a: BeginAnswer): Target {
    if a.Begun? || a.effective then t.(inTx := Some([])) else t
  }

  /** A statement lands in the open transaction, or at once when there is none. */
  function OnStatement(t: Target, e: Entry, a: StatementAnswer): Target {
    if a.StatementError? && !a.applied then t
    else if t.inTx.Some? then t.(inTx := Some(t.inTx.value + [e]))
    else t.(durable := t.durable + [e])
  }

  function OnCommit(t: Target, a: CommitAnswer): Target {
    if t.inTx.Some? && TakesEffect(a) then Target(t.durable + t.inTx.value, None)
    else t.(inTx := None)
  }

  function OnRollback(t: Target, ok: bool): Target {
    if ok then t.(inTx := None) else t
  }

  /** Closing the connection aborts a transaction still open on it. */
  function OnClose(t: Target): Target {
    t.(inTx := None)
  }

  // ---- what is to be applied -----------------------------------------------------------------

  predicate ReadOnlySkip(cfg: Config, e: Entry) {
    cfg.skipReadOnly && e.kind.Select?
  }

  function ToApply(cfg: Config, entries: seq<Entry>): seq<Entry> {
    if entries == [] then []
    else
      var front, last := ToApply(cfg, entries[..|entries| - 1]), entries[|entries| - 1];
      if ReadOnlySkip(cfg, last) || last.kind.Transaction? then front else front + [last]
  }

  /** The reads that are skipped, each of which is reported as a success. */
  function SkippedReads(cfg: Config, entries: seq<Entry>): seq<StatementResult> {
    if entries == [] then []
    else
      var front, last := SkippedReads(cfg, entries[..|entries| - 1]), entries[|entries| - 1];
      if ReadOnlySkip(cfg, last) then front + [StatementResult(last.sequence, true, None, None, None)] else front
  }

  /** `places` are the places in the journal, in order, of the entries that satisfy `p`. */
  ghost predicate PlacesOf(entries: seq<Entry>, p: Entry -> bool, places: seq<nat>) {
    && (forall j, k :: 0 <= j < k < |places| ==> places[j] < places[k])
    && (forall k :: 0 <= k < |places| ==> places[k] < |entries| && p(entries[places[k]]))
    && (forall i :: 0 <= i < |entries| && p(entries[i]) ==> i in places)
  }

  lemma PlacesAppend(entries: seq<Entry>, last: Entry, p: Entry -> bool, places: seq<nat>)
    requires PlacesOf(entries, p, places)
    ensures PlacesOf(entries + [last], p, if p(last) then places + [|entries|] else places)
  {
    var all, places' := entries + [last], if p(last) then places + [|entries|] else places;
    forall i | 0 <= i < |all| && p(all[i]) ensures i in places' {
      if i < |entries| {
        assert i in places;
      } else {
        assert places'[|places|] == i;
      }
    }
  }

  /** An entry is to be applied if it is no transaction control and no read that is to be skipped. */
  function Applied(cfg: Config): Entry -> bool {
    (e: Entry) => !e.kind.Transaction? && !(cfg.skipReadOnly && e.kind.Select?)
  }

  function SkippedRead(cfg: Config): Entry -> bool {
    (e: Entry) => cfg.skipReadOnly && e.kind.Select?
  }

  /** `todo` are the entries to be applied, all of them, in the order of the journal. */
  ghost predicate InJournalOrder(cfg: Config, entries: seq<Entry>, todo: seq<Entry>) {
    exists places: seq<nat> :: PlacesOf(entries, Applied(cfg), places) && Picked(entries, places, todo)
  }

  ghost predicate Picked(entries: seq<Entry>, places: seq<nat>, todo: seq<Entry>) {
    && |todo| == |places|
    && forall k :: 0 <= k < |places| ==> places[k] < |entries| && todo[k] == entries[places[k]]
  }

  /** `results` report the skipped reads, all of them, in the order of the journal, as successes. */
  ghost predicate ReadsReported(cfg: Config, entries: seq<Entry>, results: seq<StatementResult>) {
    exists places: seq<nat> :: PlacesOf(entries, SkippedRead(cfg), places) && Reported(entries, places, results)
  }

  ghost predicate Reported(entries: seq<Entry>, places: seq<nat>, results: seq<StatementResult>) {
    && |results| == |places|
    && forall k :: 0 <= k < |places| ==>
         places[k] < |entries| && results[k] == StatementResult(entries[places[k]].sequence, true, None, None, None)
  }

  lemma NoPlaces(p: Entry -> bool)
    ensures PlacesOf([], p, []) && Picked([], [], []) && Reported([], [], [])
  {
  }

  lemma PickedAppend(entries: seq<Entry>, last: Entry, places: seq<nat>, todo: seq<Entry>)
    requires Picked(entries, places, todo)
    ensures Picked(entries + [last], places, todo)
    ensures Picked(entries + [last], places + [|entries|], todo + [last])
  {
  }

  lemma ReportedAppend(entries: seq<Entry>, last: Entry, places: seq<nat>, results: seq<StatementResult>)
    requires Reported(entries, places, results)
    ensures Reported(entries + [last], places, results)
    ensures Reported(entries + [last], places + [|entries|],
                     results + [StatementResult(last.sequence, true, None, None, None)])
  {
  }

  lemma {:induction false} ToApplyInOrder(cfg: Config, entries: seq<Entry>)
    ensures InJournalOrder(cfg, entries, ToApply(cfg, entries))
  {
    hide PlacesOf, Picked;
    if entries == [] {
      NoPlaces(Applied(cfg));
    } else {
      var front, last := entries[..|entries| - 1], entries[|entries| - 1];
      ToApplyInOrder(cfg, front);
      var places: seq<nat> :| PlacesOf(front, Applied(cfg), places) && Picked(front, places, ToApply(cfg, front));
      PlacesAppend(front, last, Applied(cfg), places);
      PickedAppend(front, last, places, ToApply(cfg, front));
      assert entries == front + [last];
    }
  }

  lemma {:induction false} SkippedInOrder(cfg: Config, entries: seq<Entry>)
    ensures ReadsReported(cfg, entries, SkippedReads(cfg, entries))
  {
    hide PlacesOf, Reported;
    if entries == [] {
      NoPlaces(SkippedRead(cfg));
    } else {
      var front, last := entries[..|entries| - 1], entries[|entries| - 1];
      SkippedInOrder(cfg, front);
      var places: seq<nat> :|
        PlacesOf(front, SkippedRead(cfg), places) && Reported(front, places, SkippedReads(cfg, front));
      PlacesAppend(front, last, SkippedRead(cfg), places);
      ReportedAppend(front, last, places, SkippedReads(cfg, front));
      assert entries == front + [last];
    }
  }

  /** The entry ran and, under `verify_results`, did what the journal says. */
  predicate Faithful(cfg: Config, e: Entry, a: StatementAnswer) {
    && !e.boundary && a.Rows?
    && (cfg.verifyResults ==> e.checksum.None? && (e.rowsAffected.Some? ==> a.count == e.rowsAffected))
  }

  /** The first `n` entries did. */
  ghost predicate FaithfulBefore(cfg: Config, todo: seq<Entry>, s: Script, n: nat)
    requires n <= |todo|
  {
    forall k :: 0 <= k < n ==> Faithful(cfg, todo[k], s.statements(k))
  }

  predicate Connects(cfg: Config, s: Script) {
    exists k :: 0 <= k <= (if cfg.retryOnError then cfg.maxRetries else 0) && s.connects(k)
  }

  /** The run gets as far as sending COMMIT. */
  ghost predicate ReachesCommit(cfg: Config, todo: seq<Entry>, backend: Option<Script>) {
    backend.Some? && Connects(cfg, backend.value) && backend.value.begin.Begun?
    && FaithfulBefore(cfg, todo, backend.value, |todo|)
  }

  predicate Confirmed(a: CommitAnswer) {
    a.Tag? && a.isCommit
  }

  /** The COMMIT takes effect, whether or not the driver hears of it. */
  predicate TakesEffect(a: CommitAnswer) {
    if a.Tag? then a.isCommit else a.committed
  }

  /** The run leaves its entries on the target. */
  ghost predicate Commits(cfg: Config, todo: seq<Entry>, backend: Option<Script>) {
    ReachesCommit(cfg, todo, backend) && TakesEffect(backend.value.commit)
  }

  // ---- the driver ----------------------------------------------------------------------------

  function FailedEntry(e: Entry, why: Reason): StatementResult {
    StatementResult(e.sequence, false, None, None, Some(why))
  }

  /** Every entry from `from` on is reported as failed. */
  method FailAll(todo: seq<Entry>, from: nat, why: Reason) returns (results: seq<StatementResult>)
    requires from <= |todo|
    ensures |results| == |todo| - from
    ensures forall k :: 0 <= k < |results| ==> results[k] == FailedEntry(todo[from + k], why)
    ensures AllSucceed(results) <==> results == []
    ensures why != Diverged ==> Tally(results) == (0, |results|, 0)
  {
    results := [];
    for k := from to |todo|
      invariant |results| == k - from
      invariant forall j :: 0 <= j < |results| ==> results[j] == FailedEntry(todo[from + j], why)
      invariant why != Diverged ==> Tally(results) == (0, |results|, 0)
    {
      TallyAppend(results, FailedEntry(todo[k], why));
      results := results + [StatementResult(todo[k].sequence, false, None, None, Some(why))];
    }
    assert results != [] ==> !results[0].success;
  }

  /** The retry loop around the connection attempt. */
  method Connect(cfg: Config, s: Script) returns (connected: bool)
    ensures connected <==> Connects(cfg, s)
  {
    var attempt := 0;
    var last := if cfg.retryOnError then cfg.maxRetries else 0;
    while !s.connects(attempt)
      invariant attempt <= last
      invariant forall k :: 0 <= k < attempt ==> !s.connects(k)
      decreases last - attempt
    {
      if !cfg.retryOnError || attempt >= cfg.maxRetries {
        return false;
      }
      attempt := attempt + 1;
    }
    return true;
  }

  /** The verdict on one statement. Checksums are not recomputed: a recorded one counts as a mismatch. */
  function Judge(cfg: Config, e: Entry, a: StatementAnswer): (r: StatementResult)
    ensures r.sequence == e.sequence
    ensures r.success <==>
            && a.Rows?
            && (cfg.verifyResults ==> e.checksum == None && (e.rowsAffected == None || a.count == e.rowsAffected))
    ensures !e.boundary ==> (r.success <==> Faithful(cfg, e, a))
    ensures r.rowsMatched == if a.Rows? && e.rowsAffected.Some? then Some(a.count == e.rowsAffected) else None
    ensures r.checksumMatched == if a.Rows? && cfg.verifyResults && e.checksum.Some? then Some(false) else None
    ensures r.error == Some(Refused) <==> !a.Rows? && e.boundary
    ensures e.boundary && a.StatementError? ==> !r.success
    ensures r.error.Some? <==> !r.success
    ensures r.error == Some(Diverged) <==> a.Rows? && !r.success
  {
    if a.Rows? then
      var rowsMatched := e.rowsAffected.None? || a.count == e.rowsAffected;
      var checksumMatched := e.checksum.None?;
      var diverged := cfg.verifyResults && (!rowsMatched || !checksumMatched);
      StatementResult(
        e.sequence, !diverged,
        if cfg.verifyResults && e.checksum.Some? then Some(checksumMatched) else None,
        if e.rowsAffected.Some? then Some(rowsMatched) else None,
        if diverged then Some(Diverged) else None)
    else
      StatementResult(e.sequence, false, None, None, Some(if e.boundary then Refused else Backend))
  }

  /** The answer to an entry: one that may end the transaction is refused and never sent. */
  function AnswerTo(e: Entry, a: StatementAnswer): StatementAnswer {
    if e.boundary then StatementError(false) else a
  }

  /** The report on an entry that was sent. */
  function Sent(cfg: Config, todo: seq<Entry>, s: Script, k: nat): StatementResult
    requires k < |todo|
  {
    Judge(cfg, todo[k], AnswerTo(todo[k], s.statements(k)))
  }

  /** The report on the `k`th entry, once there is a connection: it was sent if BEGIN and all entries
      before it went well, and rolled back with them otherwise. */
  ghost function Report(cfg: Config, todo: seq<Entry>, s: Script, k: nat): StatementResult
    requires k < |todo|
  {
    if s.begin.Begun? && FaithfulBefore(cfg, todo, s, k) then Sent(cfg, todo, s, k)
    else FailedEntry(todo[k], RolledBack)
  }

  function CommitReport(journal: Journal, a: CommitAnswer): seq<StatementResult> {
    if Confirmed(a) then []
    else [StatementResult(journal.currentSequence, false, None, None, Some(if a.Tag? then CommitTag else CommitFailed))]
  }

  function AllFailed(todo: seq<Entry>, why: Reason): seq<StatementResult> {
    seq(|todo|, k requires 0 <= k < |todo| => FailedEntry(todo[k], why))
  }

  /** All reports on the entries to apply, and the one on COMMIT if it was sent and not confirmed. */
  ghost function Reports(
    cfg: Config, journal: Journal, todo: seq<Entry>, backend: Option<Script>): seq<StatementResult>
  {
    if backend.None? then AllFailed(todo, NoBackend)
    else if !Connects(cfg, backend.value) then AllFailed(todo, ConnectFailed)
    else ConnectedReports(cfg, journal, todo, backend.value)
  }

  ghost function ConnectedReports(cfg: Config, journal: Journal, todo: seq<Entry>, s: Script): seq<StatementResult> {
    seq(|todo|, k requires 0 <= k < |todo| => Report(cfg, todo, s, k))
    + if s.begin.Begun? && FaithfulBefore(cfg, todo, s, |todo|) then CommitReport(journal, s.commit) else []
  }

  /** The reports, one by one: an entry's own sequence number; a failure with its reason if nothing could be
      sent, or if BEGIN or an entry before it failed; and last, if COMMIT was sent and not confirmed, its
      failure under the journal's current sequence number. */
  lemma ReportsExplained(cfg: Config, journal: Journal, todo: seq<Entry>, backend: Option<Script>)
    ensures var reports := Reports(cfg, journal, todo, backend);
            var sent := ReachesCommit(cfg, todo, backend) && !Confirmed(backend.value.commit);
            && |reports| == |todo| + (if sent then 1 else 0)
            && (sent ==>
                  var why := if backend.value.commit.Tag? then CommitTag else CommitFailed;
                  reports[|todo|] == StatementResult(journal.currentSequence, false, None, None, Some(why)))
            && forall k :: 0 <= k < |todo| ==> EntryExplained(cfg, todo, backend, k, reports[k])
  {
    hide Judge, FaithfulBefore;
  }

  ghost predicate EntryExplained(cfg: Config, todo: seq<Entry>, backend: Option<Script>, k: nat, x: StatementResult)
    requires k < |todo|
  {
    && x.sequence == todo[k].sequence
    && (if backend.None? then !x.success && x.error == Some(NoBackend)
        else if !Connects(cfg, backend.value) then !x.success && x.error == Some(ConnectFailed)
        else if !backend.value.begin.Begun? || !FaithfulBefore(cfg, todo, backend.value, k) then
          !x.success && x.error == Some(RolledBack)
        else x == Judge(cfg, todo[k], AnswerTo(todo[k], backend.value.statements(k))))
  }

  // ---- tallies -------------------------------------------------------------------------------

  function Succeeded(r: StatementResult): nat {
    if r.success then 1 else 0
  }

  function WasDivergence(r: StatementResult): nat {
    if !r.success && r.error == Some(Diverged) then 1 else 0
  }

  function OtherFailure(r: StatementResult): nat {
    if !r.success && r.error != Some(Diverged) then 1 else 0
  }

  /** How many results are successes, failures, and divergences. */
  ghost function Tally(results: seq<StatementResult>): (nat, nat, nat) {
    (SeqSum(results, Succeeded), SeqSum(results, OtherFailure), SeqSum(results, WasDivergence))
  }

  lemma TallyAppend(results: seq<StatementResult>, r: StatementResult)
    ensures var t := Tally(results);
            Tally(results + [r]) == (t.0 + Succeeded(r), t.1 + OtherFailure(r), t.2 + WasDivergence(r))
  {
    SeqSumAppend(results, r, Succeeded);
    SeqSumAppend(results, r, OtherFailure);
    SeqSumAppend(results, r, WasDivergence);
  }

  lemma TallyJoin(a: seq<StatementResult>, b: seq<StatementResult>)
    ensures Tally(a + b) == (Tally(a).0 + Tally(b).0, Tally(a).1 + Tally(b).1, Tally(a).2 + Tally(b).2)
  {
    SeqSumConcat(a, b, Succeeded);
    SeqSumConcat(a, b, OtherFailure);
    SeqSumConcat(a, b, WasDivergence);
  }

  lemma {:induction false} TallyTotal(results: seq<StatementResult>)
    ensures Tally(results).0 + Tally(results).1 + Tally(results).2 == |results|
    ensures AllSucceed(results) <==> Tally(results).1 + Tally(results).2 == 0
  {
    if results != [] {
      var n := |results| - 1;
      TallyTotal(results[..n]);
      assert forall k :: 0 <= k < n ==> results[..n][k] == results[k];
    }
  }

  datatype Progress = Progress(
    replayed: nat, failed: nat, diverged: nat, results: seq<StatementResult>, next: nat, ok: bool)

  /** The statement loop, up to the first failure or divergence. `next` is the first statement that
      never ran. */
  method RunStatements(cfg: Config, todo: seq<Entry>, s: Script, t0: Target) returns (p: Progress, t: Target)
    requires t0.inTx == Some([])
    ensures p.next <= |todo| && |p.results| == p.next
    ensures forall k :: 0 <= k < p.next ==> FaithfulBefore(cfg, todo, s, k) && p.results[k] == Sent(cfg, todo, s, k)
    ensures p.ok <==> FaithfulBefore(cfg, todo, s, |todo|)
    ensures p.ok ==> p.next == |todo| && t == t0.(inTx := Some(todo))
    ensures !p.ok ==> !FaithfulBefore(cfg, todo, s, p.next)
    ensures Tally(p.results) == (p.replayed, p.failed, p.diverged)
    ensures p.ok <==> p.failed + p.diverged == 0
    ensures t.durable == t0.durable && t.inTx.Some?
  {
    hide SeqSum;
    p, t := Progress(0, 0, 0, [], 0, true), t0;
    TallyTotal([]);
    while p.next < |todo|
      invariant p.ok && p.next <= |todo| && |p.results| == p.next
      invariant FaithfulBefore(cfg, todo, s, p.next)
      invariant forall k :: 0 <= k < p.next ==> p.results[k] == Sent(cfg, todo, s, k)
      invariant Tally(p.results) == (p.replayed, p.failed, p.diverged) && p.failed + p.diverged == 0
      invariant t == t0.(inTx := Some(todo[..p.next]))
      decreases |todo| - p.next
    {
      var i, entry := p.next, todo[p.next];
      var answer := AnswerTo(entry, s.statements(i));
      t := OnStatement(t, entry, answer);
      assert todo[..i + 1] == todo[..i] + [entry];
      var result := Judge(cfg, entry, answer);
      TallyAppend(p.results, result);
      p := p.(results := p.results + [result], next := i + 1);
      if !result.success {
        if answer.Rows? {
          p := p.(diverged := p.diverged + 1, ok := false);
        } else {
          p := p.(failed := p.failed + 1, ok := false);
        }
        return;
      }
      p := p.(replayed := p.replayed + 1);
    }
    assert todo[..|todo|] == todo;
  }

  /** The entries are split into skipped ones and the list to apply. */
  method Classify(cfg: Config, entries: seq<Entry>)
    returns (todo: seq<Entry>, skipped: nat, results: seq<StatementResult>)
    ensures todo == ToApply(cfg, entries) && results == SkippedReads(cfg, entries)
    ensures InJournalOrder(cfg, entries, todo) && ReadsReported(cfg, entries, results)
    ensures skipped + |todo| == |entries|
  {
    todo, skipped, results := [], 0, [];
    for k := 0 to |entries|
      invariant todo == ToApply(cfg, entries[..k]) && results == SkippedReads(cfg, entries[..k])
      invariant skipped + |todo| == k
    {
      hide InJournalOrder, ReadsReported;
      var entry := entries[k];
      assert entries[..k + 1][..k] == entries[..k];
      if ReadOnlySkip(cfg, entry) {
        skipped := skipped + 1;
        results := results + [StatementResult(entry.sequence, true, None, None, None)];
      } else if entry.kind.Transaction? {
        skipped := skipped + 1;
      } else {
        todo := todo + [entry];
      }
    }
    assert entries[..|entries|] == entries;
    ToApplyInOrder(cfg, entries);
    SkippedInOrder(cfg, entries);
  }

  /** The replay's guarantees, over every journal, configuration and sequence of backend answers. */
  ghost predicate Sound(
    cfg: Config, journal: Journal, backend: Option<Script>, t0: Target, r: ReplayResult, t: Target)
  {
    var todo := ToApply(cfg, journal.entries);
    var reached := ReachesCommit(cfg, todo, backend);
    && t.inTx.None?
    && InJournalOrder(cfg, journal.entries, todo)
    // all or nothing
    && t.durable == (if Commits(cfg, todo, backend) then t0.durable + todo else t0.durable)
    // success: everything was applied, and faithfully
    && (r.success ==> t.durable == t0.durable + todo)
    && (r.success && todo != [] ==> reached && Confirmed(backend.value.commit))
    // failure: nothing was applied, unless COMMIT itself returned an error
    && (!r.success ==> t.durable == t0.durable || (reached && backend.value.commit.CommitError?))
    && (r.success <==> if reached then Confirmed(backend.value.commit) else todo == [])
  }

  ghost predicate AllSucceed(results: seq<StatementResult>) {
    forall k :: 0 <= k < |results| ==> results[k].success
  }

  /** What one replay adds to the results: those of the skipped reads, followed by the reports. */
  ghost function Ledger(cfg: Config, journal: Journal, backend: Option<Script>): seq<StatementResult> {
    SkippedReads(cfg, journal.entries) + Reports(cfg, journal, ToApply(cfg, journal.entries), backend)
  }

  /** The ledger of a replay follows the results that were there before, and every counter is the tally of
      its kind of result in the ledger. */
  ghost predicate Accounted(
    cfg: Config, journal: Journal, backend: Option<Script>, before: seq<StatementResult>, r: ReplayResult)
  {
    var todo, ledger := ToApply(cfg, journal.entries), Ledger(cfg, journal, backend);
    var extra := if ReachesCommit(cfg, todo, backend) && !Confirmed(backend.value.commit) then 1 else 0;
    && r.results == before + ledger
    && ReadsReported(cfg, journal.entries, ledger[..|SkippedReads(cfg, journal.entries)|])
    && Tally(ledger) == (|SkippedReads(cfg, journal.entries)| + r.replayed, r.failed, r.diverged)
    && r.skipped == |journal.entries| - |todo|
    && r.replayed + r.skipped + r.failed + r.diverged == |journal.entries| + extra
    && (r.success <==> AllSucceed(ledger))
  }

  lemma {:induction false} SkippedReadsSucceed(cfg: Config, entries: seq<Entry>)
    ensures AllSucceed(SkippedReads(cfg, entries))
  {
    if entries != [] {
      SkippedReadsSucceed(cfg, entries[..|entries| - 1]);
    }
  }

  /** After a failure: ROLLBACK, and the statements that never ran are reported as failed. */
  method Abandon(todo: seq<Entry>, p: Progress) returns (p': Progress)
    requires p.next == |p.results| <= |todo| && Tally(p.results) == (p.replayed, p.failed, p.diverged)
    ensures p'.results == p.results + AllFailed(todo[p.next..], RolledBack)
    ensures Tally(p'.results) == (p'.replayed, p'.failed, p'.diverged)
    ensures p'.failed + p'.diverged == p.failed + p.diverged + |todo| - p.next
  {
    hide Tally;
    var rest := FailAll(todo, p.next, RolledBack);
    TallyJoin(p.results, rest);
    p' := p.(results := p.results + rest, failed := p.failed + |rest|);
  }

  /** After the last statement: COMMIT, and a result of its own if it is not confirmed. */
  method Finish(journal: Journal, p: Progress, a: CommitAnswer) returns (p': Progress)
    requires Tally(p.results) == (p.replayed, p.failed, p.diverged)
    ensures p'.results == p.results + CommitReport(journal, a)
    ensures Tally(p'.results) == (p'.replayed, p'.failed, p'.diverged)
    ensures p'.failed + p'.diverged == p.failed + p.diverged + if Confirmed(a) then 0 else 1
  {
    hide Tally;
    p' := p;
    if !Confirmed(a) {
      var why := if a.Tag? then CommitTag else CommitFailed;
      var verdict := StatementResult(journal.currentSequence, false, None, None, Some(why));
      TallyAppend(p.results, verdict);
      p' := p.(failed := p.failed + 1, results := p.results + [verdict]);
    }
  }

  /** BEGIN, the statements, and COMMIT or ROLLBACK, on a connection that has been made. */
  method Transact(cfg: Config, journal: Journal, todo: seq<Entry>, s: Script, t0: Target)
    returns (p: Progress, t: Target)
    requires t0.inTx.None?
    ensures var reached := s.begin.Begun? && FaithfulBefore(cfg, todo, s, |todo|);
            && (p.failed + p.diverged == 0 <==> if reached then Confirmed(s.commit) else todo == [])
            && t.inTx.None?
            && t.durable == if reached && TakesEffect(s.commit) then t0.durable + todo else t0.durable
    ensures p.results == ConnectedReports(cfg, journal, todo, s)
    ensures Tally(p.results) == (p.replayed, p.failed, p.diverged)
  {
    hide Tally, Judge, FailedEntry;
    t := OnBegin(t0, s.begin);
    p := Progress(0, 0, 0, [], 0, false);
    NoTally();
    if s.begin.Begun? {
      p, t := RunStatements(cfg, todo, s, t);
    }
    if p.ok {
      t := OnCommit(t, s.commit);
      p := Finish(journal, p, s.commit);
    } else {
      t := OnRollback(t, s.rollbackOk);
      p := Abandon(todo, p);
    }
    t := OnClose(t);
  }

  lemma NoTally()
    ensures Tally([]) == (0, 0, 0)
  {
  }

  /** The body of `execute_replay` between the WAL wait and the release of the lock. `before` are the
      results that the active replay holds already. */
  method Drive(cfg: Config, journal: Journal, backend: Option<Script>, before: seq<StatementResult>, t0: Target)
    returns (r: ReplayResult, t: Target)
    requires t0.inTx.None?
    ensures Sound(cfg, journal, backend, t0, r, t)
    ensures Accounted(cfg, journal, backend, before, r)
    ensures r.txId == journal.txId
  {
    hide Tally, Judge, ToApply, SkippedReads, FaithfulBefore, InJournalOrder, ReadsReported;
    var todo, skipped, readResults := Classify(cfg, journal.entries);
    t := t0;
    var p := Progress(0, 0, 0, [], 0, false);
    var connected := false;
    if backend.Some? {
      connected := Connect(cfg, backend.value);
    }
    if connected {
      p, t := Transact(cfg, journal, todo, backend.value, t);
    } else {
      var why := if backend.None? then NoBackend else ConnectFailed;
      var results := FailAll(todo, 0, why);
      p := p.(results := results, failed := |results|);
    }
    assert p.results == Reports(cfg, journal, todo, backend);
    var results := before + readResults + p.results;
    var success := p.failed == 0 && p.diverged == 0;
    r := ReplayResult(journal.txId, success, p.replayed, skipped, p.failed, p.diverged, results);
    SkippedReadsSucceed(cfg, journal.entries);
    TallyTotal(readResults);
    TallyTotal(readResults + p.results);
    TallyJoin(readResults, p.results);
    assert results == before + (readResults + p.results);
    assert (readResults + p.results)[..|readResults|] == readResults;
  }

  // ---- the replay manager --------------------------------------------------------------------

  datatype Failure = NotCaptured | NoActiveReplay | WalNotReached

  /** An active replay: its journal, and the results recorded for it so far. */
  datatype Active = Active(journal: Journal, results: seq<StatementResult>)

  /** Has the WAL wait ended well? Without a backend only "no position to wait for" does. */
  predicate WalReady(cfg: Config, journal: Journal, backend: Option<Script>, reached: bool) {
    !cfg.waitForWalSync || (if backend.None? then journal.startLsn == 0 else reached)
  }

  /** The active set after `start_replay`. */
  function Started(active: map<nat, Active>, journal: Journal): map<nat, Active> {
    if journal.incomplete then active else active[journal.txId := Active(journal, [])]
  }

  /** The active set after the first lock section of `execute_replay`: the replay stays in it. */
  ghost function Ran(cfg: Config, active: map<nat, Active>, txId: nat, backend: Option<Script>): map<nat, Active>
    requires txId in active
  {
    var a := active[txId];
    active[txId := a.(results := a.results + Ledger(cfg, a.journal, backend))]
  }

  class FailoverReplay {
    const config: Config
    const maxHistory: nat
    var active: map<nat, Active>
    var history: seq<ReplayResult>

    ghost predicate Valid()
      reads this
    {
      && |history| <= maxHistory
      && forall id :: id in active ==> active[id].journal.txId == id && !active[id].journal.incomplete
    }

    constructor (cfg: Config)
      ensures Valid() && config == cfg && active == map[] && history == [] && maxHistory == 100
    {
      config, maxHistory, active, history := cfg, 100, map[], [];
    }

    /** A journal that was not fully captured is refused before anything is applied. */
    method StartReplay(journal: Journal) returns (r: Result<nat, Failure>)
      requires Valid()
      modifies this
      ensures Valid() && history == old(history)
      ensures active == Started(old(active), journal)
      ensures if journal.incomplete then r == Err(NotCaptured) && active == old(active)
              else r == Ok(journal.txId) && active == old(active)[journal.txId := Active(journal, [])]
    {
      if journal.incomplete {
        return Err(NotCaptured);
      }
      active := active[journal.txId := Active(journal, [])];
      return Ok(journal.txId);
    }

    /** The first lock section of `execute_replay`. */
    method RunReplay(txId: nat, backend: Option<Script>, walReached: bool, t0: Target)
      returns (r: Result<ReplayResult, Failure>, t: Target)
      requires Valid() && t0.inTx.None?
      modifies this
      ensures Valid() && history == old(history)
      ensures r.Err? ==> t == t0 && active == old(active)
      ensures r == Err(NoActiveReplay) <==> txId !in old(active)
      ensures r == Err(WalNotReached) <==>
              && txId in old(active) && config.waitForWalSync
              && if backend.None? then old(active)[txId].journal.startLsn != 0 else !walReached
      ensures r.Ok? <==> txId in old(active) && WalReady(config, old(active)[txId].journal, backend, walReached)
      ensures r.Ok? ==>
                && Sound(config, old(active)[txId].journal, backend, t0, r.value, t)
                && Accounted(config, old(active)[txId].journal, backend, old(active)[txId].results, r.value)
                && r.value.txId == txId
                && active == old(active)[txId := Active(old(active)[txId].journal, r.value.results)]
                && active == Ran(config, old(active), txId, backend)
    {
      hide Sound, Ledger, Tally;
      t := t0;
      if txId !in active {
        return Err(NoActiveReplay), t;
      }
      var replay := active[txId];
      if !WalReady(config, replay.journal, backend, walReached) {
        return Err(WalNotReached), t;
      }
      var result;
      result, t := Drive(config, replay.journal, backend, replay.results, t0);
      active := active[txId := replay.(results := result.results)];
      r := Ok(result);
    }

    /** The lock sections after it: the replay leaves the active set, and the result enters the history. */
    method FinishReplay(result: ReplayResult)
      requires Valid()
      modifies this
      ensures Valid() && active == old(active) - {result.txId}
      ensures history == LastN(old(history) + [result], maxHistory)
      ensures |history| == if |old(history)| < maxHistory then |old(history)| + 1 else maxHistory
      ensures history == (old(history) + [result])[|old(history)| + 1 - |history|..]
    {
      active := active - {result.txId};
      history := history + [result];
      if |history| > maxHistory {
        history := history[1..];
      }
    }

    /** `execute_replay` with nobody in between. */
    method ExecuteReplay(txId: nat, backend: Option<Script>, walReached: bool, t0: Target)
      returns (r: Result<ReplayResult, Failure>, t: Target)
      requires Valid() && t0.inTx.None?
      modifies this
      ensures Valid()
      ensures r.Err? ==> t == t0 && active == old(active) && history == old(history)
      ensures r == Err(NoActiveReplay) <==> txId !in old(active)
      ensures r.Ok? <==> txId in old(active) && WalReady(config, old(active)[txId].journal, backend, walReached)
      ensures r.Ok? ==>
                && Sound(config, old(active)[txId].journal, backend, t0, r.value, t)
                && Accounted(config, old(active)[txId].journal, backend, old(active)[txId].results, r.value)
                && r.value.txId == txId
                && active == old(active) - {txId}
                && history == LastN(old(history) + [r.value], maxHistory)
    {
      hide Sound, Accounted, Ledger, Tally;
      r, t := RunReplay(txId, backend, walReached, t0);
      if r.Ok? {
        FinishReplay(r.value);
      }
    }

    method CancelReplay(txId: nat)
      requires Valid()
      modifies this
      ensures Valid() && active == old(active) - {txId} && history == old(history)
    {
      active := active - {txId};
    }
  }

  // ---- coordinated replay after a failover ---------------------------------------------------

  datatype Coordinated = Coordinated(total: nat, successes: nat, failures: nat, results: seq<ReplayResult>)

  predicate OnlyTransactionControl(entries: seq<Entry>) {
    forall k :: 0 <= k < |entries| ==> entries[k].kind.Transaction?
  }

  function CountSuccesses(results: seq<ReplayResult>): nat {
    if results == [] then 0
    else CountSuccesses(results[..|results| - 1]) + if results[|results| - 1].success then 1 else 0
  }

  lemma {:induction false} NothingToApply(cfg: Config, entries: seq<Entry>)
    requires !cfg.skipReadOnly
    ensures ToApply(cfg, entries) == [] <==> OnlyTransactionControl(entries)
  {
    if entries != [] {
      var front, last := entries[..|entries| - 1], entries[|entries| - 1];
      NothingToApply(cfg, front);
      if OnlyTransactionControl(front) && last.kind.Transaction? {
        assert forall k :: 0 <= k < |front| ==> entries[k] == front[k];
      } else if !OnlyTransactionControl(front) {
        var k :| 0 <= k < |front| && !front[k].kind.Transaction?;
        assert entries[k] == front[k];
      }
    }
  }

  /** The replayer that `coordinate_failover_replay` builds: no read is skipped, the WAL has been
      waited for already, and no backend is attached. */
  const CoordinatorConfig := Config(true, true, 3, false, false)

  /** A transaction counts as replayed: fully captured, and nothing but transaction control. */
  predicate NothingToDo(journal: Journal) {
    !journal.incomplete && OnlyTransactionControl(journal.entries)
  }

  /** Without a backend, a replay succeeds exactly if there is nothing to apply, and applies nothing. */
  lemma UnattachedReplay(journal: Journal, t0: Target, r: ReplayResult, t: Target)
    requires t0.inTx.None? && Sound(CoordinatorConfig, journal, None, t0, r, t)
    ensures t == t0 && (r.success <==> OnlyTransactionControl(journal.entries))
  {
    hide ToApply;
    NothingToApply(CoordinatorConfig, journal.entries);
  }

  /** One turn of the coordinator's loop. */
  method ReplayOne(manager: FailoverReplay, journal: Journal, t0: Target) returns (result: ReplayResult, t: Target)
    requires manager.Valid() && manager.config == CoordinatorConfig && t0.inTx.None?
    modifies manager
    ensures manager.Valid() && t == t0
    ensures result.txId == journal.txId && (result.success <==> NothingToDo(journal))
  {
    hide Sound, Accounted, Ledger, Tally, OnlyTransactionControl;
    t := t0;
    result := ReplayResult(journal.txId, false, 0, 0, 0, 0, []);
    var started := manager.StartReplay(journal);
    if started.Ok? {
      var executed;
      executed, t := manager.ExecuteReplay(journal.txId, None, false, t0);
      if executed.Ok? {
        result := executed.value;
        UnattachedReplay(journal, t0, result, t);
      }
    }
  }

  /** The largest start position, or zero. */
  method MaxStartLsn(journals: seq<Journal>) returns (max: nat)
    ensures forall k :: 0 <= k < |journals| ==> journals[k].startLsn <= max
    ensures max > 0 ==> exists j :: j in journals && j.startLsn == max
  {
    max := 0;
    for k := 0 to |journals|
      invariant forall j :: 0 <= j < k ==> journals[j].startLsn <= max
      invariant max > 0 ==> exists j :: j in journals && j.startLsn == max
    {
      if journals[k].startLsn > max {
        max := journals[k].startLsn;
      }
    }
  }

  /** `caughtUp` is the outcome of waiting for the largest start position among the transactions. */
  method CoordinateReplay(journals: seq<Journal>, caughtUp: bool, t0: Target)
    returns (r: Result<Coordinated, Failure>, t: Target)
    requires t0.inTx.None?
    ensures t == t0
    ensures r.Err? <==> !caughtUp && exists j :: j in journals && j.startLsn > 0
    ensures r.Ok? ==>
              && r.value.total == r.value.successes + r.value.failures == |r.value.results| == |journals|
              && r.value.successes == CountSuccesses(r.value.results)
              && forall i :: 0 <= i < |journals| ==>
                   && r.value.results[i].txId == journals[i].txId
                   && (r.value.results[i].success <==> NothingToDo(journals[i]))
  {
    hide NothingToDo;
    t := t0;
    var maxLsn := MaxStartLsn(journals);
    if maxLsn > 0 && !caughtUp {
      return Err(WalNotReached), t;
    }
    var manager := new FailoverReplay(CoordinatorConfig);
    var results, successes, failures := [], 0, 0;
    for k := 0 to |journals|
      invariant fresh(manager) && manager.Valid() && manager.config == CoordinatorConfig
      invariant t == t0
      invariant |results| == k == successes + failures && successes == CountSuccesses(results)
      invariant forall i :: 0 <= i < k ==>
                  && results[i].txId == journals[i].txId
                  && (results[i].success <==> NothingToDo(journals[i]))
    {
      var result;
      result, t := ReplayOne(manager, journals[k], t);
      if result.success {
        successes := successes + 1;
      } else {
        failures := failures + 1;
      }
      assert (results + [result])[..k] == results;
      results := results + [result];
    }
    r := Ok(Coordinated(successes + failures, successes, failures, results));
  }
}
