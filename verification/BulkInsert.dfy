/** What the combined INSERT of a batch does to the database, compared with the INSERTs it replaces, and
    what the requests are told about it. */
module BulkInsert {
  import opened Wrappers
  import opened Sums
  import opened BatchProtocol

  /** An INSERT as a value: the table, the column list and the rows. */
  datatype Insert = Insert(table: Table, columns: seq<string>, rows: seq<seq<string>>)

  /** The rows of all requests, in the order of arrival. */
  function AllRows(requests: seq<Request>): seq<seq<string>> {
    if requests == [] then [] else AllRows(requests[..|requests| - 1]) + requests[|requests| - 1].rows
  }

  /** The statement of a batch: table and columns are those of the first request. */
  function Combined(requests: seq<Request>): Insert
    requires requests != []
  {
    Insert(requests[0].table, requests[0].columns, AllRows(requests))
  }

  function Single(r: Request): Insert {
    Insert(r.table, r.columns, r.rows)
  }

  // ---- what an INSERT does -------------------------------------------------------------------

  type Tables<R> = map<Table, seq<R>>

  /** A row is refused, silently dropped (as a trigger may do), or stored. */
  datatype Fate<+R> = Refused | Dropped | Stored(row: R)

  /** What the database makes of an INSERT. `row` decides on one row: it sees the tables at the start of the
      statement, on which values are evaluated, the tables as the rows before it have left them, the table,
      the column list and the values. `check` is made at the end of the statement, on the tables at its
      start and at its end, as for references. */
  datatype Rules<!R> = Rules(
    row: (Tables<R>, Tables<R>, Table, seq<string>, seq<string>) -> Fate<R>,
    check: (Tables<R>, Tables<R>) -> bool)

  function Contents<R>(db: Tables<R>, table: Table): seq<R> {
    if table in db then db[table] else []
  }

  /** More rows at the end of a table. */
  function Grown<R>(db: Tables<R>, table: Table, more: seq<R>): Tables<R> {
    if more == [] then db else db[table := Contents(db, table) + more]
  }

  function Extended<R>(stored: seq<R>, fate: Fate<R>): Option<seq<R>> {
    match fate
    case Refused => None
    case Dropped => Some(stored)
    case Stored(row) => Some(stored + [row])
  }

  /** What the rows of a statement store, one after the other, unless one of them is refused. The statement
      began on `start`, and `now` is where these rows begin. */
  function RowsStored<R>(start: Tables<R>, now: Tables<R>, st: Insert, rules: Rules<R>): Option<seq<R>>
    decreases |st.rows|
  {
    if st.rows == [] then Some([])
    else
      var n := |st.rows| - 1;
      var front := RowsStored(start, now, st.(rows := st.rows[..n]), rules);
      if front.None? then None
      else
        Extended(front.value, rules.row(start, Grown(now, st.table, front.value), st.table, st.columns, st.rows[n]))
  }

  /** No row is refused, and the check at the end holds. An INSERT without rows is no statement. */
  predicate Accepted<R>(db: Tables<R>, st: Insert, rules: Rules<R>) {
    var stored := RowsStored(db, db, st, rules);
    st.rows != [] && stored.Some? && rules.check(db, Grown(db, st.table, stored.value))
  }

  /** An INSERT stores what its rows store, or nothing at all. */
  function Gain<R>(db: Tables<R>, st: Insert, rules: Rules<R>): seq<R> {
    if Accepted(db, st, rules) then RowsStored(db, db, st, rules).value else []
  }

  function Execute<R>(db: Tables<R>, st: Insert, rules: Rules<R>): Tables<R> {
    Grown(db, st.table, Gain(db, st, rules))
  }

  /** The requests, run one by one in the order of arrival. */
  function OneByOne<R>(db: Tables<R>, requests: seq<Request>, rules: Rules<R>): Tables<R> {
    if requests == [] then db
    else Execute(OneByOne(db, requests[..|requests| - 1], rules), Single(requests[|requests| - 1]), rules)
  }

  /** All requests are for the first one's table. */
  ghost predicate ForOneTable(requests: seq<Request>) {
    forall k :: 0 <= k < |requests| ==> requests[k].table == requests[0].table
  }

  // ---- growing tables ------------------------------------------------------------------------

  lemma GrownTwice<R>(db: Tables<R>, table: Table, a: seq<R>, b: seq<R>)
    ensures Grown(Grown(db, table, a), table, b) == Grown(db, table, a + b)
  {
    if a == [] {
      assert a + b == b;
    } else if b == [] {
      assert a + b == a;
    } else {
      assert Contents(db, table) + a + b == Contents(db, table) + (a + b);
    }
  }

  lemma GrownTells<R>(db: Tables<R>, table: Table, a: seq<R>, b: seq<R>)
    ensures Grown(db, table, a) == Grown(db, table, b) <==> a == b
  {
    var old_ := Contents(db, table);
    assert Contents(Grown(db, table, a), table) == old_ + a;
    assert Contents(Grown(db, table, b), table) == old_ + b;
    assert (old_ + a)[|old_|..] == a && (old_ + b)[|old_|..] == b;
  }

  lemma {:induction false} RowsStoredBound<R>(start: Tables<R>, now: Tables<R>, st: Insert, rules: Rules<R>)
    ensures var stored := RowsStored(start, now, st, rules); stored.Some? ==> |stored.value| <= |st.rows|
    decreases |st.rows|
  {
    if st.rows != [] {
      RowsStoredBound(start, now, st.(rows := st.rows[..|st.rows| - 1]), rules);
    }
  }

  /** More rows in the same statement go on where the first ones ended. */
  lemma {:induction false} RowsStoredTwice<R>(
    start: Tables<R>, now: Tables<R>, st: Insert, more: seq<seq<string>>, rules: Rules<R>)
    ensures var first := RowsStored(start, now, st, rules);
            RowsStored(start, now, st.(rows := st.rows + more), rules) ==
            if first.None? then None
            else
              var then_ := RowsStored(start, Grown(now, st.table, first.value), st.(rows := more), rules);
              if then_.None? then None else Some(first.value + then_.value)
    decreases |more|
  {
    if more == [] {
      assert st.rows + more == st.rows;
      var first := RowsStored(start, now, st, rules);
      assert first.Some? ==> first.value + [] == first.value;
    } else {
      hide RowsStored, Grown, Extended;
      var n := |more| - 1;
      var front, all := st.(rows := st.rows + more[..n]), st.(rows := st.rows + more);
      RowsStoredTwice(start, now, st, more[..n], rules);
      assert all.rows[..|all.rows| - 1] == front.rows && all.rows[|all.rows| - 1] == more[n];
      RowsStoredLast(start, now, all, rules);
      var first := RowsStored(start, now, st, rules);
      if first.Some? {
        var then_ := Grown(now, st.table, first.value);
        RowsStoredLast(start, then_, st.(rows := more), rules);
        var middle := RowsStored(start, then_, st.(rows := more[..n]), rules);
        if middle.Some? {
          GrownTwice(now, st.table, first.value, middle.value);
          var before := Grown(now, st.table, first.value + middle.value);
          ExtendedAfter(first.value, middle.value, rules.row(start, before, st.table, st.columns, more[n]));
        }
      }
    }
  }

  lemma RowsStoredLast<R>(start: Tables<R>, now: Tables<R>, st: Insert, rules: Rules<R>)
    requires st.rows != []
    ensures var n := |st.rows| - 1;
            var front := RowsStored(start, now, st.(rows := st.rows[..n]), rules);
            RowsStored(start, now, st, rules) ==
            if front.None? then None
            else
              var before := Grown(now, st.table, front.value);
              Extended(front.value, rules.row(start, before, st.table, st.columns, st.rows[n]))
  {
  }

  lemma ExtendedAfter<R>(a: seq<R>, b: seq<R>, fate: Fate<R>)
    ensures var last := Extended(b, fate);
            Extended(a + b, fate) == if last.None? then None else Some(a + last.value)
  {
    if fate.Stored? {
      assert a + b + [fate.row] == a + (b + [fate.row]);
    }
  }

  /** What the requests store one by one. */
  function GainInTurn<R>(db: Tables<R>, requests: seq<Request>, rules: Rules<R>): seq<R> {
    if requests == [] then []
    else
      var n := |requests| - 1;
      GainInTurn(db, requests[..n], rules) + Gain(OneByOne(db, requests[..n], rules), Single(requests[n]), rules)
  }

  lemma {:induction false} OneByOneGrows<R>(db: Tables<R>, requests: seq<Request>, rules: Rules<R>, table: Table)
    requires forall k :: 0 <= k < |requests| ==> requests[k].table == table
    ensures OneByOne(db, requests, rules) == Grown(db, table, GainInTurn(db, requests, rules))
    ensures |GainInTurn(db, requests, rules)| <= |AllRows(requests)|
  {
    hide Accepted, RowsStored, Grown;
    if requests == [] {
      GrownByNothing(db, table);
    } else {
      var n := |requests| - 1;
      OneByOneGrows(db, requests[..n], rules, table);
      var now := OneByOne(db, requests[..n], rules);
      RowsStoredBound(now, now, Single(requests[n]), rules);
      AcceptedStores(now, Single(requests[n]), rules);
      GrownTwice(db, table, GainInTurn(db, requests[..n], rules), Gain(now, Single(requests[n]), rules));
    }
  }

  lemma GrownByNothing<R>(db: Tables<R>, table: Table)
    ensures Grown(db, table, []) == db
  {
  }

  lemma AcceptedStores<R>(db: Tables<R>, st: Insert, rules: Rules<R>)
    ensures Accepted(db, st, rules) ==> st.rows != [] && RowsStored(db, db, st, rules).Some?
  {
  }

  // ---- the exact condition -------------------------------------------------------------------

  /** The `k`th request, in its turn, is accepted and stores what its rows store as part of the combined
      INSERT: under the first request's columns, in a statement that began before the batch. */
  ghost predicate SameInTurn<R>(db: Tables<R>, requests: seq<Request>, rules: Rules<R>, k: nat)
    requires k < |requests|
  {
    var now, st := OneByOne(db, requests[..k], rules), Single(requests[k]);
    && Accepted(now, st, rules)
    && RowsStored(now, now, st, rules) == RowsStored(db, now, st.(columns := requests[0].columns), rules)
  }

  ghost predicate SameInTurns<R>(db: Tables<R>, requests: seq<Request>, rules: Rules<R>) {
    forall k :: 0 <= k < |requests| && requests[k].rows != [] ==> SameInTurn(db, requests, rules, k)
  }

  /** Each request, run on the database as it is before the batch, stores nothing: it is refused, or has
      no rows, or all of them are dropped. */
  ghost predicate EachStoresNothing<R>(db: Tables<R>, requests: seq<Request>, rules: Rules<R>) {
    forall k :: 0 <= k < |requests| ==> Gain(db, Single(requests[k]), rules) == []
  }

  /** No row of the statement is dropped. */
  predicate KeepsAll<R>(db: Tables<R>, st: Insert, rules: Rules<R>) {
    |Gain(db, st, rules)| == |st.rows|
  }

  lemma CombinedFront(requests: seq<Request>)
    requires |requests| > 1
    ensures var n := |requests| - 1;
            Combined(requests) == Combined(requests[..n]).(rows := Combined(requests[..n]).rows + requests[n].rows)
  {
  }

  lemma SameInTurnFront<R>(db: Tables<R>, requests: seq<Request>, rules: Rules<R>, k: nat)
    requires k < |requests| - 1
    ensures SameInTurn(db, requests, rules, k) <==> SameInTurn(db, requests[..|requests| - 1], rules, k)
  {
    hide OneByOne, Accepted, RowsStored;
    assert requests[..|requests| - 1][..k] == requests[..k];
  }

  /** The last request of a batch, and the ones before it. */
  lemma SameInTurnsFront<R>(db: Tables<R>, requests: seq<Request>, rules: Rules<R>)
    requires requests != []
    ensures var n := |requests| - 1;
            SameInTurns(db, requests, rules) <==>
            && SameInTurns(db, requests[..n], rules)
            && (requests[n].rows != [] ==> SameInTurn(db, requests, rules, n))
  {
    hide SameInTurn;
    var n := |requests| - 1;
    forall k | 0 <= k < n
      ensures SameInTurn(db, requests, rules, k) <==> SameInTurn(db, requests[..n], rules, k)
    {
      SameInTurnFront(db, requests, rules, k);
    }
    if SameInTurns(db, requests, rules) {
      forall k | 0 <= k < n && requests[..n][k].rows != [] ensures SameInTurn(db, requests[..n], rules, k) {
        assert requests[k].rows != [];
      }
    }
  }

  /** The rows of one request as part of the combined INSERT, after those of the requests before it. */
  lemma CombinedTurn<R>(db: Tables<R>, requests: seq<Request>, rules: Rules<R>)
    requires |requests| > 1 && ForOneTable(requests)
    ensures var n := |requests| - 1;
            var front := RowsStored(db, db, Combined(requests[..n]), rules);
            RowsStored(db, db, Combined(requests), rules) ==
            if front.None? then None
            else
              var now := Grown(db, requests[0].table, front.value);
              var last := RowsStored(db, now, Single(requests[n]).(columns := requests[0].columns), rules);
              if last.None? then None else Some(front.value + last.value)
  {
    hide RowsStored, Grown;
    var n := |requests| - 1;
    CombinedFront(requests);
    RowsStoredTwice(db, db, Combined(requests[..n]), requests[n].rows, rules);
    assert Combined(requests[..n]).(rows := requests[n].rows) == Single(requests[n]).(columns := requests[0].columns);
  }

  lemma CombinedOne(r: Request)
    ensures Combined([r]) == Single(r)
  {
    assert [r][..0] == [] && AllRows([r]) == [] + r.rows == r.rows;
  }

  /** If every turn is the same, so is the whole. */
  lemma {:induction false} TurnsMakeTheWhole<R>(db: Tables<R>, requests: seq<Request>, rules: Rules<R>)
    requires requests != [] && ForOneTable(requests) && SameInTurns(db, requests, rules)
    ensures RowsStored(db, db, Combined(requests), rules) == Some(GainInTurn(db, requests, rules))
  {
    hide RowsStored, Accepted, SameInTurns, Grown;
    var n := |requests| - 1;
    var front, r := requests[..n], requests[n];
    SameInTurnsFront(db, requests, rules);
    if n == 0 {
      assert requests == [r] && front == [];
      CombinedOne(r);
      assert OneByOne(db, front, rules) == db && GainInTurn(db, front, rules) == [];
      assert Single(r).(columns := r.columns) == Single(r);
      TurnGain(db, requests, rules);
      assert [] + Gain(db, Single(r), rules) == Gain(db, Single(r), rules);
    } else {
      TurnsMakeTheWhole(db, front, rules);
      CombinedTurn(db, requests, rules);
      OneByOneGrows(db, front, rules, requests[0].table);
      TurnGain(db, requests, rules);
    }
  }

  /** What the last request stores in its turn is what its rows store as part of the combined INSERT. */
  lemma TurnGain<R>(db: Tables<R>, requests: seq<Request>, rules: Rules<R>)
    requires requests != []
    requires var n := |requests| - 1; requests[n].rows != [] ==> SameInTurn(db, requests, rules, n)
    ensures var n := |requests| - 1;
            var now, st := OneByOne(db, requests[..n], rules), Single(requests[n]);
            RowsStored(db, now, st.(columns := requests[0].columns), rules) == Some(Gain(now, st, rules))
  {
    hide OneByOne;
  }

  /** The other way: if the combined INSERT drops no row and stores what the requests store one by one, then
      every turn is the same, because no turn can store more rows than it has. */
  lemma {:induction false} WholeMakesTheTurns<R>(db: Tables<R>, requests: seq<Request>, rules: Rules<R>)
    requires requests != [] && ForOneTable(requests)
    requires RowsStored(db, db, Combined(requests), rules) == Some(GainInTurn(db, requests, rules))
    requires |GainInTurn(db, requests, rules)| == |AllRows(requests)|
    ensures SameInTurns(db, requests, rules)
  {
    hide RowsStored, SameInTurns, Grown, Accepted;
    var n := |requests| - 1;
    var front, r := requests[..n], requests[n];
    var now := OneByOne(db, front, rules);
    SameInTurnsFront(db, requests, rules);
    OneByOneGrows(db, front, rules, requests[0].table);
    RowsStoredBound(now, now, Single(r), rules);
    AcceptedStores(now, Single(r), rules);
    if n == 0 {
      assert requests == [r] && front == [];
      CombinedOne(r);
      assert AllRows(front) == [] && GainInTurn(db, front, rules) == [] && now == db;
      assert [] + Gain(db, Single(r), rules) == Gain(db, Single(r), rules);
      assert Single(r).(columns := r.columns) == Single(r);
      NothingTurns(db, front, rules);
    } else {
      CombinedTurn(db, requests, rules);
      var together := RowsStored(db, db, Combined(front), rules).value;
      RowsStoredBound(db, db, Combined(front), rules);
      var grown := Grown(db, requests[0].table, together);
      var part := RowsStored(db, grown, Single(r).(columns := requests[0].columns), rules).value;
      RowsStoredBound(db, grown, Single(r).(columns := requests[0].columns), rules);
      SplitAlike(together, part, GainInTurn(db, front, rules), Gain(now, Single(r), rules));
      WholeMakesTheTurns(db, front, rules);
    }
  }

  lemma NothingTurns<R>(db: Tables<R>, requests: seq<Request>, rules: Rules<R>)
    requires requests == []
    ensures SameInTurns(db, requests, rules)
  {
  }

  lemma SplitAlike<T>(a: seq<T>, b: seq<T>, c: seq<T>, d: seq<T>)
    requires a + b == c + d && |a| == |c|
    ensures a == c && b == d
  {
    assert (a + b)[..|a|] == a && (c + d)[..|c|] == c;
    assert (a + b)[|a|..] == b && (c + d)[|c|..] == d;
  }

  /** One by one the tables stay as they are exactly if each request stores nothing. */
  lemma {:induction false} NoGainIff<R>(db: Tables<R>, requests: seq<Request>, rules: Rules<R>)
    ensures GainInTurn(db, requests, rules) == [] ==> OneByOne(db, requests, rules) == db
    ensures GainInTurn(db, requests, rules) == [] <==> EachStoresNothing(db, requests, rules)
  {
    if requests == [] {
      assert EachStoresNothing(db, requests, rules);
    } else {
      hide Gain, Grown, EachStoresNothing;
      var n := |requests| - 1;
      NoGainIff(db, requests[..n], rules);
      NothingInFront(db, requests, rules);
      GrownByNothing(db, requests[n].table);
    }
  }

  lemma NothingInFront<R>(db: Tables<R>, requests: seq<Request>, rules: Rules<R>)
    requires requests != []
    ensures var n := |requests| - 1;
            EachStoresNothing(db, requests, rules) <==>
            EachStoresNothing(db, requests[..n], rules) && Gain(db, Single(requests[n]), rules) == []
  {
    hide Gain, Single;
    var front := requests[..|requests| - 1];
    assert forall k :: 0 <= k < |front| ==> front[k] == requests[k];
  }

  /** For every database, whatever its rules, and every batch on one table, with whatever column lists: the
      combined INSERT leaves the tables as the single ones in order of arrival would

      - if it is refused: exactly if each request would have stored nothing;
      - if it is accepted and drops no row: exactly if each request with rows, in its turn, is accepted and
        stores what its rows store as part of the combined INSERT;
      - if it is accepted and drops rows: exactly if what it stores is, in order, what the requests store in
        their turns. */
  lemma BulkAgreesIff<R>(db: Tables<R>, requests: seq<Request>, rules: Rules<R>)
    requires requests != [] && ForOneTable(requests)
    ensures Execute(db, Combined(requests), rules) == OneByOne(db, requests, rules) <==>
            if !Accepted(db, Combined(requests), rules) then EachStoresNothing(db, requests, rules)
            else if KeepsAll(db, Combined(requests), rules) then SameInTurns(db, requests, rules)
            else Gain(db, Combined(requests), rules) == GainInTurn(db, requests, rules)
  {
    hide Accepted, RowsStored, GainInTurn, OneByOne, SameInTurns, EachStoresNothing, Grown;
    var st := Combined(requests);
    OneByOneGrows(db, requests, rules, st.table);
    GrownTells(db, st.table, Gain(db, st, rules), GainInTurn(db, requests, rules));
    NoGainIff(db, requests, rules);
    AcceptedStores(db, st, rules);
    if Accepted(db, st, rules) {
      if SameInTurns(db, requests, rules) {
        TurnsMakeTheWhole(db, requests, rules);
      } else if KeepsAll(db, st, rules) && Gain(db, st, rules) == GainInTurn(db, requests, rules) {
        WholeMakesTheTurns(db, requests, rules);
      }
    }
  }

  /** Dropped rows or not, it is enough that every turn is the same. */
  lemma SameTurnsSuffice<R>(db: Tables<R>, requests: seq<Request>, rules: Rules<R>)
    requires requests != [] && ForOneTable(requests)
    requires Accepted(db, Combined(requests), rules) && SameInTurns(db, requests, rules)
    ensures Execute(db, Combined(requests), rules) == OneByOne(db, requests, rules)
  {
    hide Accepted, RowsStored, GainInTurn, OneByOne, SameInTurns, Grown;
    OneByOneGrows(db, requests, rules, requests[0].table);
    TurnsMakeTheWhole(db, requests, rules);
  }

  /** In every run, every sealed batch, whatever the database holds and whatever its rules are. */
  lemma SealedBatchAgreesIff<R>(events: seq<Event>, cfg: Config, i: nat, db: Tables<R>, rules: Rules<R>)
    requires i < |Run(events, cfg).tasks| && Run(events, cfg).tasks[i].Sealed?
    ensures var requests := Run(events, cfg).tasks[i].requests;
            && requests != []
            && (Execute(db, Combined(requests), rules) == OneByOne(db, requests, rules) <==>
                if !Accepted(db, Combined(requests), rules) then EachStoresNothing(db, requests, rules)
                else if KeepsAll(db, Combined(requests), rules) then SameInTurns(db, requests, rules)
                else Gain(db, Combined(requests), rules) == GainInTurn(db, requests, rules))
  {
    hide Execute, OneByOne, Run, Accepted, EachStoresNothing, KeepsAll, SameInTurns, Gain, GainInTurn;
    BatchesAreForOneTable(events, cfg);
    BulkAgreesIff(db, Run(events, cfg).tasks[i].requests, rules);
  }

  // ---- one column list -----------------------------------------------------------------------

  /** As far as they have rows, the requests have the first one's columns. */
  ghost predicate SameColumns(requests: seq<Request>) {
    forall k :: 0 <= k < |requests| && requests[k].rows != [] ==> requests[k].columns == requests[0].columns
  }

  /** Values are constants: what becomes of a row does not depend on the start of its statement. */
  ghost predicate ConstantValues<R(!new)>(rules: Rules<R>) {
    forall a, b, now, table, columns, values ::
      rules.row(a, now, table, columns, values) == rules.row(b, now, table, columns, values)
  }

  lemma {:induction false} ConstantRows<R(!new)>(
    a: Tables<R>, b: Tables<R>, now: Tables<R>, st: Insert, rules: Rules<R>)
    requires ConstantValues(rules)
    ensures RowsStored(a, now, st, rules) == RowsStored(b, now, st, rules)
    decreases |st.rows|
  {
    if st.rows != [] {
      ConstantRows(a, b, now, st.(rows := st.rows[..|st.rows| - 1]), rules);
    }
  }

  /** With one column list and constant values, a turn is the same exactly if the request is accepted in it. */
  lemma SameTurnsIfAccepted<R(!new)>(db: Tables<R>, requests: seq<Request>, rules: Rules<R>)
    requires SameColumns(requests) && ConstantValues(rules)
    ensures SameInTurns(db, requests, rules) <==>
            forall k :: 0 <= k < |requests| && requests[k].rows != [] ==>
              Accepted(OneByOne(db, requests[..k], rules), Single(requests[k]), rules)
  {
    hide Accepted, OneByOne, RowsStored, ConstantValues;
    forall k | 0 <= k < |requests| && requests[k].rows != []
      ensures SameInTurn(db, requests, rules, k) <==>
              Accepted(OneByOne(db, requests[..k], rules), Single(requests[k]), rules)
    {
      var now, st := OneByOne(db, requests[..k], rules), Single(requests[k]);
      assert st.(columns := requests[0].columns) == st;
      ConstantRows(now, db, now, st, rules);
    }
  }

  // ---- rules that judge a row by itself ------------------------------------------------------

  type Judge<!R> = (seq<string>, seq<string>) -> Option<R>

  /** A row is stored or refused by its columns and values alone, and nothing is checked at the end. */
  function ByRow<R>(judge: Judge<R>): Rules<R> {
    Rules(
      (start: Tables<R>, now: Tables<R>, table: Table, columns: seq<string>, values: seq<string>) =>
        var row := judge(columns, values);
        if row.None? then Refused else Stored(row.value),
      (start: Tables<R>, end: Tables<R>) => true)
  }

  ghost predicate HasRefusedRow<R>(judge: Judge<R>, st: Insert) {
    exists values :: values in st.rows && judge(st.columns, values).None?
  }

  lemma {:induction false} StoredByRow<R>(
    start: Tables<R>, now: Tables<R>, st: Insert, judge: Judge<R>)
    ensures var stored := RowsStored(start, now, st, ByRow(judge));
            && (stored.None? <==> HasRefusedRow(judge, st))
            && (stored.Some? ==> |stored.value| == |st.rows|)
    decreases |st.rows|
  {
    if st.rows != [] {
      var n := |st.rows| - 1;
      var front := st.(rows := st.rows[..n]);
      StoredByRow(start, now, front, judge);
      RefusedInFront(judge, st);
      hide HasRefusedRow;
      var last := judge(st.columns, st.rows[n]);
      assert forall now: Tables<R> :: ByRow(judge).row(start, now, st.table, st.columns, st.rows[n])
                                      == if last.None? then Refused else Stored(last.value);
    }
  }

  lemma RefusedInFront<R>(judge: Judge<R>, st: Insert)
    requires st.rows != []
    ensures var n := |st.rows| - 1;
            HasRefusedRow(judge, st) <==>
            HasRefusedRow(judge, st.(rows := st.rows[..n])) || judge(st.columns, st.rows[n]).None?
  {
    var n := |st.rows| - 1;
    assert st.rows == st.rows[..n] + [st.rows[n]];
  }

  lemma GainByRow<R>(db: Tables<R>, st: Insert, judge: Judge<R>)
    ensures Accepted(db, st, ByRow(judge)) <==> st.rows != [] && !HasRefusedRow(judge, st)
    ensures |Gain(db, st, ByRow(judge))| == if Accepted(db, st, ByRow(judge)) then |st.rows| else 0
  {
    hide RowsStored, HasRefusedRow;
    StoredByRow(db, db, st, judge);
  }

  lemma {:induction false} RowsOfRequests(requests: seq<Request>, values: seq<string>)
    ensures values in AllRows(requests) <==> exists k :: 0 <= k < |requests| && values in requests[k].rows
  {
    if requests != [] {
      var n := |requests| - 1;
      RowsOfRequests(requests[..n], values);
      assert forall k :: 0 <= k < n ==> requests[..n][k] == requests[k];
    }
  }

  lemma RefusedInCombined<R>(requests: seq<Request>, judge: Judge<R>)
    requires requests != [] && SameColumns(requests)
    ensures HasRefusedRow(judge, Combined(requests)) <==>
            exists k :: 0 <= k < |requests| && HasRefusedRow(judge, Single(requests[k]))
  {
    hide AllRows;
    if HasRefusedRow(judge, Combined(requests)) {
      var values :| values in AllRows(requests) && judge(requests[0].columns, values).None?;
      RowsOfRequests(requests, values);
      var k :| 0 <= k < |requests| && values in requests[k].rows;
      assert HasRefusedRow(judge, Single(requests[k]));
    }
    if k :| 0 <= k < |requests| && HasRefusedRow(judge, Single(requests[k])) {
      var values :| values in requests[k].rows && judge(requests[k].columns, values).None?;
      RowsOfRequests(requests, values);
      assert values in Combined(requests).rows;
    }
  }

  /** With one column list, if rows are judged by themselves: the two agree if and only if no row is refused,
      or every request with rows has a refused row. */
  lemma BulkAgreesByRow<R(!new)>(db: Tables<R>, requests: seq<Request>, judge: Judge<R>)
    requires requests != [] && ForOneTable(requests) && SameColumns(requests)
    ensures Execute(db, Combined(requests), ByRow(judge)) == OneByOne(db, requests, ByRow(judge)) <==>
            || (forall k :: 0 <= k < |requests| ==> !HasRefusedRow(judge, Single(requests[k])))
            || (forall k :: 0 <= k < |requests| && requests[k].rows != [] ==>
                  HasRefusedRow(judge, Single(requests[k])))
  {
    var rules := ByRow(judge);
    assert ConstantValues(rules);
    hide Execute, OneByOne, Accepted, RowsStored, Gain, GainInTurn, SameInTurns, HasRefusedRow, ByRow, AllRows;
    hide ConstantValues;
    BulkAgreesIff(db, requests, rules);
    SameTurnsIfAccepted(db, requests, rules);
    RefusedInCombined(requests, judge);
    GainByRow(db, Combined(requests), judge);
    forall k | 0 <= k < |requests|
      ensures Gain(db, Single(requests[k]), rules) == [] <==>
              requests[k].rows == [] || HasRefusedRow(judge, Single(requests[k]))
      ensures Accepted(OneByOne(db, requests[..k], rules), Single(requests[k]), rules) <==>
              requests[k].rows != [] && !HasRefusedRow(judge, Single(requests[k]))
    {
      GainByRow(db, Single(requests[k]), judge);
      GainByRow(OneByOne(db, requests[..k], rules), Single(requests[k]), judge);
    }
    if Combined(requests).rows == [] {
      NoRowsAtAll(requests);
    }
  }

  lemma {:induction false} NoRowsAtAll(requests: seq<Request>)
    requires AllRows(requests) == []
    ensures forall k :: 0 <= k < |requests| ==> requests[k].rows == []
  {
    if requests != [] {
      NoRowsAtAll(requests[..|requests| - 1]);
      assert forall k :: 0 <= k < |requests| - 1 ==> requests[..|requests| - 1][k] == requests[k];
    }
  }

  // ---- inputs on which the two differ, and one on which they do not --------------------------

  function OneRow(id: nat, columns: seq<string>, values: seq<string>): Request {
    Request(id, "t", columns, [values], 0)
  }

  function Fated<R>(fate: Fate<R>): Option<seq<R>> {
    match fate
    case Refused => None
    case Dropped => Some([])
    case Stored(row) => Some([row])
  }

  lemma OneRowStored<R>(start: Tables<R>, now: Tables<R>, st: Insert, rules: Rules<R>)
    requires |st.rows| == 1
    ensures RowsStored(start, now, st, rules) == Fated(rules.row(start, now, st.table, st.columns, st.rows[0]))
  {
    var none := st.(rows := st.rows[..|st.rows| - 1]);
    assert none.rows == [] && RowsStored(start, now, none, rules) == Some([]);
    GrownByNothing(now, st.table);
    var fate := rules.row(start, now, st.table, st.columns, st.rows[0]);
    assert fate.Stored? ==> [] + [fate.row] == [fate.row];
  }

  /** Two requests with a row each: one by one, and as parts of one statement. */
  lemma PairRuns<R>(db: Tables<R>, a: Request, b: Request, rules: Rules<R>)
    requires |a.rows| == |b.rows| == 1 && a.table == b.table
    ensures OneByOne(db, [a, b], rules) == Execute(Execute(db, Single(a), rules), Single(b), rules)
    ensures Combined([a, b]).rows != [] && Combined([a, b]).table == a.table
    ensures var first := Fated(rules.row(db, db, a.table, a.columns, a.rows[0]));
            RowsStored(db, db, Combined([a, b]), rules) ==
            if first.None? then None
            else
              var now := Grown(db, a.table, first.value);
              var second := Fated(rules.row(db, now, a.table, a.columns, b.rows[0]));
              if second.None? then None else Some(first.value + second.value)
  {
    hide Execute, Grown;
    assert [a, b][..|[a, b]| - 1] == [a] && [a][..|[a]| - 1] == [];
    assert OneByOne(db, [a][..|[a]| - 1], rules) == db;
    assert OneByOne(db, [a], rules) == Execute(db, Single(a), rules);
    CombinedTurn(db, [a, b], rules);
    CombinedOne(a);
    CombinedFront([a, b]);
    OneRowStored(db, db, Single(a), rules);
    var first := RowsStored(db, db, Single(a), rules);
    if first.Some? {
      OneRowStored(db, Grown(db, a.table, first.value), Single(b).(columns := a.columns), rules);
    }
  }

  lemma OneRowExecuted<R>(db: Tables<R>, st: Insert, rules: Rules<R>)
    requires |st.rows| == 1
    ensures Execute(db, st, rules) ==
            var stored := Fated(rules.row(db, db, st.table, st.columns, st.rows[0]));
            if stored.Some? && rules.check(db, Grown(db, st.table, stored.value)) then Grown(db, st.table, stored.value)
            else db
  {
    hide RowsStored;
    OneRowStored(db, db, st, rules);
    GrownByNothing(db, st.table);
  }

  /** Two rows, neither of them refused: what each stores as part of the combined INSERT, and what the second
      stores by itself after the first. */
  lemma PairStored<R>(db: Tables<R>, a: Request, b: Request, rules: Rules<R>, first: R, part: R, second: R)
    requires |a.rows| == |b.rows| == 1 && a.table == b.table
    requires rules.row(db, db, a.table, a.columns, a.rows[0]) == Stored(first)
    requires var now := Grown(db, a.table, [first]);
             && rules.row(db, now, a.table, a.columns, b.rows[0]) == Stored(part)
             && rules.row(now, now, a.table, b.columns, b.rows[0]) == Stored(second)
             && rules.check(db, now) && rules.check(db, Grown(db, a.table, [first, part]))
             && rules.check(now, Grown(now, a.table, [second]))
    ensures Execute(db, Combined([a, b]), rules) == Grown(db, a.table, [first, part])
    ensures OneByOne(db, [a, b], rules) == Grown(db, a.table, [first, second])
  {
    hide RowsStored, OneByOne, Grown, Combined;
    PairRuns(db, a, b, rules);
    assert [first] + [part] == [first, part] && [first] + [second] == [first, second];
    assert Execute(db, Combined([a, b]), rules) == Grown(db, a.table, [first, part]);
    OneRowExecuted(db, Single(a), rules);
    OneRowExecuted(Grown(db, a.table, [first]), Single(b), rules);
    GrownTwice(db, a.table, [first], [second]);
  }

  /** Two rows of which the first is refused by the check at the end of its own INSERT only. */
  lemma PairFirstRefused<R>(db: Tables<R>, a: Request, b: Request, rules: Rules<R>, first: R, second: R)
    requires |a.rows| == |b.rows| == 1 && a.table == b.table
    requires rules.row(db, db, a.table, a.columns, a.rows[0]) == Stored(first)
    requires rules.row(db, Grown(db, a.table, [first]), a.table, a.columns, b.rows[0]) == Stored(second)
    requires rules.row(db, db, a.table, b.columns, b.rows[0]) == Stored(second)
    requires !rules.check(db, Grown(db, a.table, [first]))
    requires rules.check(db, Grown(db, a.table, [first, second])) && rules.check(db, Grown(db, a.table, [second]))
    ensures Execute(db, Combined([a, b]), rules) == Grown(db, a.table, [first, second])
    ensures OneByOne(db, [a, b], rules) == Grown(db, a.table, [second])
  {
    hide RowsStored, OneByOne, Grown, Combined;
    PairRuns(db, a, b, rules);
    assert [first] + [second] == [first, second];
    assert Execute(db, Combined([a, b]), rules) == Grown(db, a.table, [first, second]);
    OneRowExecuted(db, Single(a), rules);
    OneRowExecuted(db, Single(b), rules);
  }

  /** A table that was not there holds just what it has gained. */
  lemma GrownFromNothing<R>(more: seq<R>)
    requires more != []
    ensures Grown(map[], "t", more) == map["t" := more]
  {
    assert [] + more == more;
  }

  function RefuseX(columns: seq<string>, values: seq<string>): Option<(seq<string>, seq<string>)> {
    if values == ["x"] then None else Some((columns, values))
  }

  /** One column list, and the second of two rows is refused: one by one the first row is stored, and the
      combined INSERT stores nothing. */
  lemma RefusedRowDiffers()
    ensures var requests, rules := [OneRow(0, ["c"], ["1"]), OneRow(1, ["c"], ["x"])], ByRow(RefuseX);
            && SameColumns(requests)
            && Execute(map[], Combined(requests), rules) == map[]
            && OneByOne(map[], requests, rules) == map["t" := [(["c"], ["1"])]]
  {
    var a, b, rules := OneRow(0, ["c"], ["1"]), OneRow(1, ["c"], ["x"]), ByRow(RefuseX);
    assert ["1"][0] != ["x"][0];
    GrownFromNothing([(["c"], ["1"])]);
    hide RowsStored, OneByOne, Grown, Combined;
    PairRuns(map[], a, b, rules);
    OneRowExecuted(map[], Single(a), rules);
    OneRowExecuted(map["t" := [(["c"], ["1"])]], Single(b), rules);
    GrownByNothing<(seq<string>, seq<string>)>(map[], "t");
  }

  /** Every reference in a table of pairs is to a row that is there. */
  predicate References(rows: seq<seq<string>>) {
    forall i :: 0 <= i < |rows| && |rows[i]| == 2 && rows[i][1] != "NULL" ==>
      exists j :: 0 <= j < |rows| && |rows[j]| == 2 && rows[j][0] == rows[i][1]
  }

  function SelfReferencing(): Rules<seq<string>> {
    Rules(
      (start: Tables<seq<string>>, now: Tables<seq<string>>, table: Table, columns: seq<string>, values: seq<string>) =>
        Stored(values),
      (start: Tables<seq<string>>, end: Tables<seq<string>>) => References(Contents(end, "t")))
  }

  lemma WhichRefer()
    ensures !References([["1", "2"]]) && References([["1", "2"], ["2", "NULL"]]) && References([["2", "NULL"]])
  {
    assert "1"[0] != "2"[0] && |"NULL"| != |"2"|;
    var one, both := [["1", "2"]], [["1", "2"], ["2", "NULL"]];
    assert |one[0]| == 2 && one[0][1] != "NULL" && one[0][0] != one[0][1];
    assert |both[1]| == 2 && both[1][0] == both[0][1];
  }

  /** A row that refers to the row of the next request only. */
  lemma ReferencePair(columns: seq<string>, first: seq<string>, second: seq<string>)
    requires !References([first]) && References([first, second]) && References([second])
    ensures var requests, rules := [OneRow(0, columns, first), OneRow(1, columns, second)], SelfReferencing();
            && Accepted(map[], Combined(requests), rules)
            && Execute(map[], Combined(requests), rules) == map["t" := [first, second]]
            && OneByOne(map[], requests, rules) == map["t" := [second]]
  {
    hide References, RowsStored, OneByOne, Combined, Grown, Execute, SelfReferencing, Accepted;
    var a, b, rules := OneRow(0, columns, first), OneRow(1, columns, second), SelfReferencing();
    SelfReferences([first]);
    SelfReferences([first, second]);
    SelfReferences([second]);
    StoredAsTheyAre(columns, first);
    StoredAsTheyAre(columns, second);
    PairFirstRefused(map[], a, b, rules, first, second);
    assert map["t" := [first, second]] != map[] by {
      assert "t" in map["t" := [first, second]];
    }
    ChangedMeansAccepted(map[], Combined([a, b]), rules);
  }

  /** One column list and no row refused: the first row refers to the second, which the check at the end of
      the combined INSERT finds and the check at the end of the first single one does not. */
  lemma ReferenceDiffers()
    ensures var columns, rules := ["id", "parent"], SelfReferencing();
            var requests := [OneRow(0, columns, ["1", "2"]), OneRow(1, columns, ["2", "NULL"])];
            && SameColumns(requests) && Accepted(map[], Combined(requests), rules)
            && Execute(map[], Combined(requests), rules) == map["t" := [["1", "2"], ["2", "NULL"]]]
            && OneByOne(map[], requests, rules) == map["t" := [["2", "NULL"]]]
  {
    hide References, RowsStored, OneByOne, Combined, Grown, Execute, SelfReferencing, Accepted;
    WhichRefer();
    ReferencePair(["id", "parent"], ["1", "2"], ["2", "NULL"]);
  }

  lemma SelfReferences(rows: seq<seq<string>>)
    requires rows != []
    ensures Grown(map[], "t", rows) == map["t" := rows]
    ensures SelfReferencing().check(map[], Grown(map[], "t", rows)) <==> References(rows)
  {
    hide References;
    GrownFromNothing(rows);
    assert Contents(map["t" := rows], "t") == rows;
  }

  lemma StoredAsTheyAre(columns: seq<string>, values: seq<string>)
    ensures forall start, now, table :: SelfReferencing().row(start, now, table, columns, values) == Stored(values)
  {
  }

  lemma ChangedMeansAccepted<R>(db: Tables<R>, st: Insert, rules: Rules<R>)
    requires Execute(db, st, rules) != db
    ensures Accepted(db, st, rules)
  {
  }

  /** Each row stores how many rows the table had. */
  function Counting(): Rules<int> {
    Rules(
      (start: Tables<int>, now: Tables<int>, table: Table, columns: seq<string>, values: seq<string>) =>
        Stored(|Contents(start, table)|),
      (start: Tables<int>, end: Tables<int>) => true)
  }

  /** One column list and nothing refused: a value that counts the table's rows is evaluated on the tables
      at the start of its statement. */
  lemma SnapshotDiffers()
    ensures var count := ["(SELECT count(*) FROM t)"];
            var requests, rules := [OneRow(0, ["n"], count), OneRow(1, ["n"], count)], Counting();
            && Execute(map[], Combined(requests), rules) == map["t" := [0, 0]]
            && OneByOne(map[], requests, rules) == map["t" := [0, 1]]
  {
    var count := ["(SELECT count(*) FROM t)"];
    GrownFromNothing([0]);
    GrownFromNothing([0, 0]);
    GrownFromNothing([0, 1]);
    hide Execute, OneByOne, Combined, RowsStored, Grown;
    PairStored(map[], OneRow(0, ["n"], count), OneRow(1, ["n"], count), Counting(), 0, 0, 1);
  }

  /** Two column lists and nothing refused: the combined INSERT stores the second row under the columns of
      the first. */
  lemma SecondColumnsLost()
    ensures var requests, rules := [OneRow(0, ["c"], ["1"]), OneRow(1, ["d"], ["2"])], ByRow(RefuseX);
            && Execute(map[], Combined(requests), rules) == map["t" := [(["c"], ["1"]), (["c"], ["2"])]]
            && OneByOne(map[], requests, rules) == map["t" := [(["c"], ["1"]), (["d"], ["2"])]]
  {
    assert ["1"][0] != ["x"][0] && ["2"][0] != ["x"][0];
    var one, two, moved := (["c"], ["1"]), (["d"], ["2"]), (["c"], ["2"]);
    assert RefuseX(["c"], ["1"]) == Some(one) && RefuseX(["d"], ["2"]) == Some(two);
    assert RefuseX(["c"], ["2"]) == Some(moved);
    GrownFromNothing([one, moved]);
    GrownFromNothing([one, two]);
    hide Execute, OneByOne, Combined, RowsStored, Grown;
    PairStored(map[], OneRow(0, ["c"], ["1"]), OneRow(1, ["d"], ["2"]), ByRow(RefuseX), one, moved, two);
  }

  /** A row is stored as what it says about each column. */
  function ByName(columns: seq<string>, values: seq<string>): Option<map<string, string>> {
    if |columns| == |values| == 2 then Some(map[columns[0] := values[0], columns[1] := values[1]]) else None
  }

  /** Two column lists on which the two agree, whatever the database holds: the second row has the same value
      in both columns. */
  lemma SwappedColumnsAgree(db: Tables<map<string, string>>)
    ensures var requests := [OneRow(0, ["a", "b"], ["1", "2"]), OneRow(1, ["b", "a"], ["5", "5"])];
            && !SameColumns(requests)
            && Execute(db, Combined(requests), ByRow(ByName)) == OneByOne(db, requests, ByRow(ByName))
  {
    var a, b := OneRow(0, ["a", "b"], ["1", "2"]), OneRow(1, ["b", "a"], ["5", "5"]);
    var first, second := map["a" := "1", "b" := "2"], map["b" := "5", "a" := "5"];
    assert second == map["a" := "5", "b" := "5"];
    assert ByName(["a", "b"], ["1", "2"]) == Some(first);
    assert ByName(["a", "b"], ["5", "5"]) == ByName(["b", "a"], ["5", "5"]) == Some(second);
    assert ["a", "b"][0] != ["b", "a"][0];
    assert [a, b][1].columns != [a, b][0].columns;
    hide Execute, OneByOne, Combined, RowsStored, Grown;
    PairStored(db, a, b, ByRow(ByName), first, second, second);
  }

  // ---- what the requests are told ------------------------------------------------------------

  /** The replies to `requests`, in order. */
  ghost function Answered(requests: seq<Request>, ok: bool): seq<Reply> {
    seq(|requests|, k requires 0 <= k < |requests| => ReplyTo(requests[k], ok))
  }

  lemma {:induction false} AnswersAddUp(requests: seq<Request>, ok: bool)
    ensures SeqSum(Answered(requests, ok), ReplyRows) == if ok then SeqSum(requests, Rows) else 0
  {
    if requests != [] {
      var n := |requests| - 1;
      AnswersAddUp(requests[..n], ok);
      assert Answered(requests, ok)[..n] == Answered(requests[..n], ok);
    }
  }

  lemma {:induction false} RowsAddUp(requests: seq<Request>)
    ensures |AllRows(requests)| == SeqSum(requests, Rows)
  {
    if requests != [] {
      RowsAddUp(requests[..|requests| - 1]);
    }
  }

  /** What becomes of the call that runs the combined INSERT: there is no backend or no connection; the
      answer of the database arrives; or the answer is lost, and the statement ran or did not. */
  datatype Delivery = Unreached | Arrived | AnswerLost(ran: bool)

  function AfterCall<R>(db: Tables<R>, st: Insert, d: Delivery, rules: Rules<R>): Tables<R> {
    if d.Arrived? || (d.AnswerLost? && d.ran) then Execute(db, st, rules) else db
  }

  /** The flag in the replies: the call returned without an error. */
  predicate ToldSuccess<R>(db: Tables<R>, st: Insert, d: Delivery, rules: Rules<R>) {
    d.Arrived? && Accepted(db, st, rules)
  }

  /** For every database and every way the call can go: the rows that the requests are told of are as many
      as the table has gained if and only if, when the answer arrives, an accepted INSERT drops no row and,
      when it is lost, the INSERT did not run or stores nothing. */
  lemma RepliesTellGainIff<R>(db: Tables<R>, requests: seq<Request>, d: Delivery, rules: Rules<R>)
    requires requests != []
    ensures var st := Combined(requests);
            var gained := |Contents(AfterCall(db, st, d, rules), st.table)| - |Contents(db, st.table)|;
            gained == SeqSum(Answered(requests, ToldSuccess(db, st, d, rules)), ReplyRows) <==>
            match d
            case Unreached => true
            case Arrived => Accepted(db, st, rules) ==> KeepsAll(db, st, rules)
            case AnswerLost(ran) => ran ==> Gain(db, st, rules) == []
  {
    hide Accepted, SeqSum, Answered, RowsStored;
    var st := Combined(requests);
    AnswersAddUp(requests, ToldSuccess(db, st, d, rules));
    RowsAddUp(requests);
  }

  /** The INSERT runs and its answer is lost: one row gained, and none told. */
  lemma LostAnswerHidesRows()
    ensures var requests, rules := [OneRow(0, ["c"], ["1"])], ByRow(RefuseX);
            var st := Combined(requests);
            && Contents(AfterCall(map[], st, AnswerLost(true), rules), "t") == [(["c"], ["1"])]
            && !ToldSuccess(map[], st, AnswerLost(true), rules)
  {
    assert ["1"][0] != ["x"][0];
    CombinedOne(OneRow(0, ["c"], ["1"]));
    OneRowExecuted(map[], Single(OneRow(0, ["c"], ["1"])), ByRow(RefuseX));
    assert [] + [(["c"], ["1"])] == [(["c"], ["1"])];
  }

  /** Rules with a trigger that drops every row. */
  function DropsAll(): Rules<int> {
    Rules(
      (start: Tables<int>, now: Tables<int>, table: Table, columns: seq<string>, values: seq<string>) => Dropped,
      (start: Tables<int>, end: Tables<int>) => true)
  }

  /** The row is dropped: none gained, and one told. */
  lemma DroppedRowIsReported()
    ensures var requests, rules := [OneRow(0, ["c"], ["1"])], DropsAll();
            var st := Combined(requests);
            && AfterCall(map[], st, Arrived, rules) == map[]
            && ToldSuccess(map[], st, Arrived, rules)
            && SeqSum(Answered(requests, true), ReplyRows) == 1
  {
    var r := OneRow(0, ["c"], ["1"]);
    CombinedOne(r);
    OneRowStored(map[], map[], Single(r), DropsAll());
    AnswersAddUp([r], true);
    SeqSumSingle(r, Rows);
  }

  /** In every run, every sealed batch: if its statement succeeds, the rows that its requests are told of
      add up to the row count that goes into the statistics. */
  lemma RepliesMatchRowCount(events: seq<Event>, cfg: Config, i: nat)
    requires i < |Run(events, cfg).tasks| && Run(events, cfg).tasks[i].Sealed?
    ensures var t := Run(events, cfg).tasks[i];
            SeqSum(Answered(t.requests, true), ReplyRows) == t.rowCount
  {
    hide Run, SeqSum, MapSum;
    RowsConserved(events, cfg);
    AnswersAddUp(Run(events, cfg).tasks[i].requests, true);
  }
}
