/** The gateways' pool of idle backend clients: a bounded list per backend identity, with counters that
    account for every client handed back. */
module GatewayPool {
  import opened Wrappers
  import opened Sums

  type Key = string

  type Client = nat

  /** A request. `Looking` is at the head of the checkout loop, `Took` has popped an idle client and has
      not yet looked at it, `Dialing` found none, and `Out` owns a client. */
  datatype Slot =
    | Done
    | Looking(key: Key)
    | Took(key: Key, client: Client)
    | Dialing(key: Key)
    | Connecting(key: Key)
    | Out(key: Key, client: Client)

  datatype State = State(
    idle: map<Key, seq<Client>>,
    reuse: nat, discard: nat, miss: nat,     // the counters of the pool
    acquires: nat, returned: nat,            // calls of `acquire`, and of `release` and `discard`
    nextClient: Client,
    slots: seq<Slot>)

  /** `Step(i, yes)` is the next action of request `i`; `yes` says that the client is alive, or that the
      dial succeeded. */
  datatype Event = Acquire(key: Key) | Release(i: nat) | Discard(i: nat) | Step(i: nat, yes: bool)

  function List(idle: map<Key, seq<Client>>, key: Key): seq<Client> {
    if key in idle then idle[key] else []
  }

  /** `release`: kept if there is room, dropped and counted otherwise. */
  function Put(s: State, key: Key, client: Client, max: nat): State {
    if max == 0 || |List(s.idle, key)| >= max then s.(discard := s.discard + 1, returned := s.returned + 1)
    else s.(idle := s.idle[key := List(s.idle, key) + [client]], returned := s.returned + 1)
  }

  /** One turn of the checkout loop's first half: the most recently returned client is taken. */
  function Take(s: State, key: Key): (State, Slot) {
    var list := List(s.idle, key);
    if list == [] then (s, Dialing(key))
    else (s.(idle := s.idle[key := list[..|list| - 1]]), Took(key, list[|list| - 1]))
  }

  function Next(s: State, sl: Slot, yes: bool): (State, Slot) {
    match sl
    case Looking(key) => Take(s, key)
    case Took(key, client) =>
      if yes then (s.(reuse := s.reuse + 1), Out(key, client)) else (s.(discard := s.discard + 1), Looking(key))
    case Dialing(key) => (s.(miss := s.miss + 1), Connecting(key))
    case Connecting(key) =>
      if yes then (s.(nextClient := s.nextClient + 1), Out(key, s.nextClient)) else (s, Done)
    case _ => (s, sl)
  }

  function Apply(s: State, e: Event, max: nat): State {
    match e
    case Acquire(key) =>
      s.(acquires := s.acquires + 1, slots := s.slots + [if max == 0 then Dialing(key) else Looking(key)])
    case Release(i) =>
      if i < |s.slots| && s.slots[i].Out? then
        Put(s, s.slots[i].key, s.slots[i].client, max).(slots := s.slots[i := Done])
      else s
    case Discard(i) =>
      if i < |s.slots| && s.slots[i].Out? then
        s.(discard := s.discard + 1, returned := s.returned + 1, slots := s.slots[i := Done])
      else s
    case Step(i, yes) =>
      if i < |s.slots| then
        var (s', sl) := Next(s, s.slots[i], yes);
        s'.(slots := s.slots[i := sl])
      else s
  }

  function Initial(): State {
    State(map[], 0, 0, 0, 0, 0, 0, [])
  }

  function Run(events: seq<Event>, max: nat): State {
    if events == [] then Initial()
    else Apply(Run(events[..|events| - 1], max), events[|events| - 1], max)
  }

  // ---- the laws ------------------------------------------------------------------------------

  function Size(list: seq<Client>): nat {
    |list|
  }

  /** Taken out of an idle list and not yet counted. */
  function Uncounted(sl: Slot): nat {
    if sl.Took? then 1 else 0
  }

  /** An acquire that has neither reused nor missed yet. */
  function Undecided(sl: Slot): nat {
    if sl.Looking? || sl.Took? || sl.Dialing? then 1 else 0
  }

  ghost predicate Bounded(idle: map<Key, seq<Client>>, max: nat) {
    forall key :: key in idle ==> |idle[key]| <= max
  }

  /** Every client handed back is idle, reused, discarded, or in the hand of an acquire that has yet to
      look at it; every acquire has reused, missed, or not decided; no list is longer than allowed. */
  ghost predicate Law(s: State, max: nat) {
    && MapSum(s.idle, Size) + s.reuse + s.discard + SeqSum(s.slots, Uncounted) == s.returned
    && s.reuse + s.miss + SeqSum(s.slots, Undecided) == s.acquires
    && Bounded(s.idle, max)
  }

  lemma TakeLaw(s: State, key: Key, max: nat)
    requires Bounded(s.idle, max)
    ensures var (s', sl) := Take(s, key);
            && MapSum(s'.idle, Size) + Uncounted(sl) == MapSum(s.idle, Size)
            && Bounded(s'.idle, max)
  {
    var list := List(s.idle, key);
    if list != [] {
      MapSumInsert(s.idle, key, list[..|list| - 1], Size);
    }
  }

  lemma PutLaw(s: State, key: Key, client: Client, max: nat)
    requires Bounded(s.idle, max)
    ensures var s' := Put(s, key, client, max);
            && MapSum(s'.idle, Size) + s'.discard == MapSum(s.idle, Size) + s.discard + 1
            && Bounded(s'.idle, max)
  {
    MapSumInsert(s.idle, key, List(s.idle, key) + [client], Size);
  }

  lemma LawStep(s: State, e: Event, max: nat)
    requires Law(s, max)
    ensures Law(Apply(s, e, max), max)
  {
    hide MapSum, SeqSum, Take, Put;
    var s' := Apply(s, e, max);
    match e
    case Acquire(key) =>
      var sl := if max == 0 then Dialing(key) else Looking(key);
      SeqSumAppend(s.slots, sl, Uncounted);
      SeqSumAppend(s.slots, sl, Undecided);
    case Release(i) =>
      if i < |s.slots| && s.slots[i].Out? {
        SeqSumUpdate(s.slots, i, Done, Uncounted);
        SeqSumUpdate(s.slots, i, Done, Undecided);
        PutLaw(s, s.slots[i].key, s.slots[i].client, max);
        PutKeeps(s, s.slots[i].key, s.slots[i].client, max);
      }
    case Discard(i) =>
      if i < |s.slots| && s.slots[i].Out? {
        SeqSumUpdate(s.slots, i, Done, Uncounted);
        SeqSumUpdate(s.slots, i, Done, Undecided);
      }
    case Step(i, yes) =>
      if i < |s.slots| {
        var sl := Next(s, s.slots[i], yes).1;
        SeqSumUpdate(s.slots, i, sl, Uncounted);
        SeqSumUpdate(s.slots, i, sl, Undecided);
        if s.slots[i].Looking? {
          TakeLaw(s, s.slots[i].key, max);
          TakeKeeps(s, s.slots[i].key);
        }
      }
  }

  lemma PutKeeps(s: State, key: Key, client: Client, max: nat)
    ensures var s' := Put(s, key, client, max);
            s' == s.(idle := s'.idle, discard := s'.discard, returned := s.returned + 1)
  {
  }

  lemma TakeKeeps(s: State, key: Key)
    ensures var (s', sl) := Take(s, key); s' == s.(idle := s'.idle) && (sl.Took? || sl.Dialing?)
  {
  }

  lemma {:induction false} RunLaw(events: seq<Event>, max: nat)
    ensures Law(Run(events, max), max)
  {
    if events != [] {
      RunLaw(events[..|events| - 1], max);
      LawStep(Run(events[..|events| - 1], max), events[|events| - 1], max);
    }
  }

  /** When every call has returned or is dialing: idle plus reused plus discarded is everything handed
      back, and reused plus missed is every acquire. */
  lemma CountersBalance(events: seq<Event>, max: nat)
    requires forall sl :: sl in Run(events, max).slots ==> sl.Done? || sl.Out? || sl.Connecting?
    ensures var s := Run(events, max);
            && MapSum(s.idle, Size) + s.reuse + s.discard == s.returned
            && s.reuse + s.miss == s.acquires
            && Bounded(s.idle, max)
  {
    RunLaw(events, max);
    var s := Run(events, max);
    SumOfZero(s.slots, Uncounted);
    SumOfZero(s.slots, Undecided);
  }

  lemma {:induction false} SumOfZero(slots: seq<Slot>, f: Slot -> nat)
    requires forall sl :: sl in slots ==> f(sl) == 0
    ensures SeqSum(slots, f) == 0
  {
    if slots != [] {
      SumOfZero(slots[..|slots| - 1], f);
    }
  }

  // ---- one owner per client ------------------------------------------------------------------

  ghost function IsClient(c: Client): Client -> nat {
    (x: Client) => if x == c then 1 else 0
  }

  ghost function InList(c: Client): seq<Client> -> nat {
    (list: seq<Client>) => SeqSum(list, IsClient(c))
  }

  ghost function InSlot(c: Client): Slot -> nat {
    (sl: Slot) => if (sl.Took? || sl.Out?) && sl.client == c then 1 else 0
  }

  /** How often a client occurs, over all idle lists and all requests. */
  ghost function Occurrences(s: State, c: Client): nat {
    MapSum(s.idle, InList(c)) + SeqSum(s.slots, InSlot(c))
  }

  ghost predicate OneOwner(s: State) {
    forall c: Client :: Occurrences(s, c) <= if c < s.nextClient then 1 else 0
  }

  lemma TakeMoves(s: State, key: Key, c: Client)
    ensures var (s', sl) := Take(s, key); MapSum(s'.idle, InList(c)) + InSlot(c)(sl) == MapSum(s.idle, InList(c))
  {
    var list := List(s.idle, key);
    if list != [] {
      MapSumInsert(s.idle, key, list[..|list| - 1], InList(c));
    }
  }

  lemma PutMoves(s: State, key: Key, client: Client, max: nat, c: Client)
    ensures MapSum(Put(s, key, client, max).idle, InList(c)) <= MapSum(s.idle, InList(c)) + IsClient(c)(client)
  {
    MapSumInsert(s.idle, key, List(s.idle, key) + [client], InList(c));
    SeqSumAppend(List(s.idle, key), client, IsClient(c));
  }

  lemma OccurrencesStep(s: State, e: Event, max: nat, c: Client)
    ensures var s' := Apply(s, e, max);
            Occurrences(s', c) <= Occurrences(s, c) + if s'.nextClient > s.nextClient && c == s.nextClient then 1 else 0
  {
    hide MapSum, SeqSum, Take, Put;
    match e
    case Acquire(key) => SeqSumAppend(s.slots, if max == 0 then Dialing(key) else Looking(key), InSlot(c));
    case Release(i) =>
      if i < |s.slots| && s.slots[i].Out? {
        SeqSumUpdate(s.slots, i, Done, InSlot(c));
        PutMoves(s, s.slots[i].key, s.slots[i].client, max, c);
        PutKeeps(s, s.slots[i].key, s.slots[i].client, max);
      }
    case Discard(i) =>
      if i < |s.slots| && s.slots[i].Out? {
        SeqSumUpdate(s.slots, i, Done, InSlot(c));
      }
    case Step(i, yes) =>
      if i < |s.slots| {
        SeqSumUpdate(s.slots, i, Next(s, s.slots[i], yes).1, InSlot(c));
        if s.slots[i].Looking? {
          TakeMoves(s, s.slots[i].key, c);
          TakeKeeps(s, s.slots[i].key);
        }
      }
  }

  lemma NextClientStep(s: State, e: Event, max: nat)
    ensures s.nextClient <= Apply(s, e, max).nextClient <= s.nextClient + 1
  {
  }

  /** In every run, a client is idle once, or owned by one request, or gone. */
  lemma {:induction false} ClientsHaveOneOwner(events: seq<Event>, max: nat)
    ensures OneOwner(Run(events, max))
  {
    if events != [] {
      var s, e := Run(events[..|events| - 1], max), events[|events| - 1];
      ClientsHaveOneOwner(events[..|events| - 1], max);
      hide Apply, Occurrences;
      NextClientStep(s, e, max);
      forall c: Client ensures Occurrences(Apply(s, e, max), c) <= if c < Apply(s, e, max).nextClient then 1 else 0 {
        OccurrencesStep(s, e, max, c);
        assert Occurrences(s, c) <= if c < s.nextClient then 1 else 0;
      }
    }
  }

  // ---- a client serves the backend it was dialed for -----------------------------------------

  /** The key of every acquire, in order. */
  function Asked(events: seq<Event>): seq<Key> {
    if events == [] then []
    else
      var front, e := Asked(events[..|events| - 1]), events[|events| - 1];
      if e.Acquire? then front + [e.key] else front
  }

  /** The key of every client, by its number: that of the request whose dial made it. */
  ghost function DialedFor(events: seq<Event>, max: nat): seq<Key> {
    if events == [] then []
    else
      var before, e := events[..|events| - 1], events[|events| - 1];
      DialedFor(before, max) + NewlyDialed(Run(before, max), Asked(before), e)
  }

  ghost predicate OwnClient(dialed: seq<Key>, key: Key, c: Client) {
    c < |dialed| && dialed[c] == key
  }

  ghost predicate OwnLists(idle: map<Key, seq<Client>>, dialed: seq<Key>) {
    forall key, k :: key in idle && 0 <= k < |idle[key]| ==> OwnClient(dialed, key, idle[key][k])
  }

  /** A request is for the key it was made with, and the client in its hand was dialed for that key. */
  ghost predicate OwnSlot(sl: Slot, asked: Key, dialed: seq<Key>) {
    && (!sl.Done? ==> sl.key == asked)
    && (sl.Took? || sl.Out? ==> OwnClient(dialed, sl.key, sl.client))
  }

  ghost predicate OwnClients(s: State, asked: seq<Key>, dialed: seq<Key>) {
    && |asked| == |s.slots| && |dialed| == s.nextClient
    && OwnLists(s.idle, dialed)
    && forall i :: 0 <= i < |s.slots| ==> OwnSlot(s.slots[i], asked[i], dialed)
  }

  lemma OwnTake(s: State, key: Key, dialed: seq<Key>)
    requires OwnLists(s.idle, dialed)
    ensures var (s', sl) := Take(s, key); OwnLists(s'.idle, dialed) && OwnSlot(sl, key, dialed)
  {
  }

  lemma OwnPut(s: State, key: Key, client: Client, max: nat, dialed: seq<Key>)
    requires OwnLists(s.idle, dialed) && OwnClient(dialed, key, client)
    ensures OwnLists(Put(s, key, client, max).idle, dialed)
  {
  }

  lemma OwnGrows(s: State, asked: seq<Key>, dialed: seq<Key>, key: Key)
    requires OwnClients(s, asked, dialed)
    ensures OwnLists(s.idle, dialed + [key])
    ensures forall i :: 0 <= i < |s.slots| ==> OwnSlot(s.slots[i], asked[i], dialed + [key])
  {
  }

  /** The clients dialed by one event: the one of a dial that succeeds, for the key its request was made with. */
  ghost function NewlyDialed(s: State, asked: seq<Key>, e: Event): seq<Key> {
    if e.Step? && e.yes && e.i < |s.slots| && s.slots[e.i].Connecting? && e.i < |asked| then [asked[e.i]] else []
  }

  lemma OwnStep(s: State, asked: seq<Key>, dialed: seq<Key>, i: nat, yes: bool, max: nat)
    requires OwnClients(s, asked, dialed)
    ensures OwnClients(Apply(s, Step(i, yes), max), asked, dialed + NewlyDialed(s, asked, Step(i, yes)))
  {
    hide OwnLists, OwnClient, Take;
    assert dialed + [] == dialed;
    if i < |s.slots| {
      var sl := s.slots[i];
      assert OwnSlot(sl, asked[i], dialed);
      if sl.Looking? {
        OwnTake(s, sl.key, dialed);
        TakeKeeps(s, sl.key);
      } else if sl.Connecting? && yes {
        OwnGrows(s, asked, dialed, asked[i]);
        OwnLast(dialed, asked[i]);
      }
    }
  }

  lemma OwnRelease(s: State, asked: seq<Key>, dialed: seq<Key>, i: nat, max: nat)
    requires OwnClients(s, asked, dialed)
    ensures OwnClients(Apply(s, Release(i), max), asked, dialed)
  {
    hide OwnLists, OwnClient, Put;
    if i < |s.slots| && s.slots[i].Out? {
      assert OwnSlot(s.slots[i], asked[i], dialed);
      OwnPut(s, s.slots[i].key, s.slots[i].client, max, dialed);
      PutKeeps(s, s.slots[i].key, s.slots[i].client, max);
    }
  }

  /** In every run, a client that is idle under a key, or handed out for one, was dialed for that key. */
  lemma {:induction false} ClientsServeTheirKey(events: seq<Event>, max: nat)
    ensures OwnClients(Run(events, max), Asked(events), DialedFor(events, max))
  {
    if events != [] {
      var before, e := events[..|events| - 1], events[|events| - 1];
      ClientsServeTheirKey(before, max);
      hide OwnLists, OwnClient, Next, Put;
      var s, asked, dialed := Run(before, max), Asked(before), DialedFor(before, max);
      assert dialed + [] == dialed;
      match e
      case Step(i, yes) => OwnStep(s, asked, dialed, i, yes, max);
      case Release(i) => OwnRelease(s, asked, dialed, i, max);
      case _ =>
    } else {
      NothingOwned();
    }
  }

  lemma OwnLast(dialed: seq<Key>, key: Key)
    ensures OwnClient(dialed + [key], key, |dialed|)
  {
  }

  lemma NothingOwned()
    ensures OwnLists(map[], [])
  {
  }

  // ---- the pool, updated in place ------------------------------------------------------------

  /** The part of `acquire` before a dial, with nobody in between. */
  function Alone(s: State, sl: Slot, alive: Client -> bool): (State, Slot)
    decreases if sl.Looking? then 2 * |List(s.idle, sl.key)| + 1
              else if sl.Took? then 2 * |List(s.idle, sl.key)| + 2
              else 0
  {
    match sl
    case Looking(key) => var (s', sl') := Next(s, sl, true); Alone(s', sl', alive)
    case Took(_, client) => var (s', sl') := Next(s, sl, alive(client)); Alone(s', sl', alive)
    case Dialing(_) => Next(s, sl, true)
    case _ => (s, sl)
  }

  /** One turn of the loop: the last client of the list is looked at. */
  lemma AloneTurn(s: State, key: Key, alive: Client -> bool)
    requires List(s.idle, key) != []
    ensures var list := List(s.idle, key);
            var taken, client := s.(idle := s.idle[key := list[..|list| - 1]]), list[|list| - 1];
            Alone(s, Looking(key), alive) ==
            if alive(client) then (taken.(reuse := s.reuse + 1), Out(key, client))
            else Alone(taken.(discard := s.discard + 1), Looking(key), alive)
  {
    var list := List(s.idle, key);
    var taken, client := s.(idle := s.idle[key := list[..|list| - 1]]), list[|list| - 1];
    assert Alone(s, Looking(key), alive) == Alone(taken, Took(key, client), alive);
    if alive(client) {
      assert Next(taken, Took(key, client), true) == (taken.(reuse := s.reuse + 1), Out(key, client));
    } else {
      assert Next(taken, Took(key, client), false) == (taken.(discard := s.discard + 1), Looking(key));
    }
  }

  lemma AloneMiss(s: State, key: Key, alive: Client -> bool)
    ensures Alone(s, Dialing(key), alive) == (s.(miss := s.miss + 1), Connecting(key))
    ensures List(s.idle, key) == [] ==> Alone(s, Looking(key), alive) == Alone(s, Dialing(key), alive)
  {
  }

  /** The most recently returned client that is alive, if there is one; the dead ones above it, and only
      those, are dropped and counted. */
  ghost predicate CheckedOut(s: State, key: Key, alive: Client -> bool, s': State, r: Option<Client>) {
    var list, rest := List(s.idle, key), List(s'.idle, key);
    && s' == s.(idle := s'.idle, reuse := s'.reuse, discard := s'.discard, miss := s'.miss)
    && (forall k :: k != key ==> List(s'.idle, k) == List(s.idle, k))
    && rest <= list
    && match r
       case None =>
         && s'.reuse == s.reuse && s'.miss == s.miss + 1 && s'.discard == s.discard + |list|
         && rest == [] && forall j :: 0 <= j < |list| ==> !alive(list[j])
       case Some(client) =>
         && s'.reuse == s.reuse + 1 && s'.miss == s.miss && s'.discard == s.discard + |list| - |rest| - 1
         && |rest| < |list| && client == list[|rest|] && alive(client)
         && forall j :: |rest| < j < |list| ==> !alive(list[j])
  }

  lemma {:induction false} AloneMeaning(s: State, key: Key, alive: Client -> bool)
    ensures var (s', sl') := Alone(s, Looking(key), alive);
            if sl'.Out? then sl'.key == key && CheckedOut(s, key, alive, s', Some(sl'.client))
            else sl' == Connecting(key) && CheckedOut(s, key, alive, s', None)
    decreases |List(s.idle, key)|
  {
    hide Alone;
    var list := List(s.idle, key);
    if list == [] {
      AloneMiss(s, key, alive);
    } else {
      AloneTurn(s, key, alive);
      if !alive(list[|list| - 1]) {
        AloneMeaning(s.(idle := s.idle[key := list[..|list| - 1]], discard := s.discard + 1), key, alive);
      }
    }
  }

  class BackendClientPool {
    const maxIdlePerKey: nat
    var idle: map<Key, seq<Client>>
    var reuseCount: nat
    var discardCount: nat
    var missCount: nat

    /** What the protocol sees of the pool itself. */
    ghost function View(): State
      reads this
    {
      State(idle, reuseCount, discardCount, missCount, 0, 0, 0, [])
    }

    constructor (max: nat)
      ensures maxIdlePerKey == max && idle == map[] && reuseCount == 0 && discardCount == 0 && missCount == 0
    {
      maxIdlePerKey, idle, reuseCount, discardCount, missCount := max, map[], 0, 0, 0;
    }

    /** The lock section of the checkout loop: the last client of the list, if there is one. */
    method PopIdle(key: Key) returns (candidate: Option<Client>)
      modifies this`idle
      ensures var list := old(List(idle, key));
              if list == [] then candidate == None && idle == old(idle)
              else candidate == Some(list[|list| - 1]) && idle == old(idle)[key := list[..|list| - 1]]
    {
      candidate := None;
      if key in idle && idle[key] != [] {
        var list := idle[key];
        candidate := Some(list[|list| - 1]);
        idle := idle[key := list[..|list| - 1]];
      }
    }

    /** `acquire` up to the dial: the most recently returned client that is alive, if there is one; every
        dead one found on the way is dropped and counted. */
    method Acquire(key: Key, alive: Client -> bool) returns (r: Option<Client>)
      modifies this`idle, this`reuseCount, this`discardCount, this`missCount
      ensures (View(), if r.Some? then Out(key, r.value) else Connecting(key))
           == Alone(old(View()), if maxIdlePerKey == 0 then Dialing(key) else Looking(key), alive)
      ensures maxIdlePerKey == 0 ==> r.None? && View() == old(View()).(miss := old(missCount) + 1)
      ensures maxIdlePerKey > 0 ==> CheckedOut(old(View()), key, alive, View(), r)
    {
      hide Alone, Next, Take, Put;
      if maxIdlePerKey == 0 {
        AloneMiss(View(), key, alive);
        missCount := missCount + 1;
        return None;
      }
      AloneMeaning(View(), key, alive);
      while true
        invariant Alone(old(View()), Looking(key), alive) == Alone(View(), Looking(key), alive)
        decreases |List(idle, key)|
      {
        if List(idle, key) != [] {
          AloneTurn(View(), key, alive);
        } else {
          AloneMiss(View(), key, alive);
        }
        var candidate := PopIdle(key);
        match candidate {
          case Some(client) =>
            if alive(client) {
              reuseCount := reuseCount + 1;
              return Some(client);
            }
            discardCount := discardCount + 1;
          case None =>
            missCount := missCount + 1;
            return None;
        }
      }
    }

    method Release(key: Key, client: Client)
      modifies this`idle, this`discardCount
      ensures View() == Put(old(View()), key, client, maxIdlePerKey).(returned := 0)
      ensures forall k :: k != key ==> List(idle, k) == old(List(idle, k))
      ensures var list := old(List(idle, key));
              if |list| < maxIdlePerKey then List(idle, key) == list + [client] && discardCount == old(discardCount)
              else List(idle, key) == list && discardCount == old(discardCount) + 1
      ensures old(Bounded(idle, maxIdlePerKey)) ==> Bounded(idle, maxIdlePerKey)
    {
      if maxIdlePerKey == 0 {
        discardCount := discardCount + 1;
        return;
      }
      var list := if key in idle then idle[key] else [];
      idle := idle[key := list];
      if |list| < maxIdlePerKey {
        idle := idle[key := list + [client]];
      } else {
        discardCount := discardCount + 1;
      }
    }

    /** The idle gauge, added up over the lists. */
    method IdleCount() returns (n: nat)
      ensures n == MapSum(idle, Size)
    {
      n := 0;
      var rest := idle;
      while rest != map[]
        invariant n + MapSum(rest, Size) == MapSum(idle, Size)
        decreases |rest|
      {
        var key :| key in rest;
        MapSumRemove(rest, key, Size);
        n := n + |rest[key]|;
        rest := rest - {key};
      }
    }
  }
}
