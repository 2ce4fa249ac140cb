/** Reading through the cache: concurrent callers of `Group.Get` and the flights they share, as atomic steps. */
module SingleFlight {
  import opened Options

  type Key = string

  type Value = int

  datatype Result = Ok(value: Value) | Failed(error: int) | Panicked

  /** Where the leader of a flight is.  `Finished`: the result is set; `Released`: the waiters may go;
      `Gone`: the flight has left the table. */
  datatype Phase =
    | Checking
    | Missed
    | Loading
    | Storing(value: Value)
    | Finished(result: Result)
    | Released(result: Result)
    | Gone(result: Result)
  {
    /** What a waiter reads. */
    function Open(): Option<Result> {
      if Released? || Gone? then Some(result) else None
    }
  }

  datatype Flight = Flight(key: Key, leader: int, phase: Phase)

  datatype Caller =
    | Cold(key: Key)
    | Leading(flight: nat)
    | Waiting(flight: nat)
    | Returned(key: Key, from: Option<nat>, result: Result)

  /** `consults` lists the keys for which the data source was asked; `losses` those whose load failed or was
      not kept, or whose cached entry was removed; `provided` what was ever set or loaded. */
  datatype State = State(
    callers: map<int, Caller>,
    flights: seq<Flight>,
    table: map<Key, nat>,
    cache: map<Key, Value>,
    consults: seq<Key>,
    losses: seq<Key>,
    provided: set<(Key, Value)>)

  datatype Action =
    | Begin(c: int, key: Key)
    | Join(c: int)
    | Check(c: int)
    | Consult(c: int)
    | Loaded(c: int, result: Result)
    | Add(c: int, kept: bool)
    | Panic(c: int)
    | Release(c: int)
    | Leave(c: int)
    | Wake(c: int)
    | Set(key: Key, value: Value)
    | Remove(key: Key)

  const START := State(map[], [], map[], map[], [], [], {})

  predicate Leads(s: State, c: int) {
    c in s.callers && s.callers[c].Leading? && s.callers[c].flight < |s.flights|
  }

  function Mine(s: State, c: int): Flight
    requires Leads(s, c)
  {
    s.flights[s.callers[c].flight]
  }

  function Move(s: State, c: int, phase: Phase): State
    requires Leads(s, c)
  {
    var f := s.callers[c].flight;
    s.(flights := s.flights[f := s.flights[f].(phase := phase)])
  }

  predicate Enabled(s: State, a: Action) {
    match a
    case Begin(c, _) => c !in s.callers
    case Join(c) => c in s.callers && s.callers[c].Cold?
    case Check(c) => Leads(s, c) && Mine(s, c).phase.Checking?
    case Consult(c) => Leads(s, c) && Mine(s, c).phase.Missed?
    case Loaded(c, result) => Leads(s, c) && Mine(s, c).phase.Loading? && !result.Panicked?
    case Add(c, _) => Leads(s, c) && Mine(s, c).phase.Storing?
    case Panic(c) =>
      Leads(s, c) && (var p := Mine(s, c).phase; p.Checking? || p.Missed? || p.Loading? || p.Storing?)
    case Release(c) => Leads(s, c) && Mine(s, c).phase.Finished?
    case Leave(c) => Leads(s, c) && Mine(s, c).phase.Released?
    case Wake(c) =>
      c in s.callers && s.callers[c].Waiting? && s.callers[c].flight < |s.flights| && s.flights[s.callers[c].flight].phase.Open().Some?
    case Set(_, _) => true
    case Remove(_) => true
  }

  function Step(s: State, a: Action): State
    requires Enabled(s, a)
  {
    match a
    case Begin(c, key) =>
      s.(callers := s.callers[c := if key in s.cache then Returned(key, None, Ok(s.cache[key])) else Cold(key)])
    case Join(c) =>
      var key := s.callers[c].key;
      if key in s.table then s.(callers := s.callers[c := Waiting(s.table[key])])
      else s.(callers := s.callers[c := Leading(|s.flights|)],
              flights := s.flights + [Flight(key, c, Checking)],
              table := s.table[key := |s.flights|])
    case Check(c) =>
      var key := Mine(s, c).key;
      Move(s, c, if key in s.cache then Finished(Ok(s.cache[key])) else Missed)
    case Consult(c) =>
      Move(s, c, Loading).(consults := s.consults + [Mine(s, c).key])
    case Loaded(c, result) =>
      var key := Mine(s, c).key;
      if result.Ok? then Move(s, c, Storing(result.value)).(provided := s.provided + {(key, result.value)})
      else Move(s, c, Finished(result)).(losses := s.losses + [key])
    case Add(c, kept) =>
      var key, value := Mine(s, c).key, Mine(s, c).phase.value;
      if kept then Move(s, c, Finished(Ok(value))).(cache := s.cache[key := value])
      else Move(s, c, Finished(Ok(value))).(losses := s.losses + [key])
    case Panic(c) =>
      var f := Mine(s, c);
      Move(s, c, Finished(Panicked)).(losses := if f.phase.Loading? || f.phase.Storing? then s.losses + [f.key] else s.losses)
    case Release(c) =>
      Move(s, c, Released(Mine(s, c).phase.result))
    case Leave(c) =>
      var f := Mine(s, c);
      Move(s, c, Gone(f.phase.result)).(table := s.table - {f.key},
                                        callers := s.callers[c := Returned(f.key, Some(s.callers[c].flight), f.phase.result)])
    case Wake(c) =>
      var id := s.callers[c].flight;
      s.(callers := s.callers[c := Returned(s.flights[id].key, Some(id), s.flights[id].phase.Open().value)])
    case Set(key, value) =>
      s.(cache := s.cache[key := value], provided := s.provided + {(key, value)})
    case Remove(key) =>
      s.(cache := s.cache - {key}, losses := if key in s.cache then s.losses + [key] else s.losses)
  }

  /** Actions that cannot happen are passed over. */
  function After(s: State, actions: seq<Action>): State {
    if actions == [] then s
    else
      var t, a := After(s, actions[..|actions| - 1]), actions[|actions| - 1];
      if Enabled(t, a) then Step(t, a) else t
  }

  // ---- Invariants ----

  /** The table and the flights that have not gone agree. */
  ghost predicate Tabled(fs: seq<Flight>, table: map<Key, nat>) {
    && (forall k :: k in table ==> table[k] < |fs| && fs[table[k]].key == k && !fs[table[k]].phase.Gone?)
    && (forall i :: 0 <= i < |fs| && !fs[i].phase.Gone? ==> fs[i].key in table && table[fs[i].key] == i)
  }

  /** Each flight that has not gone is led by its leader, and nobody else leads. */
  ghost predicate Led(fs: seq<Flight>, callers: map<int, Caller>) {
    && (forall i :: 0 <= i < |fs| && !fs[i].phase.Gone? ==> fs[i].leader in callers && callers[fs[i].leader] == Leading(i))
    && (forall c :: c in callers && callers[c].Leading? ==>
          callers[c].flight < |fs| && fs[callers[c].flight].leader == c && !fs[callers[c].flight].phase.Gone?)
  }

  /** Who waits or has returned refers to a flight, and has its result. */
  ghost predicate Told(s: State) {
    && (forall c :: c in s.callers && s.callers[c].Waiting? ==> s.callers[c].flight < |s.flights|)
    && (forall c :: c in s.callers && s.callers[c].Returned? && s.callers[c].from.Some? ==>
          var r := s.callers[c];
          && r.from.value < |s.flights|
          && s.flights[r.from.value].phase.Open() == Some(r.result) && s.flights[r.from.value].key == r.key)
  }

  ghost predicate Provided(s: State, key: Key, r: Result) {
    r.Ok? ==> (key, r.value) in s.provided
  }

  ghost predicate FlightSourced(s: State, f: Flight) {
    && (f.phase.Storing? ==> (f.key, f.phase.value) in s.provided)
    && (f.phase.Finished? || f.phase.Released? || f.phase.Gone? ==> Provided(s, f.key, f.phase.result))
  }

  /** Values belong to the key they are found under. */
  ghost predicate Sourced(s: State) {
    && (forall k :: k in s.cache ==> (k, s.cache[k]) in s.provided)
    && (forall i :: 0 <= i < |s.flights| ==>
          FlightSourced(s, s.flights[i]))
    && (forall c :: c in s.callers && s.callers[c].Returned? ==> Provided(s, s.callers[c].key, s.callers[c].result))
  }

  function Count(ks: seq<Key>, k: Key): nat {
    if ks == [] then 0 else Count(ks[..|ks| - 1], k) + if ks[|ks| - 1] == k then 1 else 0
  }

  function PhaseOf(s: State, k: Key): Option<Phase> {
    if k in s.table && s.table[k] < |s.flights| then Some(s.flights[s.table[k]].phase) else None
  }

  /** A consultation that has been paid for by an entry in the cache or by a load under way. */
  ghost predicate Paid(s: State, k: Key) {
    var p := PhaseOf(s, k);
    var missed := p.Some? && p.value.Missed?;
    var loading := p.Some? && (p.value.Loading? || p.value.Storing?);
    Count(s.consults, k) + (if missed then 1 else 0) <= Count(s.losses, k) + (if k in s.cache || missed || loading then 1 else 0)
  }

  ghost predicate Linked(s: State) {
    Tabled(s.flights, s.table) && Led(s.flights, s.callers)
  }

  ghost predicate Inv(s: State) {
    Linked(s) && Told(s) && Sourced(s)
  }

  /** The actions of a leader inside its flight. */
  predicate Inside(a: Action) {
    a.Check? || a.Consult? || a.Loaded? || a.Add? || a.Panic? || a.Release?
  }

  ghost predicate Moved(s: State, t: State, f: nat) {
    && t.table == s.table && t.callers == s.callers
    && f < |s.flights| && !s.flights[f].phase.Released? && !s.flights[f].phase.Gone?
    && |t.flights| == |s.flights| && !t.flights[f].phase.Gone?
    && t.flights == s.flights[f := s.flights[f].(phase := t.flights[f].phase)]
  }

  lemma {:induction false} InsideMoves(s: State, a: Action)
    requires Inside(a) && Enabled(s, a)
    ensures Leads(s, a.c) && Moved(s, Step(s, a), s.callers[a.c].flight)
  {
  }

  lemma {:induction false} MovedLinked(s: State, t: State, f: nat)
    requires Moved(s, t, f) && Linked(s)
    ensures Linked(t)
  {
  }

  lemma {:induction false} JoinLinked(s: State, c: int)
    requires Enabled(s, Join(c)) && Linked(s)
    ensures Linked(Step(s, Join(c)))
  {
    var key, n := s.callers[c].key, |s.flights|;
    if key in s.table {
      assert forall i :: 0 <= i < n && !s.flights[i].phase.Gone? ==> s.flights[i].leader != c;
    } else {
      JoinTabled(s.flights, s.table, Flight(key, c, Checking));
      JoinLed(s.flights, s.callers, Flight(key, c, Checking));
    }
  }

  lemma {:induction false} JoinTabled(fs: seq<Flight>, table: map<Key, nat>, f: Flight)
    requires Tabled(fs, table) && f.key !in table && !f.phase.Gone?
    ensures Tabled(fs + [f], table[f.key := |fs|])
  {
  }

  lemma {:induction false} JoinLed(fs: seq<Flight>, callers: map<int, Caller>, f: Flight)
    requires Led(fs, callers) && f.leader in callers && callers[f.leader].Cold? && !f.phase.Gone?
    ensures Led(fs + [f], callers[f.leader := Leading(|fs|)])
  {
    assert forall i :: 0 <= i < |fs| && !fs[i].phase.Gone? ==> fs[i].leader != f.leader;
  }

  lemma {:induction false} LeaveLinked(s: State, c: int)
    requires Enabled(s, Leave(c)) && Linked(s)
    ensures Linked(Step(s, Leave(c)))
  {
    hide Enabled;
    assert Leads(s, c) && Mine(s, c).phase.Released? by { LeaveEnabled(s, c); }
    var id, t := s.callers[c].flight, Step(s, Leave(c));
    LeaveTabled(s.flights, s.table, id, t.flights[id]);
    assert Led(t.flights, t.callers);
  }

  lemma {:induction false} LeaveEnabled(s: State, c: int)
    requires Enabled(s, Leave(c))
    ensures Leads(s, c) && Mine(s, c).phase.Released?
  {
  }

  lemma {:induction false} LeaveTabled(fs: seq<Flight>, table: map<Key, nat>, id: nat, gone: Flight)
    requires Tabled(fs, table) && id < |fs| && !fs[id].phase.Gone? && gone.phase.Gone? && gone.key == fs[id].key
    ensures Tabled(fs[id := gone], table - {gone.key})
  {
  }

  lemma {:induction false} LinkedStep(s: State, a: Action)
    requires Enabled(s, a) && Linked(s)
    ensures Linked(Step(s, a))
  {
    if Inside(a) {
      InsideMoves(s, a);
      MovedLinked(s, Step(s, a), s.callers[a.c].flight);
    } else if a.Join? {
      JoinLinked(s, a.c);
    } else if a.Leave? {
      LeaveLinked(s, a.c);
    }
  }

  lemma {:induction false} ToldStep(s: State, a: Action)
    requires Enabled(s, a) && Linked(s) && Told(s)
    ensures Told(Step(s, a))
  {
    if Inside(a) {
      InsideMoves(s, a);
    }
  }

  /** What a leader does inside its flight adds no value that was not set or loaded for the key. */
  lemma {:induction false} InsideSourced(s: State, a: Action)
    requires Inside(a) && Enabled(s, a) && Sourced(s)
    ensures var t := Step(s, a);
            && s.provided <= t.provided && FlightSourced(t, t.flights[s.callers[a.c].flight])
            && forall k :: k in t.cache ==> (k in s.cache && t.cache[k] == s.cache[k]) || (k, t.cache[k]) in t.provided
  {
  }

  lemma {:induction false} SourcedStep(s: State, a: Action)
    requires Enabled(s, a) && Linked(s) && Sourced(s)
    ensures Sourced(Step(s, a))
  {
    if Inside(a) {
      InsideMoves(s, a);
      InsideSourced(s, a);
      hide Step, Enabled, Linked;
    } else {
      hide Linked, Tabled, Led;
    }
  }

  lemma {:induction false} CountMore(ks: seq<Key>, x: Key, k: Key)
    ensures Count(ks + [x], k) == Count(ks, k) + if x == k then 1 else 0
  {
    assert (ks + [x])[..|ks|] == ks;
  }

  lemma {:induction false} PhaseMoves(s: State, a: Action, k: Key)
    requires Inside(a) && Enabled(s, a) && Linked(s)
    ensures Leads(s, a.c)
    ensures var f, t := Mine(s, a.c), Step(s, a);
            if f.key == k then PhaseOf(s, k) == Some(f.phase) && PhaseOf(t, k) == Some(t.flights[s.callers[a.c].flight].phase)
            else PhaseOf(t, k) == PhaseOf(s, k)
  {
    InsideMoves(s, a);
    hide Step, Enabled;
  }

  /** The keys an action adds to the two lists. */
  function Consulted(s: State, a: Action): Option<Key>
    requires Enabled(s, a)
  {
    if a.Consult? then Some(Mine(s, a.c).key) else None
  }

  function Lost(s: State, a: Action): Option<Key>
    requires Enabled(s, a)
  {
    match a
    case Loaded(c, result) => if result.Ok? then None else Some(Mine(s, c).key)
    case Add(c, kept) => if kept then None else Some(Mine(s, c).key)
    case Panic(c) => if Mine(s, c).phase.Loading? || Mine(s, c).phase.Storing? then Some(Mine(s, c).key) else None
    case Remove(key) => if key in s.cache then Some(key) else None
    case _ => None
  }

  function Listed(ks: seq<Key>, x: Option<Key>): seq<Key> {
    if x.Some? then ks + [x.value] else ks
  }

  lemma {:induction false} Lists(s: State, a: Action, k: Key)
    requires Enabled(s, a)
    ensures Count(Step(s, a).consults, k) == Count(s.consults, k) + if Consulted(s, a) == Some(k) then 1 else 0
    ensures Count(Step(s, a).losses, k) == Count(s.losses, k) + if Lost(s, a) == Some(k) then 1 else 0
  {
    assert Step(s, a).consults == Listed(s.consults, Consulted(s, a));
    assert Step(s, a).losses == Listed(s.losses, Lost(s, a));
    hide Step, Lost, Consulted, Enabled;
    if Consulted(s, a).Some? {
      CountMore(s.consults, Consulted(s, a).value, k);
    }
    if Lost(s, a).Some? {
      CountMore(s.losses, Lost(s, a).value, k);
    }
  }

  lemma {:induction false} PaidInside(s: State, a: Action, k: Key)
    requires Inside(a) && Enabled(s, a) && Linked(s) && Paid(s, k)
    ensures Paid(Step(s, a), k)
  {
    PhaseMoves(s, a, k);
    Lists(s, a, k);
    hide Count, Linked, PhaseOf;
  }

  lemma {:induction false} PaidStep(s: State, a: Action, k: Key)
    requires Enabled(s, a) && Linked(s) && Paid(s, k)
    ensures Paid(Step(s, a), k)
  {
    hide Count;
    if Inside(a) {
      PaidInside(s, a, k);
    } else {
      Lists(s, a, k);
    }
  }

  lemma {:induction false} AlwaysInv(actions: seq<Action>)
    ensures Inv(After(START, actions))
    ensures forall k :: Paid(After(START, actions), k)
  {
    if actions != [] {
      var n := |actions| - 1;
      AlwaysInv(actions[..n]);
      var s := After(START, actions[..n]);
      hide Linked, Told, Sourced, Paid, Step, Enabled;
      if Enabled(s, actions[n]) {
        LinkedStep(s, actions[n]);
        ToldStep(s, actions[n]);
        SourcedStep(s, actions[n]);
        forall k ensures Paid(Step(s, actions[n]), k) {
          PaidStep(s, actions[n], k);
        }
      }
    }
  }

  // ---- What every run guarantees ----

  /** At most one flight per key is on its way, whoever calls when. */
  lemma {:induction false} OneFlight(actions: seq<Action>, i: nat, j: nat)
    requires var s := After(START, actions);
             && i < |s.flights| && j < |s.flights| && s.flights[i].key == s.flights[j].key
             && !s.flights[i].phase.Gone? && !s.flights[j].phase.Gone?
    ensures i == j
  {
    AlwaysInv(actions);
  }

  lemma {:induction false} ResultStays(s: State, actions: seq<Action>, i: nat)
    requires Linked(s) && i < |s.flights|
    ensures var t := After(s, actions);
            && Linked(t) && i < |t.flights| && t.flights[i].key == s.flights[i].key
            && (s.flights[i].phase.Open().Some? ==> t.flights[i].phase.Open() == s.flights[i].phase.Open())
  {
    if actions != [] {
      var n := |actions| - 1;
      ResultStays(s, actions[..n], i);
      var t := After(s, actions[..n]);
      if Enabled(t, actions[n]) {
        LinkedStep(t, actions[n]);
        ResultStep(t, actions[n], i);
      }
    }
  }

  lemma {:induction false} ResultStep(s: State, a: Action, i: nat)
    requires Enabled(s, a) && Linked(s) && i < |s.flights|
    ensures var t := Step(s, a);
            && i < |t.flights| && t.flights[i].key == s.flights[i].key
            && (s.flights[i].phase.Open().Some? ==> t.flights[i].phase.Open() == s.flights[i].phase.Open())
  {
    hide Linked;
    if Inside(a) {
      InsideMoves(s, a);
    }
  }

  /** Everyone who joined a flight, at any time, returns the one result of that flight, an error if the
      load panicked; what is returned for a key was set or loaded for that key. */
  lemma {:induction false} OneResult(actions: seq<Action>, c: int, d: int)
    requires var s := After(START, actions);
             && c in s.callers && d in s.callers && s.callers[c].Returned? && s.callers[d].Returned?
             && s.callers[c].from.Some? && s.callers[c].from == s.callers[d].from
    ensures var s := After(START, actions);
            && s.callers[c].result == s.callers[d].result && s.callers[c].key == s.callers[d].key
            && (s.callers[c].result.Ok? ==> (s.callers[c].key, s.callers[c].result.value) in s.provided)
  {
    AlwaysInv(actions);
  }

  /** A caller that waits is never forgotten: its flight has a result to give, or is led by a caller with an
      action to take.  So when no leader can act, all who wait can return. */
  lemma {:induction false} NobodyStranded(actions: seq<Action>, c: int)
    requires var s := After(START, actions); c in s.callers && s.callers[c].Waiting?
    ensures var s := After(START, actions);
            Enabled(s, Wake(c)) || exists a :: Inside(a) && Enabled(s, a) && a.c != c && s.callers[a.c] == Leading(s.callers[c].flight)
  {
    AlwaysInv(actions);
    var s := After(START, actions);
    var f := s.flights[s.callers[c].flight];
    if !Enabled(s, Wake(c)) {
      var l := f.leader;
      var a := match f.phase
        case Checking => Check(l)
        case Missed => Consult(l)
        case Loading => Loaded(l, Failed(0))
        case Storing(_) => Add(l, true)
        case Finished(_) => Release(l)
        case _ => Check(l);
      assert Inside(a) && Enabled(s, a);
    }
  }

  /** The data source is consulted at most once for a key, and once more for each load of the key that
      failed or was not kept and for each removal of its entry. */
  lemma {:induction false} ConsultsBounded(actions: seq<Action>, k: Key)
    ensures var s := After(START, actions); Count(s.consults, k) <= Count(s.losses, k) + 1
  {
    AlwaysInv(actions);
    assert Paid(After(START, actions), k);
  }

  /** In particular: from any moment at which the key is cached and no flight for it is past its check, the
      source is not consulted at all as long as nothing is lost. */
  lemma {:induction false} CachedIsNotConsulted(actions: seq<Action>, more: seq<Action>, k: Key)
    requires var s := After(START, actions); k in s.cache && (PhaseOf(s, k).Some? ==> !AtSource(PhaseOf(s, k).value))
    requires Count(After(After(START, actions), more).losses, k) == Count(After(START, actions).losses, k)
    ensures Count(After(After(START, actions), more).consults, k) == Count(After(START, actions).consults, k)
    ensures k in After(After(START, actions), more).cache
  {
    AlwaysInv(actions);
    StaysCached(After(START, actions), more, k);
  }

  predicate AtSource(p: Phase) {
    p.Missed? || p.Loading? || p.Storing?
  }

  ghost predicate Settled(s: State, k: Key) {
    k in s.cache && (PhaseOf(s, k).Some? ==> !AtSource(PhaseOf(s, k).value))
  }

  lemma {:induction false} LossesGrow(s: State, a: Action, k: Key)
    requires Enabled(s, a)
    ensures Count(Step(s, a).losses, k) >= Count(s.losses, k)
  {
    Lists(s, a, k);
  }

  lemma {:induction false} SettledInside(s: State, a: Action, k: Key)
    requires Inside(a) && Enabled(s, a) && Linked(s) && Settled(s, k)
    ensures Settled(Step(s, a), k) && Count(Step(s, a).consults, k) == Count(s.consults, k)
  {
    PhaseMoves(s, a, k);
    Lists(s, a, k);
    hide Count, Linked, PhaseOf;
  }

  lemma {:induction false} SettledStep(s: State, a: Action, k: Key)
    requires Enabled(s, a) && Linked(s) && Settled(s, k) && Count(Step(s, a).losses, k) == Count(s.losses, k)
    ensures Settled(Step(s, a), k) && Count(Step(s, a).consults, k) == Count(s.consults, k)
  {
    if Inside(a) {
      SettledInside(s, a, k);
    } else {
      Lists(s, a, k);
      hide Count;
    }
  }

  lemma {:induction false} StaysCached(s: State, more: seq<Action>, k: Key)
    requires Linked(s) && Settled(s, k)
    ensures var t := After(s, more);
            && Linked(t) && Count(t.losses, k) >= Count(s.losses, k)
            && (Count(t.losses, k) == Count(s.losses, k) ==> Settled(t, k) && Count(t.consults, k) == Count(s.consults, k))
  {
    if more != [] {
      var n := |more| - 1;
      StaysCached(s, more[..n], k);
      var t := After(s, more[..n]);
      hide Linked, Settled, Step, Enabled, Count;
      if Enabled(t, more[n]) {
        LinkedStep(t, more[n]);
        LossesGrow(t, more[n], k);
        if Count(Step(t, more[n]).losses, k) == Count(s.losses, k) {
          SettledStep(t, more[n], k);
        }
      }
    }
  }
}
