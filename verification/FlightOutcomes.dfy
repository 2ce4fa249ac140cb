/** What a flight comes to, over whole runs: its result is what its leader found in the cache, what the source
    delivered to it, or a panic; and every caller gets an answer for the key it asked for. */
module FlightOutcomes {
  import opened Options
  import opened SingleFlight

  /** The state before action number `i`. */
  function Before(actions: seq<Action>, i: nat): State
    requires i <= |actions|
  {
    After(START, actions[..i])
  }

  /** Action number `i` is this one, and could happen. */
  ghost predicate Happens(actions: seq<Action>, i: int, a: Action) {
    0 <= i < |actions| && actions[i] == a && Enabled(Before(actions, i), a)
  }

  /** The result a flight has, whether or not it has been released. */
  function ResultOf(p: Phase): Option<Result> {
    if p.Finished? || p.Released? || p.Gone? then Some(p.result) else None
  }

  /** The leader found this value at its check. */
  ghost predicate Found(actions: seq<Action>, f: Flight, v: Value) {
    exists i :: Happens(actions, i, Check(f.leader)) && f.key in Before(actions, i).cache && Before(actions, i).cache[f.key] == v
  }

  /** The source delivered this to the leader. */
  ghost predicate Delivered(actions: seq<Action>, f: Flight, r: Result) {
    exists i :: Happens(actions, i, Loaded(f.leader, r))
  }

  /** What the source delivered reached the cache, whether or not it was kept there. */
  ghost predicate Added(actions: seq<Action>, f: Flight) {
    exists j, kept :: Happens(actions, j, Add(f.leader, kept))
  }

  ghost predicate Panics(actions: seq<Action>, f: Flight) {
    exists i :: Happens(actions, i, Panic(f.leader))
  }

  ghost predicate Cause(actions: seq<Action>, f: Flight, r: Result) {
    match r
    case Ok(v) => Found(actions, f, v) || (Delivered(actions, f, r) && Added(actions, f))
    case Failed(_) => Delivered(actions, f, r)
    case Panicked => Panics(actions, f)
  }

  ghost predicate FlightCaused(actions: seq<Action>, f: Flight) {
    && (f.phase.Storing? ==> Delivered(actions, f, Ok(f.phase.value)))
    && (ResultOf(f.phase).Some? ==> Cause(actions, f, ResultOf(f.phase).value))
  }

  lemma {:induction false} HappensMore(actions: seq<Action>, more: Action, i: int, a: Action)
    requires Happens(actions, i, a)
    ensures Happens(actions + [more], i, a) && Before(actions + [more], i) == Before(actions, i)
  {
    assert (actions + [more])[..i] == actions[..i];
  }

  lemma {:induction false} CauseMore(actions: seq<Action>, more: Action, f: Flight, r: Result)
    ensures Delivered(actions, f, r) ==> Delivered(actions + [more], f, r)
    ensures Cause(actions, f, r) ==> Cause(actions + [more], f, r)
  {
    if i :| Happens(actions, i, Loaded(f.leader, r)) {
      HappensMore(actions, more, i, Loaded(f.leader, r));
    }
    if j, kept :| Happens(actions, j, Add(f.leader, kept)) {
      HappensMore(actions, more, j, Add(f.leader, kept));
    }
    if i :| Happens(actions, i, Panic(f.leader)) {
      HappensMore(actions, more, i, Panic(f.leader));
    }
    if r.Ok? {
      if i :| Happens(actions, i, Check(f.leader)) && f.key in Before(actions, i).cache && Before(actions, i).cache[f.key] == r.value {
        HappensMore(actions, more, i, Check(f.leader));
      }
    }
  }

  /** The action of a leader just taken. */
  lemma {:induction false} JustHappened(actions: seq<Action>, a: Action)
    requires Enabled(After(START, actions), a)
    ensures Happens(actions + [a], |actions|, a) && Before(actions + [a], |actions|) == After(START, actions)
    ensures After(START, actions + [a]) == Step(After(START, actions), a)
  {
    assert (actions + [a])[..|actions|] == actions;
  }

  /** What an action makes of a flight: nothing, or a new phase that the action is the cause of. */
  lemma {:induction false} PhaseStep(s: State, a: Action, i: nat)
    requires Enabled(s, a) && Linked(s) && i < |s.flights|
    ensures i < |Step(s, a).flights|
    ensures var f, g := s.flights[i], Step(s, a).flights[i];
            && g.key == f.key && g.leader == f.leader
            && (|| g.phase == f.phase
                || (ResultOf(f.phase).Some? && ResultOf(g.phase) == ResultOf(f.phase))
                || (a == Check(f.leader) && f.phase == Checking && g.phase == if f.key in s.cache then Finished(Ok(s.cache[f.key])) else Missed)
                || (a == Consult(f.leader) && f.phase == Missed && g.phase == Loading)
                || (a.Loaded? && a.c == f.leader && f.phase == Loading && g.phase == if a.result.Ok? then Storing(a.result.value) else Finished(a.result))
                || (a.Add? && a.c == f.leader && f.phase.Storing? && g.phase == Finished(Ok(f.phase.value)))
                || (a == Panic(f.leader) && ResultOf(f.phase).None? && g.phase == Finished(Panicked)))
  {
    if Inside(a) {
      InsideMoves(s, a);
    }
  }

  lemma {:induction false} SameFlightCaused(actions: seq<Action>, a: Action, f: Flight, g: Flight)
    requires g.leader == f.leader && g.key == f.key
    ensures f.phase.Storing? && Delivered(actions, f, Ok(f.phase.value)) ==> Delivered(actions + [a], g, Ok(f.phase.value))
    ensures ResultOf(f.phase).Some? && Cause(actions, f, ResultOf(f.phase).value) ==> Cause(actions + [a], g, ResultOf(f.phase).value)
  {
    hide Happens;
    if f.phase.Storing? {
      CauseMore(actions, a, f, Ok(f.phase.value));
    }
    if ResultOf(f.phase).Some? {
      CauseMore(actions, a, f, ResultOf(f.phase).value);
    }
  }

  lemma {:induction false} CausedStep(actions: seq<Action>, a: Action, i: nat)
    requires Linked(After(START, actions)) && i < |After(START, actions).flights|
    requires FlightCaused(actions, After(START, actions).flights[i]) && Enabled(After(START, actions), a)
    ensures i < |After(START, actions + [a]).flights| && FlightCaused(actions + [a], After(START, actions + [a]).flights[i])
  {
    var s := After(START, actions);
    var f := s.flights[i];
    JustHappened(actions, a);
    PhaseStep(s, a, i);
    hide Linked, Step, Enabled, After, Happens;
    var g := After(START, actions + [a]).flights[i];
    var n := |actions|;
    SameFlightCaused(actions, a, f, g);
    if a == Check(f.leader) {
      assert f.key in s.cache ==> Found(actions + [a], g, s.cache[f.key]);
    } else if a.Loaded? && a.c == f.leader {
      assert Happens(actions + [a], n, Loaded(g.leader, a.result));
      assert Delivered(actions + [a], g, a.result);
    } else if a.Add? && a.c == f.leader {
      assert Happens(actions + [a], n, Add(g.leader, a.kept));
      assert Added(actions + [a], g);
    } else if a == Panic(f.leader) {
      assert Panics(actions + [a], g);
    }
  }

  lemma {:induction false} NewFlight(s: State, a: Action, i: nat)
    requires Enabled(s, a) && |s.flights| <= i < |Step(s, a).flights|
    ensures i == |s.flights| && Step(s, a).flights[i].phase == Checking
  {
  }

  lemma {:induction false} AlwaysCaused(actions: seq<Action>, i: nat)
    requires i < |After(START, actions).flights|
    ensures FlightCaused(actions, After(START, actions).flights[i])
  {
    if actions != [] {
      var n := |actions| - 1;
      var pre, a := actions[..n], actions[n];
      AlwaysInv(pre);
      var s := After(START, pre);
      assert actions == pre + [a];
      if Enabled(s, a) {
        if i < |s.flights| {
          AlwaysCaused(pre, i);
          hide Linked, FlightCaused, Step, Enabled;
          CausedStep(pre, a, i);
        } else {
          NewFlight(s, a, i);
        }
      } else {
        AlwaysCaused(pre, i);
        var f := s.flights[i];
        hide Linked, Told, Sourced, Step, Enabled, Delivered, Cause;
        if f.phase.Storing? {
          CauseMore(pre, a, f, Ok(f.phase.value));
        }
        if ResultOf(f.phase).Some? {
          CauseMore(pre, a, f, ResultOf(f.phase).value);
        }
      }
    }
  }

  /** Over every run, the result of a flight is: what its leader found cached at its check; or what the source
      delivered and the leader then added to the cache; or the error that the source delivered; or a panic. */
  lemma {:induction false} OutcomeCause(actions: seq<Action>, i: nat)
    requires i < |After(START, actions).flights| && ResultOf(After(START, actions).flights[i].phase).Some?
    ensures var f := After(START, actions).flights[i]; Cause(actions, f, ResultOf(f.phase).value)
  {
    AlwaysCaused(actions, i);
  }

  // ---- And the other way round ----

  /** A caller leads one flight only. */
  ghost predicate OneLeader(s: State) {
    forall i :: 0 <= i < |s.flights| ==>
      var l := s.flights[i].leader;
      l in s.callers && (s.callers[l] == Leading(i) || (s.callers[l].Returned? && s.callers[l].from == Some(i)))
  }

  lemma {:induction false} OneLeaderStep(s: State, a: Action)
    requires Enabled(s, a) && Linked(s) && OneLeader(s)
    ensures OneLeader(Step(s, a))
  {
    if Inside(a) {
      InsideMoves(s, a);
      hide Step, Linked;
    }
  }

  lemma {:induction false} AlwaysOneLeader(actions: seq<Action>)
    ensures OneLeader(After(START, actions)) && Linked(After(START, actions))
  {
    AlwaysInv(actions);
    if actions != [] {
      var n := |actions| - 1;
      AlwaysOneLeader(actions[..n]);
      hide OneLeader, Linked, Step, Enabled;
      if Enabled(After(START, actions[..n]), actions[n]) {
        OneLeaderStep(After(START, actions[..n]), actions[n]);
      }
    }
  }

  /** Which flight the leader's action number `i` is about, and what it makes of it. */
  lemma {:induction false} LedFlight(actions: seq<Action>, i: nat, a: Action, f: nat)
    requires Happens(actions, i, a) && Inside(a)
    requires f < |After(START, actions).flights| && After(START, actions).flights[f].leader == a.c
    ensures var s := Before(actions, i); Leads(s, a.c) && s.callers[a.c].flight == f
  {
    var s, t := Before(actions, i), After(START, actions);
    AlwaysOneLeader(actions[..i]);
    AlwaysOneLeader(actions);
    var g := s.callers[a.c].flight;
    FlightsStay(actions, i, g);
    assert t.flights[g].leader == a.c;
  }

  lemma {:induction false} FlightsStay(actions: seq<Action>, i: nat, g: nat)
    requires i <= |actions| && g < |Before(actions, i).flights|
    ensures g < |After(START, actions).flights|
    ensures After(START, actions).flights[g].leader == Before(actions, i).flights[g].leader
    ensures After(START, actions).flights[g].key == Before(actions, i).flights[g].key
    ensures ResultOf(Before(actions, i).flights[g].phase).Some? ==>
              ResultOf(After(START, actions).flights[g].phase) == ResultOf(Before(actions, i).flights[g].phase)
    decreases |actions|
  {
    if i == |actions| {
      assert actions[..i] == actions;
    } else {
      var n := |actions| - 1;
      var pre := actions[..n];
      assert pre[..i] == actions[..i];
      FlightsStay(pre, i, g);
      AlwaysOneLeader(pre);
      hide Linked, Step, Enabled;
      if Enabled(After(START, pre), actions[n]) {
        PhaseStep(After(START, pre), actions[n], g);
      }
    }
  }

  lemma {:induction false} NextState(actions: seq<Action>, i: nat, a: Action)
    requires Happens(actions, i, a)
    ensures i + 1 <= |actions| && Before(actions, i + 1) == Step(Before(actions, i), a)
  {
    assert actions[..i + 1][..i] == actions[..i];
  }

  /** What a leader's action makes of its flight at once. */
  lemma {:induction false} Decides(s: State, a: Action)
    requires Enabled(s, a) && Inside(a)
    ensures Leads(s, a.c)
    ensures var f, g := Mine(s, a.c), Step(s, a).flights[s.callers[a.c].flight];
            && (a.Check? && f.key in s.cache ==> ResultOf(g.phase) == Some(Ok(s.cache[f.key])))
            && (a.Loaded? && a.result.Failed? ==> ResultOf(g.phase) == Some(a.result))
            && (a.Panic? ==> ResultOf(g.phase) == Some(Panicked))
            && (a.Add? ==> f.phase.Storing? && ResultOf(g.phase) == Some(Ok(f.phase.value)))
  {
  }

  /** Over every run: each of these causes makes the result, for good. */
  lemma {:induction false} CauseOutcome(actions: seq<Action>, f: nat, i: nat, a: Action)
    requires f < |After(START, actions).flights| && Happens(actions, i, a) && Inside(a) && After(START, actions).flights[f].leader == a.c
    ensures var s, r, key := Before(actions, i), ResultOf(After(START, actions).flights[f].phase), After(START, actions).flights[f].key;
            && (a.Check? && key in s.cache ==> r == Some(Ok(s.cache[key])))
            && (a.Loaded? && a.result.Failed? ==> r == Some(a.result))
            && (a.Panic? ==> r == Some(Panicked))
            && (a.Add? ==> r.Some? && r.value.Ok? && Delivered(actions, After(START, actions).flights[f], r.value))
  {
    var s, t := Before(actions, i), After(START, actions);
    LedFlight(actions, i, a, f);
    Decides(s, a);
    NextState(actions, i, a);
    FlightsStay(actions, i, f);
    StillThere(actions, i, a, f);
    FlightsStay(actions, i + 1, f);
    if a.Add? {
      AlwaysCaused(actions[..i], f);
      var v := s.flights[f].phase.value;
      DeliveredLater(actions, i, s.flights[f], Ok(v));
    }
  }

  lemma {:induction false} StillThere(actions: seq<Action>, i: nat, a: Action, f: nat)
    requires Happens(actions, i, a) && f < |Before(actions, i).flights|
    ensures i + 1 <= |actions| && f < |Before(actions, i + 1).flights|
  {
    NextState(actions, i, a);
    AlwaysOneLeader(actions[..i]);
    PhaseStep(Before(actions, i), a, f);
  }

  lemma {:induction false} DeliveredLater(actions: seq<Action>, i: nat, f: Flight, r: Result)
    requires i <= |actions| && Delivered(actions[..i], f, r)
    ensures Delivered(actions, f, r)
  {
    var j :| Happens(actions[..i], j, Loaded(f.leader, r));
    assert actions[..i][..j] == actions[..j];
    assert Happens(actions, j, Loaded(f.leader, r));
  }

  /** How far a flight has come. */
  function Rank(p: Phase): nat {
    match p
    case Checking => 0
    case Missed => 1
    case Loading => 2
    case Storing(_) => 3
    case _ => 4
  }

  lemma {:induction false} RankStep(s: State, a: Action, g: nat)
    requires Enabled(s, a) && Linked(s) && g < |s.flights|
    ensures g < |Step(s, a).flights| && Rank(s.flights[g].phase) <= Rank(Step(s, a).flights[g].phase)
  {
    PhaseStep(s, a, g);
  }

  lemma {:induction false} RanksGrow(actions: seq<Action>, i: nat, g: nat)
    requires i <= |actions| && g < |Before(actions, i).flights|
    ensures g < |After(START, actions).flights|
    ensures Rank(Before(actions, i).flights[g].phase) <= Rank(After(START, actions).flights[g].phase)
    decreases |actions|
  {
    if i == |actions| {
      assert actions[..i] == actions;
    } else {
      var n := |actions| - 1;
      var pre := actions[..n];
      assert pre[..i] == actions[..i];
      RanksGrow(pre, i, g);
      AlwaysOneLeader(pre);
      hide Linked, Step, Enabled, Rank;
      if Enabled(After(START, pre), actions[n]) {
        RankStep(After(START, pre), actions[n], g);
      }
    }
  }

  /** Once the source has delivered, the flight has come further than loading. */
  lemma {:induction false} PastLoading(actions: seq<Action>, i: nat, j: nat, c: int, r: Result)
    requires Happens(actions, i, Loaded(c, r)) && i < j <= |actions|
    ensures Leads(Before(actions, i), c)
    ensures var s, t, f := Before(actions, i), Before(actions, j), Before(actions, i).callers[c].flight;
            f < |t.flights| && t.flights[f].leader == c && Rank(t.flights[f].phase) >= 3
  {
    var pre, f := actions[..j], Before(actions, i).callers[c].flight;
    assert pre[..i] == actions[..i] && Happens(pre, i, Loaded(c, r));
    NextState(pre, i, Loaded(c, r));
    AlwaysOneLeader(actions[..i]);
    FlightsStay(pre, i, f);
    StillThere(pre, i, Loaded(c, r), f);
    RanksGrow(pre, i + 1, f);
  }

  lemma {:induction false} LedByMe(s: State, c: int, f: nat)
    requires OneLeader(s) && Linked(s) && Leads(s, c) && f < |s.flights| && s.flights[f].leader == c
    ensures s.callers[c].flight == f
  {
  }

  /** The source delivers to a caller at most once. */
  lemma {:induction false} OneDelivery(actions: seq<Action>, i: nat, j: nat, c: int, r: Result, q: Result)
    requires Happens(actions, i, Loaded(c, r)) && Happens(actions, j, Loaded(c, q)) && i <= j
    ensures i == j && r == q
  {
    if i < j {
      PastLoading(actions, i, j, c, r);
      AlwaysOneLeader(actions[..j]);
      LedByMe(Before(actions, j), c, Before(actions, i).callers[c].flight);
    }
  }

  // ---- Callers ----

  /** The caller asked for this key, and that is what it waits for, leads, or has been answered. */
  ghost predicate AsksFor(s: State, c: int, key: Key) {
    c in s.callers &&
    match s.callers[c]
    case Cold(k) => k == key
    case Leading(f) => f < |s.flights| && s.flights[f].key == key
    case Waiting(f) => f < |s.flights| && s.flights[f].key == key
    case Returned(k, _, _) => k == key
  }

  lemma {:induction false} AsksStep(s: State, a: Action, c: int, key: Key)
    requires Enabled(s, a) && Linked(s) && AsksFor(s, c, key)
    ensures AsksFor(Step(s, a), c, key)
    ensures s.callers[c].Returned? ==> Step(s, a).callers[c] == s.callers[c]
  {
    if Inside(a) {
      InsideMoves(s, a);
    }
  }

  /** Over every run: a caller that finds its key cached is answered with that value at once; any other is led to a
      flight for the key it asked for, and answered for that key only. */
  lemma {:induction false} AnsweredForItsKey(actions: seq<Action>, i: nat, c: int, key: Key)
    requires Happens(actions, i, Begin(c, key))
    ensures var s, t := Before(actions, i), After(START, actions);
            && AsksFor(t, c, key)
            && (key in s.cache ==> t.callers[c] == Returned(key, None, Ok(s.cache[key])))
    decreases |actions|
  {
    var n := |actions| - 1;
    var pre := actions[..n];
    AlwaysOneLeader(pre);
    if i == n {
      NextState(actions, i, Begin(c, key));
      assert actions[..n + 1] == actions;
    } else {
      assert pre[..i] == actions[..i];
      assert Happens(pre, i, Begin(c, key));
      AnsweredForItsKey(pre, i, c, key);
      hide Linked, Step, Enabled;
      if Enabled(After(START, pre), actions[n]) {
        AsksStep(After(START, pre), actions[n], c, key);
      }
    }
  }

  // ---- What is cached ----

  /** What the cache holds for a key, from the actions alone: what was set or added last, unless it was removed since. */
  function LastWrite(actions: seq<Action>, k: Key): Option<Value> {
    if actions == [] then None
    else
      var n := |actions| - 1;
      var before, a := LastWrite(actions[..n], k), actions[n];
      var s := After(START, actions[..n]);
      if !Enabled(s, a) then before
      else
        match a
        case Set(key, value) => if key == k then Some(value) else before
        case Remove(key) => if key == k then None else before
        case Add(c, kept) => if kept && Mine(s, c).key == k then Some(Mine(s, c).phase.value) else before
        case _ => before
  }

  lemma {:induction false} CacheStep(s: State, a: Action, k: Key)
    requires Enabled(s, a)
    ensures var v := if k in Step(s, a).cache then Some(Step(s, a).cache[k]) else None;
            v == if a.Set? && a.key == k then Some(a.value)
                 else if a.Remove? && a.key == k then None
                 else if a.Add? && a.kept && Mine(s, a.c).key == k then Some(Mine(s, a.c).phase.value)
                 else if k in s.cache then Some(s.cache[k]) else None
  {
  }

  /** Over every run: a key is cached exactly as it was last set, added or removed. */
  lemma {:induction false} CacheIsLatest(actions: seq<Action>, k: Key)
    ensures (if k in After(START, actions).cache then Some(After(START, actions).cache[k]) else None) == LastWrite(actions, k)
  {
    if actions != [] {
      var n := |actions| - 1;
      CacheIsLatest(actions[..n], k);
      var s := After(START, actions[..n]);
      if Enabled(s, actions[n]) {
        CacheStep(s, actions[n], k);
      }
      hide Step;
    }
  }

  /** What a leader adds to the cache is what the source delivered to it. */
  lemma {:induction false} AddsDelivered(actions: seq<Action>, i: nat, c: int, kept: bool)
    requires Happens(actions, i, Add(c, kept))
    ensures var s := Before(actions, i);
            Leads(s, c) && Mine(s, c).phase.Storing? && Delivered(actions, Mine(s, c), Ok(Mine(s, c).phase.value))
  {
    var s := Before(actions, i);
    AlwaysCaused(actions[..i], s.callers[c].flight);
    DeliveredLater(actions, i, Mine(s, c), Ok(Mine(s, c).phase.value));
  }

  // ---- A load that nothing disturbs ----

  lemma {:induction false} TakeOne(s: State, run: seq<Action>, a: Action)
    requires Enabled(After(s, run), a)
    ensures After(s, run + [a]) == Step(After(s, run), a)
  {
    assert (run + [a])[..|run|] == run;
  }

  /** A caller that finds its key neither cached nor on its way comes to ask the source for it. */
  lemma {:induction false} ComesToLoad(s: State, c: int, key: Key) returns (run: seq<Action>)
    requires c !in s.callers && key !in s.cache && key !in s.table
    ensures var t := After(s, run);
            && Leads(t, c) && Mine(t, c) == Flight(key, c, Loading)
            && t.consults == s.consults + [key] && t.cache == s.cache
  {
    run := [Begin(c, key)];
    TakeOne(s, [], Begin(c, key));
    TakeOne(s, run, Join(c));
    run := run + [Join(c)];
    TakeOne(s, run, Check(c));
    run := run + [Check(c)];
    TakeOne(s, run, Consult(c));
    run := run + [Consult(c)];
  }

  /** What was delivered to a leader is stored, if it is a value. */
  lemma {:induction false} ComesToFinish(s: State, c: int, r: Result) returns (run: seq<Action>)
    requires Leads(s, c) && Mine(s, c).phase.Loading? && !r.Panicked?
    ensures var t, key := After(s, run), Mine(s, c).key;
            && Leads(t, c) && Mine(t, c) == Mine(s, c).(phase := Finished(r))
            && (r.Ok? ==> key in t.cache && t.cache[key] == r.value)
  {
    run := [Loaded(c, r)];
    TakeOne(s, [], Loaded(c, r));
    if r.Ok? {
      TakeOne(s, run, Add(c, true));
      run := run + [Add(c, true)];
    }
  }

  /** A leader whose flight is finished returns its result. */
  lemma {:induction false} ComesToReturn(s: State, c: int) returns (run: seq<Action>)
    requires Leads(s, c) && Mine(s, c).phase.Finished?
    ensures var t, f := After(s, run), Mine(s, c);
            && t.cache == s.cache && f.key !in t.table
            && c in t.callers && t.callers[c] == Returned(f.key, Some(s.callers[c].flight), f.phase.result)
  {
    run := [Release(c)];
    TakeOne(s, [], Release(c));
    TakeOne(s, run, Leave(c));
    run := run + [Leave(c)];
  }

  lemma {:induction false} AfterMore(s: State, first: seq<Action>, later: seq<Action>)
    ensures After(s, first + later) == After(After(s, first), later)
  {
    hide Enabled, Step;
    if later == [] {
      assert first + later == first;
    } else {
      var n := |later| - 1;
      AfterMore(s, first, later[..n]);
      assert (first + later)[..|first| + n] == first + later[..n];
    }
  }

  /** A caller that nothing disturbs is answered with what the source delivers, a value or an error, and leaves a
      value in the cache. */
  lemma {:induction false} LoadServed(s: State, c: int, key: Key, r: Result) returns (run: seq<Action>)
    requires c !in s.callers && key !in s.cache && key !in s.table && !r.Panicked?
    ensures var t := After(s, run);
            && c in t.callers && t.callers[c].Returned? && t.callers[c].key == key && t.callers[c].result == r
            && key !in t.table && (r.Ok? ==> key in t.cache && t.cache[key] == r.value)
  {
    hide Enabled, Step, After;
    var first := ComesToLoad(s, c, key);
    var second := ComesToFinish(After(s, first), c, r);
    AfterMore(s, first, second);
    var third := ComesToReturn(After(s, first + second), c);
    AfterMore(s, first + second, third);
    run := first + second + third;
  }
}
