/** The circuit breaker of the RPC client: what its counters do over whole runs. */
module Breaker {

  datatype State = Closed | Open | HalfOpen

  datatype Config = Config(windowSize: int, threshold: real, openTimeout: int)
  {
    /** Outcomes to a window: an outcome is counted before the window is checked, so at least one. */
    function Window(): (w: nat)
      ensures w >= 1 && (w == windowSize || (w == 1 && windowSize < 1))
    {
      if windowSize >= 1 then windowSize else 1
    }

    predicate Trips(failures: nat, total: nat)
      requires total > 0
    {
      failures as real / total as real >= threshold
    }
  }

  /** `probe` tells that the one call let through while half open is on its way. */
  datatype Status = Status(state: State, failures: nat, successes: nat, changed: int, probe: bool)

  /** The calls of the breaker, each atomic, with the time at which it reads the clock. */
  datatype Event = Allow(now: int) | Outcome(ok: bool, now: int)

  function New(now: int): Status {
    Status(Closed, 0, 0, now, false)
  }

  function Admits(c: Config, s: Status, now: int): bool {
    match s.state
    case Closed => true
    case Open => now - s.changed > c.openTimeout
    case HalfOpen => !s.probe
  }

  function Counted(c: Config, s: Status, now: int): Status {
    var total := s.failures + s.successes;
    if total < c.Window() then s
    else if c.Trips(s.failures, total) then Status(Open, 0, 0, now, false)
    else s.(failures := 0, successes := 0)
  }

  function Step(c: Config, s: Status, e: Event): Status {
    match e
    case Allow(now) =>
      if s.state != Closed && Admits(c, s, now) then s.(state := HalfOpen, probe := true) else s
    case Outcome(ok, now) =>
      match s.state
      case Closed => Counted(c, if ok then s.(successes := s.successes + 1) else s.(failures := s.failures + 1), now)
      case HalfOpen => Status(if ok then Closed else Open, 0, 0, now, false)
      case Open => s
  }

  function After(c: Config, s: Status, es: seq<Event>): Status {
    if es == [] then s else Step(c, After(c, s, es[..|es| - 1]), es[|es| - 1])
  }

  // ---- The object ----

  class CircuitBreaker {
    var state: State
    var failureCount: int
    var successCount: int
    const config: Config
    var lastStateChange: int
    var halfOpenProbe: bool

    ghost predicate Valid()
      reads this
    {
      failureCount >= 0 && successCount >= 0
    }

    ghost function Value(): Status
      reads this
      requires Valid()
    {
      Status(state, failureCount, successCount, lastStateChange, halfOpenProbe)
    }

    constructor (windowSize: int, failureThreshold: real, openTimeout: int, now: int)
      ensures Valid() && Value() == New(now) && config == Config(windowSize, failureThreshold, openTimeout)
    {
      config := Config(windowSize, failureThreshold, openTimeout);
      state, failureCount, successCount, lastStateChange, halfOpenProbe := Closed, 0, 0, now, false;
    }

    method Allow(now: int) returns (admitted: bool)
      requires Valid()
      modifies this
      ensures Valid() && Value() == Step(config, old(Value()), Event.Allow(now))
      ensures admitted == Admits(config, old(Value()), now)
    {
      if state == Closed {
        return true;
      } else if state == Open {
        if now - lastStateChange > config.openTimeout {
          state := HalfOpen;
          halfOpenProbe := true;
          return true;
        }
        return false;
      }
      if halfOpenProbe {
        return false;
      }
      halfOpenProbe := true;
      return true;
    }

    method RecordSuccess(now: int)
      requires Valid()
      modifies this
      ensures Valid() && Value() == Step(config, old(Value()), Outcome(true, now))
    {
      if state == Closed {
        successCount := successCount + 1;
        CheckWindow(now);
      } else if state == HalfOpen {
        To(Closed, now);
      }
    }

    method RecordFailure(now: int)
      requires Valid()
      modifies this
      ensures Valid() && Value() == Step(config, old(Value()), Outcome(false, now))
    {
      if state == Closed {
        failureCount := failureCount + 1;
        CheckWindow(now);
      } else if state == HalfOpen {
        To(Open, now);
      }
    }

    method CheckWindow(now: int)
      requires Valid() && failureCount + successCount > 0
      modifies this
      ensures Valid() && Value() == Counted(config, old(Value()), now)
    {
      var total := failureCount + successCount;
      if total < config.windowSize {
        return;
      }
      var rate := failureCount as real / total as real;
      if rate >= config.threshold {
        To(Open, now);
        return;
      }
      failureCount, successCount := 0, 0;
    }

    method To(s: State, now: int)
      requires Valid()
      modifies this
      ensures Valid() && Value() == Status(s, 0, 0, now, false)
    {
      state, lastStateChange, halfOpenProbe := s, now, false;
      failureCount, successCount := 0, 0;
    }
  }

  // ---- What holds between any two calls ----

  ghost predicate Inv(c: Config, s: Status) {
    && s.failures + s.successes < c.Window()
    && (s.state != Closed ==> s.failures == s.successes == 0)
    && (s.probe <==> s.state == HalfOpen)
  }

  /** Counts never reach the window size, are only kept while closed, and the breaker is half open exactly
      while a probe is out. */
  lemma {:induction false} AlwaysInv(c: Config, start: int, es: seq<Event>)
    ensures Inv(c, After(c, New(start), es))
  {
    if es != [] {
      AlwaysInv(c, start, es[..|es| - 1]);
    }
  }

  // ---- Tumbling windows ----

  function Outcomes(es: seq<Event>): seq<bool> {
    if es == [] then []
    else Outcomes(es[..|es| - 1]) + (match es[|es| - 1] case Allow(_) => [] case Outcome(ok, _) => [ok])
  }

  function Failures(os: seq<bool>): (n: nat)
    ensures n <= |os|
  {
    if os == [] then 0 else Failures(os[..|os| - 1]) + if os[|os| - 1] then 0 else 1
  }

  /** Window number `k` of the outcomes is complete and its failure ratio reaches the threshold. */
  ghost predicate BadWindow(c: Config, os: seq<bool>, k: nat) {
    var w := c.Window();
    k * w + w <= |os| && Failures(os[k * w..k * w + w]) as real >= c.threshold * w as real
  }

  ghost predicate AnyBad(c: Config, os: seq<bool>) {
    exists k: nat :: BadWindow(c, os, k)
  }

  ghost predicate StayedClosed(c: Config, start: int, es: seq<Event>) {
    forall i :: 0 <= i <= |es| ==> After(c, New(start), es[..i]).state == Closed
  }

  /** How many complete windows there are; what follows them is an open one. */
  function Full(c: Config, os: seq<bool>): nat {
    |os| / c.Window()
  }

  ghost predicate CountsOpenWindow(c: Config, s: Status, os: seq<bool>) {
    var done := Full(c, os) * c.Window();
    done <= |os| && s.failures + s.successes == |os| - done && s.failures == Failures(os[done..])
  }

  lemma {:induction false} Divides(n: nat, w: nat)
    requires w > 0
    ensures (n / w) * w <= n < (n / w) * w + w
    ensures n + 1 == (n / w) * w + w ==> (n + 1) / w == n / w + 1
    ensures n + 1 < (n / w) * w + w ==> (n + 1) / w == n / w
  {
    var q := n / w;
    assert n == q * w + n % w;
    if n + 1 == q * w + w {
      assert n + 1 == (q + 1) * w;
      Quotient(n + 1, w, q + 1);
    } else {
      Quotient(n + 1, w, q);
    }
  }

  lemma {:induction false} Monotone(p: nat, q: nat, w: nat)
    requires p >= q
    ensures p * w >= q * w
  {
    if p > q {
      Monotone(p - 1, q, w);
      assert p * w == (p - 1) * w + w;
    }
  }

  lemma {:induction false} Below(p: nat, q: nat, w: nat)
    requires w > 0 && p * w < q * w + w
    ensures p <= q
  {
    assert (q + 1) * w == q * w + w;
    if p > q {
      Monotone(p, q + 1, w);
    }
  }

  lemma {:induction false} Quotient(n: nat, w: nat, q: nat)
    requires w > 0 && q * w <= n < q * w + w
    ensures n / w == q
  {
    var p := n / w;
    assert n == p * w + n % w;
    Below(p, q, w);
    Below(q, p, w);
  }

  lemma {:induction false} TripsFrom(c: Config, failures: nat, total: nat)
    requires total > 0
    ensures c.Trips(failures, total) <==> failures as real >= c.threshold * total as real
  {
    var rate := failures as real / total as real;
    assert rate * total as real == failures as real;
    if rate >= c.threshold {
      Scaled(c.threshold, rate, total as real);
    } else {
      ScaledStrict(rate, c.threshold, total as real);
    }
  }

  lemma {:induction false} BadTrips(c: Config, os: seq<bool>, k: nat)
    ensures var w := c.Window();
            BadWindow(c, os, k) <==> k * w + w <= |os| && c.Trips(Failures(os[k * w..k * w + w]), w)
  {
    hide Config.Trips, Config.Window, Failures;
    var w := c.Window();
    if k * w + w <= |os| {
      TripsFrom(c, Failures(os[k * w..k * w + w]), w);
    }
  }

  lemma {:induction false} Scaled(a: real, b: real, n: real)
    requires a <= b && n > 0.0
    ensures a * n <= b * n
  {
  }

  lemma {:induction false} ScaledStrict(a: real, b: real, n: real)
    requires a < b && n > 0.0
    ensures a * n < b * n
  {
  }

  /** Counting one more outcome while closed, in a window that begins at `done`. */
  lemma {:induction false} CountIn(c: Config, s: Status, os: seq<bool>, ok: bool, now: int, done: nat)
    requires s.state == Closed && done <= |os| < done + c.Window()
    requires s.failures + s.successes == |os| - done && s.failures == Failures(os[done..])
    ensures var t, more := Step(c, s, Outcome(ok, now)), os + [ok];
            if |more| < done + c.Window() then
              t.state == Closed && t.failures + t.successes == |more| - done && t.failures == Failures(more[done..])
            else
              && t.state == (if c.Trips(Failures(more[done..done + c.Window()]), c.Window()) then Open else Closed)
              && (t.state == Closed ==> t.failures == t.successes == 0)
  {
    hide Config.Trips, Config.Window;
    var more := os + [ok];
    assert more[done..][..|os| - done] == os[done..];
    if |more| == done + c.Window() {
      assert more[done..done + c.Window()] == more[done..];
    }
  }

  lemma {:induction false} CountOne(c: Config, s: Status, os: seq<bool>, ok: bool, now: int)
    requires s.state == Closed && CountsOpenWindow(c, s, os)
    ensures var t, more := Step(c, s, Outcome(ok, now)), os + [ok];
            && t.state == (if |more| == Full(c, os) * c.Window() + c.Window() && BadWindow(c, more, Full(c, os)) then Open else Closed)
            && (t.state == Closed ==> CountsOpenWindow(c, t, more))
  {
    hide Config.Trips, Config.Window, BadWindow, Step, CountsOpenWindow, Full;
    var w, k, more, t := c.Window(), Full(c, os), os + [ok], Step(c, s, Outcome(ok, now));
    var done := OpenWindow(c, s, os);
    CountIn(c, s, os, ok, now, done);
    BadTrips(c, more, k);
    if |more| == done + w {
      NextWindow(k, w);
      assert more[|more|..] == [];
      IsOpenWindow(c, t, more, k + 1, done + w);
    } else {
      IsOpenWindow(c, t, more, k, done);
    }
  }

  lemma {:induction false} NextWindow(k: nat, w: nat)
    ensures (k + 1) * w == k * w + w
  {
  }

  lemma {:induction false} OpenWindow(c: Config, s: Status, os: seq<bool>) returns (done: nat)
    requires CountsOpenWindow(c, s, os)
    ensures done == Full(c, os) * c.Window() && done <= |os| < done + c.Window()
    ensures s.failures + s.successes == |os| - done && s.failures == Failures(os[done..])
  {
    hide Config.Window;
    Divides(|os|, c.Window());
    done := Full(c, os) * c.Window();
  }

  lemma {:induction false} IsOpenWindow(c: Config, s: Status, os: seq<bool>, k: nat, done: nat)
    requires done == k * c.Window() && done <= |os| < done + c.Window()
    ensures s.failures + s.successes == |os| - done && s.failures == Failures(os[done..]) ==> CountsOpenWindow(c, s, os)
  {
    hide Config.Window;
    Quotient(|os|, c.Window(), k);
  }

  lemma {:induction false} OldWindows(c: Config, os: seq<bool>, ok: bool, k: nat)
    ensures var w, more := c.Window(), os + [ok];
            BadWindow(c, more, k) <==>
              BadWindow(c, os, k) || (k == Full(c, os) && |more| == k * w + w && BadWindow(c, more, k))
  {
    var w, more, full := c.Window(), os + [ok], Full(c, os);
    Divides(|os|, w);
    if k * w + w <= |os| {
      assert more[k * w..k * w + w] == os[k * w..k * w + w];
    } else if k * w + w == |more| {
      Quotient(|os|, w, k);
    }
  }

  lemma {:induction false} StayedOneMore(c: Config, start: int, es: seq<Event>)
    requires es != []
    ensures StayedClosed(c, start, es) <==>
              StayedClosed(c, start, es[..|es| - 1]) && After(c, New(start), es).state == Closed
  {
    var pre := es[..|es| - 1];
    assert forall i :: 0 <= i <= |pre| ==> pre[..i] == es[..i];
    assert es[..|es|] == es;
  }

  lemma {:induction false} NothingYet(c: Config, start: int)
    ensures StayedClosed(c, start, []) && CountsOpenWindow(c, New(start), [])
    ensures !AnyBad(c, [])
  {
    Quotient(0, c.Window(), 0);
  }

  /** While closed the counts are those of the window under way, and no complete window was bad. */
  lemma {:induction false} ClosedCounts(c: Config, start: int, es: seq<Event>)
    ensures StayedClosed(c, start, es) <==> !AnyBad(c, Outcomes(es))
    ensures StayedClosed(c, start, es) ==> CountsOpenWindow(c, After(c, New(start), es), Outcomes(es))
  {
    if es == [] {
      NothingYet(c, start);
    } else {
      var n := |es| - 1;
      ClosedCounts(c, start, es[..n]);
      StayedOneMore(c, start, es);
      var s, os := After(c, New(start), es[..n]), Outcomes(es[..n]);
      if StayedClosed(c, start, es[..n]) {
        StayedNow(c, start, es[..n]);
      }
      hide AnyBad, BadWindow, CountsOpenWindow, StayedClosed, Step;
      if es[n].Outcome? {
        BadMore(c, s, os, es[n].ok, es[n].now);
        assert Outcomes(es) == os + [es[n].ok];
        assert After(c, New(start), es) == Step(c, s, Outcome(es[n].ok, es[n].now));
      } else {
        assert Outcomes(es) == os;
        assert After(c, New(start), es) == Step(c, s, Allow(es[n].now));
        AllowWhileClosed(c, s, es[n].now);
      }
    }
  }

  lemma {:induction false} AllowWhileClosed(c: Config, s: Status, now: int)
    ensures s.state == Closed ==> Step(c, s, Allow(now)) == s
  {
  }

  lemma {:induction false} BadMore(c: Config, s: Status, os: seq<bool>, ok: bool, now: int)
    ensures var t, more := Step(c, s, Outcome(ok, now)), os + [ok];
            && (AnyBad(c, os) ==> AnyBad(c, more))
            && (s.state == Closed && CountsOpenWindow(c, s, os) && !AnyBad(c, os) ==>
                  && (t.state == Closed <==> !AnyBad(c, more))
                  && (t.state == Closed ==> CountsOpenWindow(c, t, more)))
  {
    hide BadWindow, CountsOpenWindow, Step;
    var more := os + [ok];
    forall k: nat
      ensures BadWindow(c, more, k) <==>
                BadWindow(c, os, k) || (k == Full(c, os) && |more| == k * c.Window() + c.Window() && BadWindow(c, more, k))
    {
      OldWindows(c, os, ok, k);
    }
    if s.state == Closed && CountsOpenWindow(c, s, os) {
      CountOne(c, s, os, ok, now);
    }
  }

  lemma {:induction false} StayedNow(c: Config, start: int, es: seq<Event>)
    requires StayedClosed(c, start, es)
    ensures After(c, New(start), es).state == Closed
  {
    assert es[..|es|] == es;
  }

  lemma {:induction false} WindowEnd(n: nat, w: nat)
    requires w > 0 && n + 1 == (n / w) * w + w
    ensures (n + 1) % w == 0 && (n + 1) / w - 1 == n / w
  {
    var k := n / w;
    assert (k + 1) * w == k * w + w;
    Quotient(n + 1, w, k + 1);
    assert (n + 1) % w == n + 1 - ((n + 1) / w) * w;
  }

  /** For a breaker that has been closed since its start: it opens exactly when an aligned window of outcomes is
      complete and bad; calls of Allow in between change nothing. */
  lemma {:induction false} FreshOpens(c: Config, start: int, es: seq<Event>, e: Event)
    requires StayedClosed(c, start, es)
    ensures var s, os := After(c, New(start), es + [e]), Outcomes(es + [e]);
            && (s.state == Open <==> AnyBad(c, os))
            && (s.state != Open ==> s.state == Closed)
            && (s.state == Open ==> e.Outcome? && s.changed == e.now && |os| % c.Window() == 0 && BadWindow(c, os, |os| / c.Window() - 1))
  {
    hide Step, AnyBad, BadWindow, CountsOpenWindow, StayedClosed, Config.Window;
    var all := es + [e];
    assert all[..|all| - 1] == es;
    var s, os := After(c, New(start), es), Outcomes(es);
    StayedNow(c, start, es);
    ClosedCounts(c, start, es);
    ClosedCounts(c, start, all);
    StayedOneMore(c, start, all);
    LeavesToOpen(c, s, e);
    if e.Outcome? {
      CountOne(c, s, os, e.ok, e.now);
      var k, w := Full(c, os), c.Window();
      if |os| + 1 == k * w + w {
        WindowEnd(|os|, w);
      }
    }
  }

  lemma {:induction false} LeavesToOpen(c: Config, s: Status, e: Event)
    requires s.state == Closed
    ensures var t := Step(c, s, e); t.state == Closed || (t.state == Open && e.Outcome? && t.changed == e.now)
  {
  }

  // ---- Every closed episode of every run ----

  lemma {:induction false} AfterConcat(c: Config, s: Status, a: seq<Event>, b: seq<Event>)
    ensures After(c, s, a + b) == After(c, After(c, s, a), b)
  {
    if b == [] {
      assert a + b == a;
    } else {
      var n := |b| - 1;
      assert (a + b)[..|a + b| - 1] == a + b[..n];
      AfterConcat(c, s, a, b[..n]);
    }
  }

  /** A closed episode begins where the run `pre` ends: at the start, or with the good outcome at time `now`
      of the call let through while half open. */
  ghost predicate Begins(c: Config, start: int, pre: seq<Event>, now: int) {
    if pre == [] then now == start
    else
      var n := |pre| - 1;
      pre[n] == Outcome(true, now) && After(c, New(start), pre[..n]).state == HalfOpen
  }

  /** A breaker that has recovered is as good as new. */
  lemma {:induction false} BeginsNew(c: Config, start: int, pre: seq<Event>, now: int, es: seq<Event>)
    requires Begins(c, start, pre, now)
    ensures After(c, New(start), pre) == New(now)
    ensures After(c, New(start), pre + es) == After(c, New(now), es)
  {
    AfterConcat(c, New(start), pre, es);
  }

  /** Whenever a breaker is closed, it has stayed closed since the beginning of an episode. */
  lemma {:induction false} InEpisode(c: Config, start: int, run: seq<Event>) returns (pre: seq<Event>, now: int, es: seq<Event>)
    requires After(c, New(start), run).state == Closed
    ensures run == pre + es && Begins(c, start, pre, now) && StayedClosed(c, now, es)
  {
    if run == [] {
      pre, now, es := [], start, [];
      NothingYet(c, start);
      return;
    }
    var n := |run| - 1;
    if After(c, New(start), run[..n]).state == Closed {
      var rest;
      pre, now, rest := InEpisode(c, start, run[..n]);
      es := rest + [run[n]];
      assert run == pre + es && es[..|es| - 1] == rest;
      BeginsNew(c, start, pre, now, es);
      StayedOneMore(c, now, es);
    } else {
      assert After(c, New(start), run) == Step(c, After(c, New(start), run[..n]), run[n]);
      pre, now, es := run, run[n].now, [];
      NothingYet(c, now);
      assert run == pre + es;
    }
  }

  /** In every run, a closed breaker opens exactly on the outcome that completes a bad window, the windows
      being counted from the beginning of the closed episode it is in. */
  lemma {:induction false} OpensExactly(c: Config, start: int, run: seq<Event>, e: Event) returns (pre: seq<Event>, now: int, es: seq<Event>)
    requires After(c, New(start), run).state == Closed
    ensures run == pre + es && Begins(c, start, pre, now) && StayedClosed(c, now, es)
    ensures var s, os := After(c, New(start), run + [e]), Outcomes(es + [e]);
            && (s.state == Open <==> AnyBad(c, os))
            && (s.state != Open ==> s.state == Closed)
            && (s.state == Open ==> e.Outcome? && s.changed == e.now && |os| % c.Window() == 0 && BadWindow(c, os, |os| / c.Window() - 1))
  {
    pre, now, es := InEpisode(c, start, run);
    FreshOpens(c, now, es, e);
    BeginsNew(c, start, pre, now, es + [e]);
    assert run + [e] == pre + (es + [e]);
  }

  /** And of every closed episode: over what follows its beginning the breaker stays closed exactly as long as no
      window of the outcomes since then is bad. */
  lemma {:induction false} EpisodeLasts(c: Config, start: int, pre: seq<Event>, now: int, es: seq<Event>)
    requires Begins(c, start, pre, now)
    ensures (forall i :: 0 <= i <= |es| ==> After(c, New(start), pre + es[..i]).state == Closed) <==> !AnyBad(c, Outcomes(es))
  {
    forall i | 0 <= i <= |es| ensures After(c, New(start), pre + es[..i]) == After(c, New(now), es[..i]) {
      BeginsNew(c, start, pre, now, es[..i]);
    }
    ClosedCounts(c, now, es);
    hide AnyBad, Begins, After;
  }

  // ---- Open and half open ----

  ghost predicate Refused(c: Config, s: Status, es: seq<Event>) {
    forall i :: 0 <= i < |es| && es[i].Allow? ==> !Admits(c, After(c, s, es[..i]), es[i].now)
  }

  /** An open breaker stays as it is until it admits a call, which it does exactly when the timeout, counted
      from its opening, has passed; that call makes it half open. */
  lemma {:induction false} OpenHolds(c: Config, s: Status, es: seq<Event>, now: int)
    requires s.state == Open && Refused(c, s, es)
    ensures After(c, s, es) == s
    ensures Admits(c, After(c, s, es), now) <==> now > s.changed + c.openTimeout
    ensures After(c, s, es + [Allow(now)]).state == HalfOpen <==> now > s.changed + c.openTimeout
  {
    if es != [] {
      var n := |es| - 1;
      forall i | 0 <= i < n && es[..n][i].Allow? ensures !Admits(c, After(c, s, es[..n][..i]), es[..n][i].now) {
        assert es[..n][..i] == es[..i];
      }
      OpenHolds(c, s, es[..n], now);
    }
    assert (es + [Allow(now)])[..|es|] == es;
  }

  /** The run is open from event number `i` on. */
  ghost predicate OpenSince(c: Config, start: int, es: seq<Event>, i: nat) {
    && i < |es| && es[i].Outcome?
    && After(c, New(start), es[..i]).state != Open
    && forall j :: i < j <= |es| ==> After(c, New(start), es[..j]).state == Open
  }

  lemma {:induction false} OpenedBy(c: Config, start: int, es: seq<Event>) returns (i: nat)
    requires After(c, New(start), es).state == Open
    ensures OpenSince(c, start, es, i) && After(c, New(start), es).changed == es[i].now
  {
    var n := |es| - 1;
    var s := After(c, New(start), es[..n]);
    assert es[..n + 1] == es;
    hide Step;
    if s.state == Open {
      i := OpenedBy(c, start, es[..n]);
      assert es[..n][..i] == es[..i];
      forall j | i < j <= |es| ensures After(c, New(start), es[..j]).state == Open {
        assert j <= n ==> es[..n][..j] == es[..j];
      }
      StaysOpen(c, s, es[n]);
    } else {
      i := n;
      Opening(c, s, es[n]);
    }
  }

  lemma {:induction false} StaysOpen(c: Config, s: Status, e: Event)
    requires s.state == Open && Step(c, s, e).state == Open
    ensures Step(c, s, e) == s
  {
  }

  lemma {:induction false} Opening(c: Config, s: Status, e: Event)
    requires s.state != Open && Step(c, s, e).state == Open
    ensures e.Outcome? && Step(c, s, e).changed == e.now
  {
  }

  /** What a breaker answers after any run: everyone is admitted while it is closed, nobody while a probe is out, and
      while it is open those who ask later than the timeout after the outcome that opened it, be that the end of
      a bad window or a failed probe. */
  lemma {:induction false} AdmitsIff(c: Config, start: int, es: seq<Event>, now: int)
    ensures var s := After(c, New(start), es);
            Admits(c, s, now) <==> s.state == Closed || exists i: nat :: OpenSince(c, start, es, i) && now > es[i].now + c.openTimeout
  {
    AlwaysInv(c, start, es);
    var s := After(c, New(start), es);
    assert es[..|es|] == es;
    if s.state == Open {
      var k := OpenedBy(c, start, es);
      forall i: nat | OpenSince(c, start, es, i) ensures i == k {
      }
    }
  }

  /** The outcome of a probe decides: a bad one opens the breaker again, a good one closes it. */
  lemma {:induction false} ProbeDecides(c: Config, start: int, es: seq<Event>, ok: bool, now: int)
    requires After(c, New(start), es).state == HalfOpen
    ensures var more := es + [Outcome(ok, now)];
            && (ok ==> Begins(c, start, more, now) && After(c, New(start), more) == New(now))
            && (!ok ==> After(c, New(start), more).state == Open && OpenSince(c, start, more, |es|))
  {
    var more := es + [Outcome(ok, now)];
    assert more[..|es|] == es && more[..|more|] == more;
  }

  /** How many calls are admitted over a run. */
  function Admitted(c: Config, s: Status, es: seq<Event>): nat {
    if es == [] then 0
    else
      var n := |es| - 1;
      Admitted(c, s, es[..n]) + if es[n].Allow? && Admits(c, After(c, s, es[..n]), es[n].now) then 1 else 0
  }

  /** One stay in the half-open state: it is entered with the first event and not left by the others. */
  ghost predicate Episode(c: Config, s: Status, es: seq<Event>) {
    && s.state != HalfOpen && es != []
    && forall i :: 0 < i <= |es| ==> After(c, s, es[..i]).state == HalfOpen
  }

  lemma {:induction false} Enters(c: Config, s: Status, e: Event)
    requires s.probe <==> s.state == HalfOpen
    ensures var t := Step(c, s, e);
            && (t.probe <==> t.state == HalfOpen)
            && (t.state == HalfOpen && s.state != HalfOpen ==> s.state == Open && e.Allow? && Admits(c, s, e.now))
            && (s.state == HalfOpen && e.Allow? ==> !Admits(c, s, e.now))
            && (s.state == t.state == HalfOpen ==> e.Allow?)
  {
  }

  lemma {:induction false} Leaves(c: Config, s: Status, e: Event)
    requires s.state == HalfOpen
    ensures Step(c, s, e).state != HalfOpen <==> e.Outcome?
  {
  }

  /** Each half-open episode admits exactly one caller, the one that begins it, and only an outcome ends it. */
  lemma {:induction false} OneProbe(c: Config, s: Status, es: seq<Event>)
    requires Inv(c, s) && Episode(c, s, es)
    ensures s.state == Open && es[0].Allow?
    ensures Admitted(c, s, es) == 1 && After(c, s, es).probe
    ensures forall e :: After(c, s, es + [e]).state != HalfOpen <==> e.Outcome?
  {
    var n := |es| - 1;
    assert es[..|es|] == es && After(c, s, es[..|es|]).state == HalfOpen;
    hide Step, Admits;
    Enters(c, After(c, s, es[..n]), es[n]);
    if n == 0 {
      assert es[..0] == [];
    } else {
      forall i | 0 < i <= n ensures After(c, s, es[..n][..i]).state == HalfOpen {
        assert es[..n][..i] == es[..i];
      }
      OneProbe(c, s, es[..n]);
    }
    forall e ensures After(c, s, es + [e]).state != HalfOpen <==> e.Outcome? {
      assert (es + [e])[..|es|] == es;
      Leaves(c, After(c, s, es), e);
    }
  }
}
