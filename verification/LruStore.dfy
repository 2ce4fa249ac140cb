/** The store as its callers see it: buckets that take turns, one locked section at a time, in any
    interleaving. Histories of such sections are what the main theorems are about. */
module LruStore {
  import opened Options
  import opened LruSpec
  import opened LruBucketSpec

  /** A key always goes to the same bucket; which one is a matter of hashing. */
  datatype Store = Store(config: Config, index: Key -> nat, buckets: seq<Bucket>)

  /** The locked sections. `Set` is a write whose expiry time fits into 64 bits. `ClearBucket` and `SweepBucket` are one bucket's turn in `Clear` and in the
      cleanup loop. */
  datatype Op =
    | Get(key: Key, now: int)
    | Set(entry: Entry)
    | Delete(key: Key)
    | ClearBucket(bucket: nat)
    | SweepBucket(bucket: nat, now: int)

  datatype Event = Event(op: Op, found: Option<Value>, reports: Reports)

  function Target(s: Store, op: Op): nat {
    match op
    case Get(k, _) => s.index(k)
    case Set(e) => s.index(e.key)
    case Delete(k) => s.index(k)
    case ClearBucket(i) => i
    case SweepBucket(i, _) => i
  }

  /** What one locked section may do to its bucket. */
  ghost predicate BucketStep(c: Config, b: Bucket, ev: Event, after: Bucket) {
    match ev.op
    case Get(k, now) => Outcome(after, ev.found, ev.reports) == LruBucketSpec.Get(c, b, k, now)
    case Set(e) => e.expireAt > 0 && Outcome(after, ev.found, ev.reports) == LruBucketSpec.Write(c, b, e)
    case Delete(k) => Outcome(after, ev.found, ev.reports) == LruBucketSpec.Delete(b, k)
    case ClearBucket(_) => after == EMPTY && Bag(b) == multiset(ev.reports)
    case SweepBucket(_, now) =>
      after == Bucket(Fresh(b.l1, now), Fresh(b.l2, now)) && Bag(b) == Bag(after) + multiset(ev.reports)
  }

  ghost predicate Step(s: Store, ev: Event, s': Store) {
    var i := Target(s, ev.op);
    && i < |s.buckets| == |s'.buckets|
    && BucketStep(s.config, s.buckets[i], ev, s'.buckets[i])
    && s' == s.(buckets := s.buckets[i := s'.buckets[i]])
  }

  ghost predicate Ok(s: Store) {
    && (forall i :: 0 <= i < |s.buckets| ==> LruBucketSpec.Ok(s.config, s.buckets[i]))
    && (forall i, e :: 0 <= i < |s.buckets| && In(e, s.buckets[i]) ==> s.index(e.key) == i)
  }

  ghost predicate Initial(s: Store) {
    0 < s.config.cap1 && 0 < s.config.cap2 && forall i :: 0 <= i < |s.buckets| ==> s.buckets[i] == EMPTY
  }

  /** A history: the events in order, with the state before the first and after each of them. */
  ghost predicate History(events: seq<Event>, states: seq<Store>) {
    && |states| == |events| + 1
    && Initial(states[0])
    && forall i :: 0 <= i < |events| ==> Step(states[i], events[i], states[i + 1])
  }

  /** The entry a key was last given, unless it has been deleted or its bucket cleared since. */
  function LastSet(events: seq<Event>, index: Key -> nat, k: Key): Option<Entry> {
    if events == [] then None
    else
      match events[|events| - 1].op
      case Set(e) => if e.key == k then Some(e) else LastSet(events[..|events| - 1], index, k)
      case Delete(d) => if d == k then None else LastSet(events[..|events| - 1], index, k)
      case ClearBucket(i) => if i == index(k) then None else LastSet(events[..|events| - 1], index, k)
      case _ => LastSet(events[..|events| - 1], index, k)
  }

  lemma {:induction false} FreshMembers(s: seq<Entry>, now: int)
    ensures forall e :: e in Fresh(s, now) <==> e in s && now < e.expireAt
    ensures |Fresh(s, now)| <= |s| && Bytes(Fresh(s, now)) <= Bytes(s)
  {
    if s != [] {
      assert s == [s[0]] + s[1..];
      FreshMembers(s[1..], now);
      if now < s[0].expireAt {
        BytesCons(s[0], Fresh(s[1..], now));
      }
    }
  }

  lemma {:induction false} FreshDistinct(s: seq<Entry>, now: int)
    requires Distinct(s)
    ensures Distinct(Fresh(s, now))
  {
    if s != [] {
      FreshDistinct(s[1..], now);
      FreshMembers(s[1..], now);
      if now < s[0].expireAt {
        assert forall e :: e in s[1..] ==> e.key != s[0].key;
        assert !Has(Fresh(s[1..], now), s[0].key);
        DistinctCons(s[0], Fresh(s[1..], now));
      }
    }
  }

  /** One locked section keeps a bucket's invariant, and afterwards every live entry was live before
      or has just been set; a deleted, cleared or overwritten entry is gone. */
  lemma {:induction false} BucketStepKeeps(c: Config, b: Bucket, ev: Event, after: Bucket)
    requires LruBucketSpec.Ok(c, b) && BucketStep(c, b, ev, after)
    ensures LruBucketSpec.Ok(c, after)
    ensures forall e :: In(e, after) ==>
              match ev.op
              case Set(x) => e == x || (In(e, b) && e.key != x.key)
              case Delete(k) => In(e, b) && e.key != k
              case ClearBucket(_) => false
              case _ => In(e, b)
    ensures ev.op.Get? && ev.found.Some? ==>
              exists e :: In(e, b) && e.key == ev.op.key && e.value == ev.found.value && ev.op.now < e.expireAt
  {
    hide Fresh, Lookup, Without, LruBucketSpec.Get, LruBucketSpec.Set, LruBucketSpec.Delete, Bytes;
    match ev.op
    case Get(k, now) => GetKeeps(c, b, k, now);
    case Set(e) => SetKeeps(c, b, e);
    case Delete(k) => DeleteKeeps(c, b, k);
    case ClearBucket(_) => BytesNone();
    case SweepBucket(_, now) =>
      FreshMembers(b.l1, now);
      FreshMembers(b.l2, now);
      FreshDistinct(b.l1, now);
      FreshDistinct(b.l2, now);
  }

  lemma {:induction false} BytesNone()
    ensures Bytes([]) == 0
  {
  }

  lemma {:induction false} StepKeeps(s: Store, ev: Event, s': Store)
    requires Ok(s) && Step(s, ev, s')
    ensures Ok(s')
  {
    var i := Target(s, ev.op);
    BucketStepKeeps(s.config, s.buckets[i], ev, s'.buckets[i]);
  }

  lemma {:induction false} HistoryPrefix(events: seq<Event>, states: seq<Store>, n: nat)
    requires History(events, states) && n < |events|
    ensures History(events[..n], states[..n + 1]) && Step(states[n], events[n], states[n + 1])
  {
    hide Step, Initial;
  }

  /** Whatever is live is what its key was last set to. */
  ghost predicate Current(events: seq<Event>, s: Store) {
    forall i, e :: 0 <= i < |s.buckets| && In(e, s.buckets[i]) ==> LastSet(events, s.index, e.key) == Some(e)
  }

  /** Over every history: the invariant holds, and whatever is live is what its key was last set to. */
  lemma {:induction false} Coherent(events: seq<Event>, states: seq<Store>)
    requires History(events, states)
    ensures var s := states[|events|];
            && Ok(s) && Current(events, s)
            && s.index == states[0].index && s.config == states[0].config && |s.buckets| == |states[0].buckets|
    decreases |events|
  {
    hide LruBucketSpec.Ok, LastSet, BucketStep;
    if events == [] {
      EmptyOk(states[0]);
    } else {
      var n := |events| - 1;
      HistoryPrefix(events, states, n);
      Coherent(events[..n], states[..n + 1]);
      StepKeeps(states[n], events[n], states[n + 1]);
      CurrentStep(events, states[n], events[n], states[n + 1]);
    }
  }

  lemma {:induction false} EmptyOk(s: Store)
    requires Initial(s)
    ensures Ok(s)
  {
    BytesNone();
  }

  lemma {:induction false} CurrentStep(events: seq<Event>, s: Store, ev: Event, s': Store)
    requires events != [] && ev == events[|events| - 1]
    requires Ok(s) && Step(s, ev, s') && Current(events[..|events| - 1], s)
    ensures Current(events, s')
  {
    var t := Target(s, ev.op);
    BucketStepKeeps(s.config, s.buckets[t], ev, s'.buckets[t]);
    forall i, e | 0 <= i < |s'.buckets| && In(e, s'.buckets[i])
      ensures LastSet(events, s.index, e.key) == Some(e)
    {
      if i == t && ev.op.Set? && e == ev.op.entry {
      } else {
        assert In(e, s.buckets[i]) && s.index(e.key) == i;
      }
    }
  }

  lemma {:induction false} HitCurrent(events: seq<Event>, s: Store, ev: Event, s': Store)
    requires Ok(s) && Current(events, s) && Step(s, ev, s')
    requires ev.op.Get? && ev.found.Some?
    ensures var last := LastSet(events, s.index, ev.op.key);
            last.Some? && last.value.value == ev.found.value && ev.op.now < last.value.expireAt
  {
    var t := Target(s, ev.op);
    BucketStepKeeps(s.config, s.buckets[t], ev, s'.buckets[t]);
    hide LastSet, BucketStep, LruBucketSpec.Ok;
    var e :| In(e, s.buckets[t]) && e.key == ev.op.key && e.value == ev.found.value && ev.op.now < e.expireAt;
  }

  /** Never stale: a hit returns the value its key was last set to, not deleted or cleared since, and
      not expired at the time of the read. */
  lemma {:induction false} NeverStale(events: seq<Event>, states: seq<Store>, n: nat)
    requires History(events, states)
    requires n < |events| && events[n].op.Get? && events[n].found.Some?
    ensures var last := LastSet(events[..n], states[0].index, events[n].op.key);
            && last.Some?
            && last.value.value == events[n].found.value
            && events[n].op.now < last.value.expireAt
  {
    hide Step, Ok, Current, LastSet;
    HistoryPrefix(events, states, n);
    Coherent(events[..n], states[..n + 1]);
    HitCurrent(events[..n], states[n], events[n], states[n + 1]);
  }

  // ---- Conservation ----

  function LiveBag(buckets: seq<Bucket>): multiset<(Key, Value)> {
    if buckets == [] then multiset{} else Bag(buckets[0]) + LiveBag(buckets[1..])
  }

  /** What a history has stored, reported to the eviction callback, and overwritten. */
  function Stored(events: seq<Event>): multiset<(Key, Value)> {
    if events == [] then multiset{}
    else Stored(events[..|events| - 1]) + StoredBy(events[|events| - 1])
  }

  function StoredBy(ev: Event): multiset<(Key, Value)> {
    if ev.op.Set? then multiset{(ev.op.entry.key, ev.op.entry.value)} else multiset{}
  }

  function Reported(events: seq<Event>): multiset<(Key, Value)> {
    if events == [] then multiset{}
    else Reported(events[..|events| - 1]) + multiset(events[|events| - 1].reports)
  }

  /** The pairs that were live under a key at the moment the key was set again. */
  ghost function Overwritten(events: seq<Event>, states: seq<Store>): multiset<(Key, Value)>
    requires |events| <= |states|
  {
    if events == [] then multiset{}
    else Overwritten(events[..|events| - 1], states) + OverwrittenBy(states[|events| - 1], events[|events| - 1])
  }

  ghost function OverwrittenBy(s: Store, ev: Event): multiset<(Key, Value)> {
    if Target(s, ev.op) < |s.buckets| then BucketOverwritten(s.buckets[Target(s, ev.op)], ev) else multiset{}
  }

  function BucketOverwritten(b: Bucket, ev: Event): multiset<(Key, Value)> {
    if ev.op.Set? then PairOf(b.l1, ev.op.entry.key) + PairOf(b.l2, ev.op.entry.key) else multiset{}
  }

  lemma {:induction false} LiveBagUpdate(buckets: seq<Bucket>, i: nat, b: Bucket)
    requires i < |buckets|
    ensures LiveBag(buckets[i := b]) + Bag(buckets[i]) == LiveBag(buckets) + Bag(b)
  {
    hide Bag;
    var u := buckets[i := b];
    if i == 0 {
      assert u[1..] == buckets[1..];
    } else {
      var rest := buckets[1..];
      assert u[1..] == rest[i - 1 := b];
      LiveBagUpdate(rest, i - 1, b);
      assert LiveBag(u) + Bag(buckets[i]) == Bag(buckets[0]) + (LiveBag(rest[i - 1 := b]) + Bag(rest[i - 1]));
      assert LiveBag(buckets) + Bag(b) == Bag(buckets[0]) + (LiveBag(rest) + Bag(b));
    }
  }

  lemma {:induction false} LiveBagEmpty(buckets: seq<Bucket>)
    requires forall i :: 0 <= i < |buckets| ==> buckets[i] == EMPTY
    ensures LiveBag(buckets) == multiset{}
  {
    if buckets != [] {
      LiveBagEmpty(buckets[1..]);
    }
  }

  lemma {:induction false} BucketStepConserves(c: Config, b: Bucket, ev: Event, after: Bucket)
    requires LruBucketSpec.Ok(c, b) && BucketStep(c, b, ev, after)
    ensures Bag(b) + StoredBy(ev) == Bag(after) + multiset(ev.reports) + BucketOverwritten(b, ev)
  {
    hide Bag, PairOf, Fresh, LruBucketSpec.Get, LruBucketSpec.Set, LruBucketSpec.Delete, LruBucketSpec.Ok;
    match ev.op
    case Get(k, now) => GetConserves(c, b, k, now);
    case Set(e) => SetConserves(c, b, e);
    case Delete(k) => DeleteConserves(c, b, k);
    case ClearBucket(_) => NoPairs();
    case SweepBucket(_, _) =>
  }

  lemma {:induction false} NoPairs()
    ensures Bag(EMPTY) == multiset{}
  {
  }

  lemma {:induction false} StepConserves(s: Store, ev: Event, s': Store)
    requires Ok(s) && Step(s, ev, s')
    ensures LiveBag(s.buckets) + StoredBy(ev) == LiveBag(s'.buckets) + multiset(ev.reports) + OverwrittenBy(s, ev)
  {
    var i := Target(s, ev.op);
    assert LruBucketSpec.Ok(s.config, s.buckets[i]);
    hide Bag, LiveBag, LruBucketSpec.Ok, BucketStep, BucketOverwritten;
    BucketStepConserves(s.config, s.buckets[i], ev, s'.buckets[i]);
    LiveBagUpdate(s.buckets, i, s'.buckets[i]);
    Balance(LiveBag(s'.buckets), Bag(s.buckets[i]), LiveBag(s.buckets), Bag(s'.buckets[i]),
            StoredBy(ev), multiset(ev.reports), OverwrittenBy(s, ev));
  }

  /** Conservation: over every history, each stored pair is live, was overwritten by a later set of
      its key, or was reported to the eviction callback - exactly once. */
  lemma {:induction false} Conservation(events: seq<Event>, states: seq<Store>)
    requires History(events, states)
    ensures Stored(events) == LiveBag(states[|events|].buckets) + Reported(events) + Overwritten(events, states)
    decreases |events|
  {
    hide Step, LiveBag, OverwrittenBy, StoredBy, Ok;
    if events == [] {
      LiveBagEmpty(states[0].buckets);
    } else {
      var n := |events| - 1;
      HistoryPrefix(events, states, n);
      Coherent(events[..n], states[..n + 1]);
      Conservation(events[..n], states[..n + 1]);
      OverwrittenPrefix(events[..n], states, n + 1);
      StepConserves(states[n], events[n], states[n + 1]);
      Chain(LiveBag(states[n].buckets), Reported(events[..n]), Overwritten(events[..n], states), StoredBy(events[n]),
            LiveBag(states[n + 1].buckets), multiset(events[n].reports), OverwrittenBy(states[n], events[n]));
    }
  }

  /** The accounts of a history and one more write, whatever its expiry time, balance exactly when that time
      has not wrapped to a negative number; a wrapped write leaves its pair out. */
  lemma {:induction false} NextWriteBalances(events: seq<Event>, states: seq<Store>, e: Entry)
    requires History(events, states) && states[|events|].index(e.key) < |states[|events|].buckets|
    ensures var s := states[|events|];
            var b := s.buckets[s.index(e.key)];
            var r := Write(s.config, b, e);
            Stored(events) + multiset{(e.key, e.value)}
            == LiveBag(s.buckets[s.index(e.key) := r.after]) + (Reported(events) + multiset(r.reports))
               + (Overwritten(events, states) + (PairOf(b.l1, e.key) + PairOf(b.l2, e.key)))
            <==> e.expireAt > 0
  {
    hide Bag, LiveBag, LruBucketSpec.Set, SetStray, Overwritten, Stored, Reported, PairOf;
    var s := states[|events|];
    var i := s.index(e.key);
    var b := s.buckets[i];
    var r := Write(s.config, b, e);
    var over, p := PairOf(b.l1, e.key) + PairOf(b.l2, e.key), multiset{(e.key, e.value)};
    var put := if e.expireAt > 0 then p else multiset{};
    var live, live' := LiveBag(s.buckets), LiveBag(s.buckets[i := r.after]);
    Conservation(events, states);
    SetConserves(s.config, b, e);
    StrayUnbalanced(s.config, b, e);
    assert Bag(b) + put == Bag(r.after) + multiset(r.reports) + over;
    LiveBagUpdate(s.buckets, i, r.after);
    Balance(live', Bag(b), live, Bag(r.after), put, multiset(r.reports), over);
    Chain(live, Reported(events), Overwritten(events, states), put, live', multiset(r.reports), over);
    OneMore(Stored(events), (e.key, e.value));
  }

  // ---- What is stored stays, and is found ----

  lemma {:induction false} PairsHave(s: seq<Entry>, p: (Key, Value))
    ensures p in Pairs(s) <==> exists e :: e in s && (e.key, e.value) == p
  {
    if s != [] {
      PairsHave(s[1..], p);
      assert s == [s[0]] + s[1..];
    }
  }

  lemma {:induction false} BagHas(b: Bucket, p: (Key, Value))
    ensures p in Bag(b) <==> exists e :: In(e, b) && (e.key, e.value) == p
  {
    PairsHave(b.l1, p);
    PairsHave(b.l2, p);
    hide Pairs;
  }

  /** A live entry leaves its bucket only when its key is set again or when it is reported; and an entry that is
      set is live or reported at once. */
  lemma {:induction false} LeavesReported(c: Config, b: Bucket, ev: Event, after: Bucket, e: Entry)
    requires LruBucketSpec.Ok(c, b) && BucketStep(c, b, ev, after)
    requires (In(e, b) && !(ev.op.Set? && ev.op.entry.key == e.key)) || ev.op == Set(e)
    ensures In(e, after) || (e.key, e.value) in ev.reports
  {
    var p := (e.key, e.value);
    BucketStepConserves(c, b, ev, after);
    BucketStepKeeps(c, b, ev, after);
    BagHas(b, p);
    BagHas(after, p);
    Overwrites(b, ev, p);
    if p !in ev.reports {
      hide BucketStep, Bag, BucketOverwritten, LruBucketSpec.Ok;
      assert (Bag(b) + StoredBy(ev))[p] == (Bag(after) + multiset(ev.reports) + BucketOverwritten(b, ev))[p];
      assert p in Bag(after);
      var x :| In(x, after) && (x.key, x.value) == p;
      if ev.op != Set(e) {
        assert In(x, b);
        assert x == e by { SameKey(c, b, e, x); }
      }
    }
  }

  lemma {:induction false} SameKey(c: Config, b: Bucket, e: Entry, x: Entry)
    requires LruBucketSpec.Ok(c, b) && In(e, b) && In(x, b) && x.key == e.key
    ensures x == e
  {
    OneOfKey(b, e);
  }

  lemma {:induction false} Overwrites(b: Bucket, ev: Event, p: (Key, Value))
    ensures BucketOverwritten(b, ev)[p] <= Bag(b)[p]
    ensures !(ev.op.Set? && ev.op.entry.key == p.0) ==> p !in BucketOverwritten(b, ev)
  {
    if ev.op.Set? {
      PairAmong(b.l1, ev.op.entry.key, p);
      PairAmong(b.l2, ev.op.entry.key, p);
      hide Pairs, PairOf;
    }
  }

  lemma {:induction false} PairAmong(s: seq<Entry>, k: Key, p: (Key, Value))
    ensures PairOf(s, k)[p] <= Pairs(s)[p]
    ensures p.0 != k ==> p !in PairOf(s, k)
  {
    PairsWithout(s, k);
    hide Pairs;
  }

  /** Between the write of an entry and a later moment its key is not set again, and it is not reported. */
  ghost predicate Undisturbed(events: seq<Event>, m: nat, n: nat, e: Entry) {
    && m < n <= |events| && events[m].op == Set(e)
    && (forall i :: m < i < n && events[i].op.Set? ==> events[i].op.entry.key != e.key)
    && (forall i :: m <= i < n ==> (e.key, e.value) !in events[i].reports)
  }

  /** Over every history: what was set stays live until its key is set again or it is reported. */
  lemma {:induction false} StaysLive(events: seq<Event>, states: seq<Store>, m: nat, n: nat, e: Entry)
    requires History(events, states) && Undisturbed(events, m, n, e)
    ensures var s := states[n]; s.index(e.key) < |s.buckets| && In(e, s.buckets[s.index(e.key)])
    decreases n
  {
    var k := n - 1;
    HistoryPrefix(events, states, k);
    Coherent(events[..k], states[..k + 1]);
    var s, s', i := states[k], states[n], states[k].index(e.key);
    var t := Target(s, events[k].op);
    if k > m {
      StaysLive(events, states, m, k, e);
    }
    if t == i {
      LeavesReported(s.config, s.buckets[i], events[k], s'.buckets[i], e);
    }
    hide BucketStep;
  }

  /** Every read of every history finds its key exactly when an entry of it is live and has not expired. */
  lemma {:induction false} HitIffLive(events: seq<Event>, states: seq<Store>, n: nat, v: Value)
    requires History(events, states) && n < |events| && events[n].op.Get?
    ensures var s, k, now := states[n], events[n].op.key, events[n].op.now;
            && s.index(k) < |s.buckets|
            && (events[n].found == Some(v) <==>
                  exists e :: In(e, s.buckets[s.index(k)]) && e.key == k && e.value == v && now < e.expireAt)
  {
    HistoryPrefix(events, states, n);
    Coherent(events[..n], states[..n + 1]);
    var s, k := states[n], events[n].op.key;
    GetFinds(s.config, s.buckets[s.index(k)], k, events[n].op.now, v);
  }

  /** And so a read before its expiry finds what its key was last set to, unless that has been reported. */
  lemma {:induction false} HitUnlessReported(events: seq<Event>, states: seq<Store>, m: nat, n: nat, e: Entry)
    requires History(events, states) && Undisturbed(events, m, n, e)
    requires n < |events| && events[n].op.Get? && events[n].op.key == e.key && events[n].op.now < e.expireAt
    ensures events[n].found == Some(e.value)
  {
    StaysLive(events, states, m, n, e);
    HitIffLive(events, states, n, e.value);
  }

  /** One bucket's budget is the whole share that each of them can have. */
  lemma {:induction false} BudgetIsShare(maxBytes: int, count: nat)
    requires 0 < count
    ensures maxBytes <= 0 ==> BucketBudget(maxBytes, count) == 0
    ensures 0 < maxBytes < count ==> BucketBudget(maxBytes, count) == 1
    ensures count <= maxBytes ==>
              count * BucketBudget(maxBytes, count) <= maxBytes < count * BucketBudget(maxBytes, count) + count
  {
    if count <= maxBytes {
      assert maxBytes == count * (maxBytes / count) + maxBytes % count;
    }
  }

  // Bag arithmetic.
  lemma {:induction false} Balance<T>(total': multiset<T>, part: multiset<T>, total: multiset<T>, part': multiset<T>, put: multiset<T>, out: multiset<T>, over: multiset<T>)
    requires total' + part == total + part'
    requires part + put == part' + out + over
    ensures total + put == total' + out + over
  {
    forall x ensures (total + put)[x] == (total' + out + over)[x] {
      assert (total' + part)[x] == (total + part')[x];
      assert (part + put)[x] == (part' + out + over)[x];
    }
  }

  lemma {:induction false} Chain<T>(live: multiset<T>, r: multiset<T>, o: multiset<T>, put: multiset<T>, live': multiset<T>, out: multiset<T>, over: multiset<T>)
    requires live + put == live' + out + over
    ensures (live + r + o) + put == live' + (r + out) + (o + over)
  {
    forall x ensures ((live + r + o) + put)[x] == (live' + (r + out) + (o + over))[x] {
      assert (live + put)[x] == (live' + out + over)[x];
    }
  }

  lemma {:induction false} OverwrittenPrefix(events: seq<Event>, states: seq<Store>, n: nat)
    requires |events| <= n <= |states|
    ensures Overwritten(events, states[..n]) == Overwritten(events, states)
  {
    if events != [] {
      OverwrittenPrefix(events[..|events| - 1], states, n);
    }
  }

  // ---- Number of buckets and byte budget ----

  /** All ones up to the highest bit needed for `cap` buckets. */
  function MaskOfNextPowOf2(cap: bv16): bv16 {
    if cap > 0 && cap & (cap - 1) == 0 then cap - 1
    else
      var c1 := cap | (cap >> 1);
      var c2 := c1 | (c1 >> 2);
      var c3 := c2 | (c2 >> 4);
      c3 | (c3 >> 8)
  }

  /** `mask + 1` is the least power of two that is at least `cap`, unless that does not fit in 16 bits. */
  lemma {:induction false} MaskIsLeastPower(cap: bv16)
    requires cap > 0
    ensures var mask := MaskOfNextPowOf2(cap);
            if cap <= 0x8000 then
              (mask + 1) & mask == 0 && cap <= mask + 1 && (cap == 1 ==> mask == 0) && (cap > 1 ==> (mask >> 1) + 1 < cap)
            else mask == 0xFFFF
  {
  }

  /** The budget of one bucket: an even share of the whole, but at least one byte. */
  function BucketBudget(maxBytes: int, count: nat): int
    requires 0 < count
  {
    if maxBytes > 0 then (if maxBytes / count <= 0 then 1 else maxBytes / count) else 0
  }

  function StoreBytes(buckets: seq<Bucket>): nat {
    if buckets == [] then 0 else BucketBytes(buckets[0]) + StoreBytes(buckets[1..])
  }

  lemma {:induction false} StoreBytesBound(buckets: seq<Bucket>, each: nat)
    requires forall i :: 0 <= i < |buckets| ==> BucketBytes(buckets[i]) <= each
    ensures StoreBytes(buckets) <= |buckets| * each
  {
    hide BucketBytes;
    if buckets != [] {
      StoreBytesBound(buckets[1..], each);
      assert |buckets| * each == (|buckets| - 1) * each + each;
    }
  }

  /** The whole store stays within the configured budget after every locked section, or, when the
      budget is smaller than the number of buckets, within one byte a bucket. */
  lemma {:induction false} WithinBudget(events: seq<Event>, states: seq<Store>, maxBytes: int)
    requires History(events, states) && 0 < |states[0].buckets| && 0 < maxBytes
    requires states[0].config.maxBytes == BucketBudget(maxBytes, |states[0].buckets|)
    ensures var n := |states[0].buckets|;
            StoreBytes(states[|events|].buckets) <= if maxBytes < n then n else maxBytes
  {
    hide Step, BucketBytes;
    var n := |states[0].buckets|;
    Coherent(events, states);
    StoreBytesBound(states[|events|].buckets, states[0].config.maxBytes);
    assert maxBytes / n * n <= maxBytes;
  }
}
