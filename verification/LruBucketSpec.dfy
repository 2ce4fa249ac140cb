/** What one bucket of the store does, on values: two levels, an expiry time per entry and a byte budget. */
module LruBucketSpec {
  import opened Options
  import opened LruSpec

  /** `maxBytes <= 0` means that the bucket has no byte budget. */
  datatype Config = Config(cap1: nat, cap2: nat, maxBytes: int)

  datatype Bucket = Bucket(l1: seq<Entry>, l2: seq<Entry>)

  const EMPTY := Bucket([], [])

  function BucketBytes(b: Bucket): nat {
    Bytes(b.l1) + Bytes(b.l2)
  }

  /** What every operation keeps. */
  ghost predicate Ok(c: Config, b: Bucket) {
    && 0 < c.cap1 && 0 < c.cap2
    && Distinct(b.l1) && Distinct(b.l2)
    && Disjoint(b.l1, b.l2)
    && |b.l1| <= c.cap1 && |b.l2| <= c.cap2
    && (c.maxBytes > 0 ==> BucketBytes(b) <= c.maxBytes)
  }

  datatype Outcome = Outcome(after: Bucket, found: Option<Value>, reports: Reports)

  function Get(c: Config, b: Bucket, k: Key, now: int): Outcome {
    match Lookup(b.l1, k)
    case Some(e) =>
      var l1 := Without(b.l1, k);
      if now >= e.expireAt then
        Outcome(Bucket(l1, Without(b.l2, k)), None, [(k, e.value)])
      else
        Outcome(Bucket(l1, Put(b.l2, c.cap2, e)), Some(e.value), PutReports(b.l2, c.cap2, e))
    case None =>
      match Lookup(b.l2, k)
      case Some(e) =>
        if now >= e.expireAt then Outcome(Bucket(b.l1, Without(b.l2, k)), None, [(k, e.value)])
        else Outcome(Bucket(b.l1, [e] + Without(b.l2, k)), Some(e.value), [])
      case None => Outcome(b, None, [])
  }

  /** Evicting from the old end, first of the first level and then of the second, until the budget holds. */
  function Squeeze(b: Bucket, maxBytes: int): (Bucket, Reports)
    decreases |b.l1| + |b.l2|
  {
    if BucketBytes(b) <= maxBytes then (b, [])
    else if b.l1 != [] then
      var last := b.l1[|b.l1| - 1];
      var (b', reports) := Squeeze(b.(l1 := b.l1[..|b.l1| - 1]), maxBytes);
      (b', [(last.key, last.value)] + reports)
    else if b.l2 != [] then
      var last := b.l2[|b.l2| - 1];
      var (b', reports) := Squeeze(b.(l2 := b.l2[..|b.l2| - 1]), maxBytes);
      (b', [(last.key, last.value)] + reports)
    else (b, [])
  }

  /** One turn of that loop. */
  function Evicted(b: Bucket): (Bucket, Reports)
    requires b.l1 != [] || b.l2 != []
  {
    if b.l1 != [] then
      (b.(l1 := b.l1[..|b.l1| - 1]), [(b.l1[|b.l1| - 1].key, b.l1[|b.l1| - 1].value)])
    else
      (b.(l2 := b.l2[..|b.l2| - 1]), [(b.l2[|b.l2| - 1].key, b.l2[|b.l2| - 1].value)])
  }

  lemma {:induction false} EvictedLess(b: Bucket)
    ensures b.l1 != [] || b.l2 != [] ==> |Evicted(b).0.l1| + |Evicted(b).0.l2| < |b.l1| + |b.l2|
  {
  }

  lemma {:induction false} SqueezeTurn(b: Bucket, maxBytes: int)
    ensures if BucketBytes(b) <= maxBytes || (b.l1 == [] && b.l2 == []) then Squeeze(b, maxBytes) == (b, [])
            else
              var (after, reports) := Evicted(b);
              Squeeze(b, maxBytes) == (Squeeze(after, maxBytes).0, reports + Squeeze(after, maxBytes).1)
  {
  }

  function Set(c: Config, b: Bucket, e: Entry): Outcome {
    var stored := Bucket(Put(b.l1, c.cap1, e), Without(b.l2, e.key));
    var first := PutReports(b.l1, c.cap1, e);
    if c.maxBytes > 0 then
      var (b', reports) := Squeeze(stored, c.maxBytes);
      Outcome(b', None, first + reports)
    else
      Outcome(stored, None, first)
  }

  // ---- Expiry times are 64 bits wide ----

  const MAX_INT64: int := 0x7FFF_FFFF_FFFF_FFFF

  function Int64(n: int): int {
    (n + 0x8000_0000_0000_0000) % 0x1_0000_0000_0000_0000 - 0x8000_0000_0000_0000
  }

  /** The expiry time of an entry set at time `now`; none is wanted when `expiration` is not positive. */
  function ExpiryOf(now: int, expiration: int): int {
    if expiration > 0 then Int64(now + expiration) else MAX_INT64
  }

  /** An expiry time is positive exactly when the sum fits; otherwise it wraps to a negative number. */
  lemma {:induction false} ExpiryPositive(now: int, expiration: int)
    requires 0 < now <= MAX_INT64 && expiration <= MAX_INT64
    ensures ExpiryOf(now, expiration) > 0 <==> expiration <= MAX_INT64 - now
    ensures ExpiryOf(now, expiration) != 0
    ensures 0 < expiration <= MAX_INT64 - now ==> ExpiryOf(now, expiration) == now + expiration
  {
  }

  /** Without an expiration wanted an entry outlasts every time a clock of 64 bits shows before its last. */
  lemma {:induction false} NeverExpires(now: int, expiration: int, later: int)
    requires expiration <= 0 && later < MAX_INT64
    ensures later < ExpiryOf(now, expiration) == MAX_INT64
  {
  }

  /** A write whose expiry time has wrapped: the entry takes a slot and its bytes, and displaces what
      is in the way, but is not live. */
  function SetStray(c: Config, b: Bucket, e: Entry): Outcome {
    var stored := Bucket(Displaced(b.l1, c.cap1, e.key), Without(b.l2, e.key));
    var first := PutReports(b.l1, c.cap1, e);
    if c.maxBytes > 0 then
      var (b', reports) := Squeeze(stored, c.maxBytes - Size(e));
      Outcome(b', None, first + reports)
    else
      Outcome(stored, None, first)
  }

  /** A write, whatever its expiry time. */
  function Write(c: Config, b: Bucket, e: Entry): Outcome {
    if e.expireAt > 0 then Set(c, b, e) else SetStray(c, b, e)
  }

  function Delete(b: Bucket, k: Key): Outcome {
    var after := Bucket(Without(b.l1, k), Without(b.l2, k));
    match Lookup(b.l1, k)
    case Some(e) => Outcome(after, None, [(k, e.value)])
    case None =>
      match Lookup(b.l2, k)
      case Some(e) => Outcome(after, None, [(k, e.value)])
      case None => Outcome(after, None, [])
  }

  /** The entries whose keys are not in `ks`. */
  function Removed(s: seq<Entry>, ks: set<Key>): seq<Entry> {
    if s == [] then []
    else if s[0].key in ks then Removed(s[1..], ks)
    else [s[0]] + Removed(s[1..], ks)
  }

  function ExpiredKeys(s: seq<Entry>, now: int): set<Key> {
    set i | 0 <= i < |s| && now >= s[i].expireAt :: s[i].key
  }

  function Keys(s: seq<Entry>): set<Key> {
    set i | 0 <= i < |s| :: s[i].key
  }

  function Pairs(s: seq<Entry>): multiset<(Key, Value)> {
    if s == [] then multiset{} else multiset{(s[0].key, s[0].value)} + Pairs(s[1..])
  }

  function Bag(b: Bucket): multiset<(Key, Value)> {
    Pairs(b.l1) + Pairs(b.l2)
  }

  // ---- Lemmas about lists ----

  lemma {:induction false} HasTail(s: seq<Entry>, k: Key)
    requires s != [] && s[0].key != k
    ensures Has(s, k) <==> Has(s[1..], k)
  {
    if Has(s, k) {
      var i :| 0 <= i < |s| && s[i].key == k;
      assert s[1..][i - 1].key == k;
    }
    if Has(s[1..], k) {
      var i :| 0 <= i < |s[1..]| && s[1..][i].key == k;
      assert s[i + 1].key == k;
    }
  }

  lemma {:induction false} CutDistinct(s: seq<Entry>, j: nat)
    requires Distinct(s) && j < |s|
    ensures Distinct(s[..j] + s[j + 1..]) && !Has(s[..j] + s[j + 1..], s[j].key)
  {
  }

  lemma {:induction false} CutMembers(s: seq<Entry>, j: nat)
    requires Distinct(s) && j < |s|
    ensures forall e :: e in s[..j] + s[j + 1..] <==> e in s && e.key != s[j].key
  {
    var c := s[..j] + s[j + 1..];
    forall e ensures e in c <==> e in s && e.key != s[j].key {
      if e in s && e.key != s[j].key {
        var i :| 0 <= i < |s| && s[i] == e;
        assert c[if i < j then i else i - 1] == e;
      }
      if e in c {
        var i :| 0 <= i < |c| && c[i] == e;
        assert s[if i < j then i else i + 1] == e;
      }
    }
  }

  lemma {:induction false} WithoutMembers(s: seq<Entry>, k: Key)
    requires Distinct(s)
    ensures Distinct(Without(s, k)) && !Has(Without(s, k), k)
    ensures forall e :: e in Without(s, k) <==> e in s && e.key != k
    ensures |Without(s, k)| == if Has(s, k) then |s| - 1 else |s|
  {
    hide Without, Lookup;
    if Has(s, k) {
      var j :| 0 <= j < |s| && s[j].key == k;
      WithoutAt(s, k, j);
      CutDistinct(s, j);
      CutMembers(s, j);
    } else {
      WithoutAbsent(s, k);
    }
  }

  lemma {:induction false} LookupMember(s: seq<Entry>, k: Key)
    ensures Lookup(s, k).None? <==> !Has(s, k)
    ensures Lookup(s, k).Some? ==> Lookup(s, k).value in s && Lookup(s, k).value.key == k
    ensures Distinct(s) ==> forall e :: e in s && e.key == k ==> Lookup(s, k) == Some(e)
  {
    if s != [] {
      var t := s[1..];
      assert s == [s[0]] + t;
      LookupMember(t, k);
      if s[0].key != k {
        HasTail(s, k);
      } else {
        assert forall i :: 0 <= i < |t| ==> t[i] == s[i + 1];
      }
    }
  }

  lemma {:induction false} PairsConcat(a: seq<Entry>, b: seq<Entry>)
    ensures Pairs(a + b) == Pairs(a) + Pairs(b)
  {
    if a == [] {
      assert a + b == b;
    } else {
      assert (a + b)[1..] == a[1..] + b;
      PairsConcat(a[1..], b);
    }
  }

  lemma {:induction false} PairsLast(s: seq<Entry>)
    requires s != []
    ensures Pairs(s) == Pairs(s[..|s| - 1]) + multiset{(s[|s| - 1].key, s[|s| - 1].value)}
  {
    var last := s[|s| - 1];
    PairsConcat(s[..|s| - 1], [last]);
    assert s == s[..|s| - 1] + [last];
    assert Pairs([last]) == multiset{(last.key, last.value)};
  }

  lemma {:induction false} PairsCons(e: Entry, s: seq<Entry>)
    ensures Pairs([e] + s) == multiset{(e.key, e.value)} + Pairs(s)
  {
    assert ([e] + s)[1..] == s;
  }

  /** The pair stored under a key, if there is one. */
  function PairOf(s: seq<Entry>, k: Key): multiset<(Key, Value)> {
    match Lookup(s, k)
    case Some(e) => multiset{(k, e.value)}
    case None => multiset{}
  }

  lemma {:induction false} PairsWithout(s: seq<Entry>, k: Key)
    ensures Pairs(s) == Pairs(Without(s, k)) + PairOf(s, k)
  {
    if s != [] && s[0].key != k {
      PairsWithout(s[1..], k);
      PairsCons(s[0], Without(s[1..], k));
    }
  }

  /** Storing keeps the list distinct and within capacity, and adds nothing but the new entry. */
  lemma {:induction false} PutMembers(s: seq<Entry>, cap: nat, e: Entry)
    requires Distinct(s) && |s| <= cap && 0 < cap
    ensures var p := Put(s, cap, e);
            && Distinct(p) && |p| <= cap && p != [] && p[0] == e
            && forall x :: x in p ==> x == e || (x in s && x.key != e.key)
  {
    if Has(s, e.key) {
      WithoutMembers(s, e.key);
    }
  }

  /** Storing accounts for every pair: kept, reported or overwritten. */
  lemma {:induction false} PutPairs(s: seq<Entry>, cap: nat, e: Entry)
    ensures Pairs(s) + multiset{(e.key, e.value)}
            == Pairs(Put(s, cap, e)) + multiset(PutReports(s, cap, e)) + PairOf(s, e.key)
  {
    hide Lookup, Without, Pairs, Has;
    LookupMember(s, e.key);
    PairsCons(e, Without(s, e.key));
    PairsWithout(s, e.key);
    PairsCons(e, s);
    if s != [] {
      PairsLast(s);
      PairsCons(e, s[..|s| - 1]);
    }
  }

  lemma {:induction false} PutBytes(s: seq<Entry>, cap: nat, e: Entry)
    ensures Bytes(Put(s, cap, e)) <= Bytes(s) + Size(e)
  {
    BytesWithout(s, e.key);
    LookupMember(s, e.key);
    BytesCons(e, Without(s, e.key));
    BytesCons(e, s);
    if s != [] {
      BytesLast(s);
      BytesCons(e, s[..|s| - 1]);
    }
  }

  lemma {:induction false} DistinctCons(e: Entry, s: seq<Entry>)
    requires Distinct(s) && !Has(s, e.key)
    ensures Distinct([e] + s)
  {
  }

  ghost predicate Disjoint(a: seq<Entry>, b: seq<Entry>) {
    forall x, y :: x in a && y in b ==> x.key != y.key
  }

  ghost predicate In(e: Entry, b: Bucket) {
    e in b.l1 || e in b.l2
  }

  /** The invariant the never-stale argument rests on is kept by a read, whatever it promotes,
      expires or pushes out; nothing new becomes live, and a hit is a live, unexpired entry. */
  lemma {:induction false} GetKeeps(c: Config, b: Bucket, k: Key, now: int)
    requires Ok(c, b)
    ensures var r := Get(c, b, k, now);
            && Ok(c, r.after)
            && (forall e :: In(e, r.after) ==> In(e, b))
            && (r.found.Some? ==> exists e :: In(e, b) && e.key == k && e.value == r.found.value && now < e.expireAt)
  {
    hide Lookup, Without, Bytes, Distinct, Has, Put;
    LookupMember(b.l1, k);
    LookupMember(b.l2, k);
    WithoutMembers(b.l1, k);
    WithoutMembers(b.l2, k);
    BytesWithout(b.l1, k);
    BytesWithout(b.l2, k);
    match Lookup(b.l1, k)
    case Some(e) =>
      assert In(e, b);
      PutMembers(b.l2, c.cap2, e);
      PutBytes(b.l2, c.cap2, e);
    case None =>
      match Lookup(b.l2, k)
      case Some(e) =>
        assert In(e, b);
        BytesCons(e, Without(b.l2, k));
        DistinctCons(e, Without(b.l2, k));
      case None =>
  }

  /** A read finds the value of its key exactly when the key is live and has not expired. */
  lemma {:induction false} GetFinds(c: Config, b: Bucket, k: Key, now: int, v: Value)
    requires Ok(c, b)
    ensures Get(c, b, k, now).found == Some(v) <==> exists e :: In(e, b) && e.key == k && e.value == v && now < e.expireAt
  {
    hide Lookup, Without, Bytes, Distinct, Has, Put;
    LookupMember(b.l1, k);
    LookupMember(b.l2, k);
    GetKeeps(c, b, k, now);
    if e :| In(e, b) && e.key == k && e.value == v && now < e.expireAt {
      assert Lookup(b.l1, k) == Some(e) || (Lookup(b.l1, k).None? && Lookup(b.l2, k) == Some(e));
    }
  }

  /** What a hit leaves: the entry read is the most recent one of the second level.  All other live entries stay,
      except that the least recent one of a full second level makes room for an entry promoted from the first,
      and is reported. */
  lemma {:induction false} HitLeaves(c: Config, b: Bucket, k: Key, now: int, e: Entry)
    requires Ok(c, b) && In(e, b) && e.key == k && now < e.expireAt
    ensures var r := Get(c, b, k, now);
            && r.after.l2 != [] && r.after.l2[0] == e && e !in r.after.l1
            && if e in b.l1 && |b.l2| == c.cap2 then
                 var d := b.l2[|b.l2| - 1];
                 r.reports == [(d.key, d.value)] && forall x :: In(x, r.after) <==> In(x, b) && x != d
               else
                 r.reports == [] && forall x :: In(x, r.after) <==> In(x, b)
  {
    hide Lookup, Bytes, Distinct, Has, Without;
    LookupMember(b.l1, k);
    LookupMember(b.l2, k);
    WithoutMembers(b.l1, k);
    WithoutMembers(b.l2, k);
    if e in b.l1 {
      assert !Has(b.l2, k);
      if |b.l2| == c.cap2 {
        LastApart(b.l2);
      }
      assert Get(c, b, k, now).after == Bucket(Without(b.l1, k), Put(b.l2, c.cap2, e));
      OneOfKey(b, e);
    } else {
      OneOfKey(b, e);
      assert Get(c, b, k, now).after == Bucket(b.l1, [e] + Without(b.l2, k));
    }
  }

  lemma {:induction false} OneOfKey(b: Bucket, e: Entry)
    requires Distinct(b.l1) && Distinct(b.l2) && Disjoint(b.l1, b.l2) && In(e, b)
    ensures forall x :: In(x, b) && x.key == e.key ==> x == e
  {
    LookupMember(b.l1, e.key);
    LookupMember(b.l2, e.key);
    hide Lookup, Distinct;
  }

  lemma {:induction false} LastApart(s: seq<Entry>)
    requires Distinct(s) && s != []
    ensures forall x :: x in s[..|s| - 1] <==> x in s && x != s[|s| - 1]
  {
    var p, last := s[..|s| - 1], s[|s| - 1];
    assert s == p + [last];
    forall x | x in p ensures x.key != last.key {
      var i :| 0 <= i < |p| && p[i] == x;
      assert s[i] == x && s[|s| - 1] == last;
    }
  }

  /** What a miss leaves: an expired entry of the key is gone and reported, and everything else is as it was, in
      its order. */
  lemma {:induction false} MissLeaves(c: Config, b: Bucket, k: Key, now: int)
    requires Ok(c, b) && Get(c, b, k, now).found.None?
    ensures var r := Get(c, b, k, now);
            && (forall x :: In(x, r.after) <==> In(x, b) && x.key != k)
            && (forall x :: In(x, b) && x.key == k ==> x.expireAt <= now && r.reports == [(k, x.value)])
            && ((forall x :: In(x, b) ==> x.key != k) ==> r.after == b && r.reports == [])
  {
    hide Lookup, Bytes, Distinct, Has, Without, Put;
    LookupMember(b.l1, k);
    LookupMember(b.l2, k);
    WithoutMembers(b.l1, k);
    WithoutMembers(b.l2, k);
    match Lookup(b.l1, k)
    case Some(e) => OneOfKey(b, e);
    case None =>
      match Lookup(b.l2, k)
      case Some(e) => OneOfKey(b, e);
      case None =>
  }

  /** A read keeps the recency order of both levels, but for the entry read. */
  lemma {:induction false} GetKeepsOrder(c: Config, b: Bucket, k: Key, now: int)
    requires Ok(c, b)
    ensures var r := Get(c, b, k, now);
            && r.after.l1 == OthersOf(b.l1, k)
            && OthersOf(r.after.l2, k) <= OthersOf(b.l2, k)
  {
    hide Lookup, Bytes, Distinct, Has, Put, Without, OthersOf;
    LookupMember(b.l1, k);
    LookupMember(b.l2, k);
    WithoutOthers(b.l1, k);
    WithoutOthers(b.l2, k);
    WithoutMembers(b.l2, k);
    NoneIfAbsent(b.l1, k);
    NoneIfAbsent(b.l2, k);
    NoneIfAbsent(Without(b.l2, k), k);
    if Lookup(b.l1, k).Some? {
      var e := Lookup(b.l1, k).value;
      assert Lookup(b.l2, k).None? by { assert e in b.l1; }
      PutOthers(b.l2, c.cap2, e);
    } else if Lookup(b.l2, k).Some? {
      OthersCons(Lookup(b.l2, k).value, Without(b.l2, k), k);
    }
  }

  lemma {:induction false} NoneIfAbsent(s: seq<Entry>, k: Key)
    ensures !Has(s, k) ==> OthersOf(s, k) == s
  {
    if !Has(s, k) {
      NoneOf(s, k);
    }
  }

  /** The entries of other keys, in order. */
  function OthersOf(s: seq<Entry>, k: Key): seq<Entry> {
    if s == [] then [] else (if s[0].key == k then [] else [s[0]]) + OthersOf(s[1..], k)
  }

  lemma {:induction false} OthersCons(e: Entry, s: seq<Entry>, k: Key)
    ensures OthersOf([e] + s, k) == (if e.key == k then [] else [e]) + OthersOf(s, k)
  {
    assert ([e] + s)[1..] == s;
  }

  lemma {:induction false} NoneOf(s: seq<Entry>, k: Key)
    requires !Has(s, k)
    ensures OthersOf(s, k) == s
  {
    if s != [] {
      assert s[0].key != k;
      assert forall i :: 0 <= i < |s[1..]| ==> s[1..][i] == s[i + 1];
      NoneOf(s[1..], k);
    }
  }

  lemma {:induction false} WithoutOthers(s: seq<Entry>, k: Key)
    requires Distinct(s)
    ensures Without(s, k) == OthersOf(s, k)
  {
    if s != [] {
      var t := s[1..];
      assert forall i :: 0 <= i < |t| ==> t[i] == s[i + 1];
      if s[0].key == k {
        NoneOf(t, k);
      } else {
        WithoutOthers(t, k);
      }
    }
  }

  lemma {:induction false} PutOthers(s: seq<Entry>, cap: nat, e: Entry)
    requires Distinct(s) && !Has(s, e.key)
    ensures OthersOf(Put(s, cap, e), e.key) <= OthersOf(s, e.key)
  {
    OthersCons(e, Displaced(s, cap, e.key), e.key);
    NoneOf(s, e.key);
    if 0 < |s| == cap {
      var p := s[..|s| - 1];
      assert forall i :: 0 <= i < |p| ==> p[i] == s[i];
      NoneOf(p, e.key);
    }
  }

  /** The eviction loop stops inside the first level whenever the second level alone fits, and keeps
      the longest recent prefix that fits. */
  lemma {:induction false} SqueezeStops(b: Bucket, maxBytes: int)
    requires Bytes(b.l2) <= maxBytes
    ensures var after := Squeeze(b, maxBytes).0;
            && after.l2 == b.l2
            && after.l1 <= b.l1
            && BucketBytes(after) <= maxBytes
            && (after.l1 < b.l1 ==> Bytes(b.l1[..|after.l1| + 1]) + Bytes(b.l2) > maxBytes)
    decreases |b.l1|
  {
    if BucketBytes(b) > maxBytes {
      var n := |b.l1| - 1;
      assert b.l1 != [] by { assert Bytes([]) == 0; }
      var rest := b.(l1 := b.l1[..n]);
      SqueezeStops(rest, maxBytes);
      var k := |Squeeze(rest, maxBytes).0.l1|;
      hide Squeeze, Bytes;
      if k == n {
        assert b.l1[..k + 1] == b.l1;
      } else {
        assert b.l1[..k + 1] == rest.l1[..k + 1];
      }
    }
  }

  lemma {:induction false} EvictedConserves(b: Bucket)
    requires b.l1 != [] || b.l2 != []
    ensures Bag(b) == Bag(Evicted(b).0) + multiset(Evicted(b).1)
  {
    hide Pairs;
    if b.l1 != [] {
      PairsLast(b.l1);
    } else {
      PairsLast(b.l2);
    }
  }

  /** The eviction loop reports exactly what it removes. */
  lemma {:induction false} SqueezeConserves(b: Bucket, maxBytes: int)
    ensures Bag(b) == Bag(Squeeze(b, maxBytes).0) + multiset(Squeeze(b, maxBytes).1)
    decreases |b.l1| + |b.l2|
  {
    hide Bag, Bytes, Evicted, Squeeze;
    SqueezeTurn(b, maxBytes);
    if BucketBytes(b) > maxBytes && (b.l1 != [] || b.l2 != []) {
      var (after, out) := Evicted(b);
      EvictedConserves(b);
      EvictedLess(b);
      SqueezeConserves(after, maxBytes);
      var more := Squeeze(after, maxBytes).1;
      assert multiset(out + more) == multiset(out) + multiset(more);
    }
  }

  lemma {:induction false} BytesPrefix(p: seq<Entry>, s: seq<Entry>)
    requires p <= s
    ensures Bytes(p) <= Bytes(s)
  {
    BytesConcat(p, s[|p|..]);
    assert s == p + s[|p|..];
  }

  /** A write keeps the invariant and the budget, never evicts from the second level, and afterwards
      its key is live only as the entry just written. */
  lemma {:induction false} SetKeeps(c: Config, b: Bucket, e: Entry)
    requires Ok(c, b)
    ensures var r := Set(c, b, e);
            && Ok(c, r.after)
            && r.after.l2 == Without(b.l2, e.key)
            && (forall x :: In(x, r.after) ==> x == e || (In(x, b) && x.key != e.key))
  {
    hide Lookup, Without, Bytes, Distinct, Has, Put, Squeeze;
    PutMembers(b.l1, c.cap1, e);
    WithoutMembers(b.l2, e.key);
    LookupMember(b.l2, e.key);
    BytesWithout(b.l2, e.key);
    var stored := Bucket(Put(b.l1, c.cap1, e), Without(b.l2, e.key));
    assert Disjoint(stored.l1, stored.l2);
    if c.maxBytes > 0 {
      SqueezeStops(stored, c.maxBytes);
      DistinctPrefix(Squeeze(stored, c.maxBytes).0.l1, stored.l1);
    }
  }

  lemma {:induction false} DistinctPrefix(p: seq<Entry>, s: seq<Entry>)
    requires p <= s && Distinct(s)
    ensures Distinct(p) && |p| <= |s| && forall x :: x in p ==> x in s
  {
  }

  /** The entry just written is live exactly when there is no budget or when it fits beside what
      remains of the second level. */
  lemma {:induction false} SetSurvives(c: Config, b: Bucket, e: Entry)
    requires Ok(c, b)
    ensures In(e, Set(c, b, e).after) <==> c.maxBytes <= 0 || Size(e) + Bytes(Without(b.l2, e.key)) <= c.maxBytes
  {
    hide Lookup, Without, Bytes, Distinct, Has, Put, Squeeze;
    PutMembers(b.l1, c.cap1, e);
    WithoutMembers(b.l2, e.key);
    LookupMember(b.l2, e.key);
    BytesWithout(b.l2, e.key);
    var stored := Bucket(Put(b.l1, c.cap1, e), Without(b.l2, e.key));
    if c.maxBytes > 0 {
      SqueezeStops(stored, c.maxBytes);
      Survives(stored.l1, Squeeze(stored, c.maxBytes).0.l1, c.maxBytes - Bytes(stored.l2));
    }
  }

  lemma {:induction false} Survives(s: seq<Entry>, p: seq<Entry>, room: int)
    requires s != [] && p <= s && Bytes(p) <= room
    requires p < s ==> Bytes(s[..|p| + 1]) > room
    requires Distinct(s)
    ensures s[0] in p <==> Size(s[0]) <= room
  {
    assert Bytes([s[0]]) == Size(s[0]);
    if p == [] {
      assert s[..1] == [s[0]];
    } else {
      BytesPrefix([s[0]], p);
    }
  }

  lemma {:induction false} DisplacedMembers(s: seq<Entry>, cap: nat, k: Key)
    requires Distinct(s)
    ensures forall x :: x in Displaced(s, cap, k) ==> x in s && x.key != k
  {
    WithoutMembers(s, k);
    LookupMember(s, k);
  }

  lemma {:induction false} SqueezePrefixes(b: Bucket, maxBytes: int)
    ensures Squeeze(b, maxBytes).0.l1 <= b.l1 && Squeeze(b, maxBytes).0.l2 <= b.l2
    decreases |b.l1| + |b.l2|
  {
    if BucketBytes(b) > maxBytes {
      if b.l1 != [] {
        SqueezePrefixes(b.(l1 := b.l1[..|b.l1| - 1]), maxBytes);
      } else if b.l2 != [] {
        SqueezePrefixes(b.(l2 := b.l2[..|b.l2| - 1]), maxBytes);
      }
    }
  }

  /** After a write that wrapped its key is live nowhere, so the next read misses; what is live was
      live before. */
  lemma {:induction false} StrayLost(c: Config, b: Bucket, e: Entry)
    requires Ok(c, b)
    ensures forall x :: In(x, SetStray(c, b, e).after) ==> In(x, b) && x.key != e.key
  {
    hide Without, Distinct, Has, Displaced, Squeeze, Bytes;
    DisplacedMembers(b.l1, c.cap1, e.key);
    WithoutMembers(b.l2, e.key);
    var stored := Bucket(Displaced(b.l1, c.cap1, e.key), Without(b.l2, e.key));
    SqueezePrefixes(stored, c.maxBytes - Size(e));
  }

  /** Whatever is written, the entry is live afterwards exactly when its expiry time did not wrap and
      there is no budget or it fits beside what remains of the second level. */
  lemma {:induction false} WriteSurvives(c: Config, b: Bucket, e: Entry)
    requires Ok(c, b)
    ensures In(e, Write(c, b, e).after) <==>
            e.expireAt > 0 && (c.maxBytes <= 0 || Size(e) + Bytes(Without(b.l2, e.key)) <= c.maxBytes)
  {
    hide Ok, Set, SetStray, Without, Bytes;
    if e.expireAt > 0 {
      SetSurvives(c, b, e);
    } else {
      StrayLost(c, b, e);
    }
  }

  /** The longest expiration a caller can ask for is lost on every bucket, with or without a budget. */
  lemma {:induction false} LongestExpirationLost(c: Config, b: Bucket, k: Key, v: Value, now: int)
    requires Ok(c, b) && 0 < now <= MAX_INT64
    ensures var e := Entry(k, v, ExpiryOf(now, MAX_INT64)); e.expireAt == now - MAX_INT64 - 2 && !In(e, Write(c, b, e).after)
  {
    WriteSurvives(c, b, Entry(k, v, ExpiryOf(now, MAX_INT64)));
    hide Write, Ok;
  }

  lemma {:induction false} DeleteKeeps(c: Config, b: Bucket, k: Key)
    requires Ok(c, b)
    ensures var r := Delete(b, k);
            && Ok(c, r.after)
            && (forall x :: In(x, r.after) <==> In(x, b) && x.key != k)
  {
    hide Lookup, Without, Bytes, Distinct, Has;
    WithoutMembers(b.l1, k);
    WithoutMembers(b.l2, k);
    LookupMember(b.l1, k);
    LookupMember(b.l2, k);
    BytesWithout(b.l1, k);
    BytesWithout(b.l2, k);
  }

  /** The recency order after a write: the entry written comes first, the others keep theirs. */
  lemma {:induction false} SetOrder(c: Config, b: Bucket, e: Entry)
    requires Ok(c, b)
    ensures var r := Set(c, b, e);
            r.after.l1 <= [e] + OthersOf(b.l1, e.key) && r.after.l2 == OthersOf(b.l2, e.key)
  {
    hide Lookup, Bytes, Distinct, Has, Put, Without, OthersOf, Squeeze;
    WithoutOthers(b.l2, e.key);
    WithoutMembers(b.l2, e.key);
    LookupMember(b.l2, e.key);
    BytesWithout(b.l2, e.key);
    PutPrefix(b.l1, c.cap1, e);
    var stored := Bucket(Put(b.l1, c.cap1, e), Without(b.l2, e.key));
    if c.maxBytes > 0 {
      SqueezeStops(stored, c.maxBytes);
    }
  }

  /** The pairs of a list from its old end on. */
  function OldestFirst(s: seq<Entry>): Reports {
    if s == [] then []
    else var n := |s| - 1; [(s[n].key, s[n].value)] + OldestFirst(s[..n])
  }

  lemma {:induction false} SqueezeReports(b: Bucket, maxBytes: int)
    requires Bytes(b.l2) <= maxBytes
    ensures var (after, reports) := Squeeze(b, maxBytes);
            after.l1 <= b.l1 && reports == OldestFirst(b.l1[|after.l1|..])
    decreases |b.l1|
  {
    if BucketBytes(b) > maxBytes {
      var n := |b.l1| - 1;
      assert b.l1 != [] by { assert Bytes([]) == 0; }
      var rest := b.(l1 := b.l1[..n]);
      SqueezeReports(rest, maxBytes);
      var k := |Squeeze(rest, maxBytes).0.l1|;
      assert b.l1[k..][..n - k] == rest.l1[k..];
    }
  }

  /** What a write reports: of the new entry and the others of the first level those that are not kept, each once, the
      oldest first. */
  lemma {:induction false} SetReports(c: Config, b: Bucket, e: Entry)
    requires Ok(c, b)
    ensures var r, all := Set(c, b, e), [e] + OthersOf(b.l1, e.key);
            r.after.l1 <= all && r.reports == OldestFirst(all[|r.after.l1|..])
  {
    hide Lookup, Bytes, Distinct, Has, Without, OthersOf, Squeeze;
    SetOrder(c, b, e);
    WithoutMembers(b.l2, e.key);
    LookupMember(b.l2, e.key);
    BytesWithout(b.l2, e.key);
    var all, stored := [e] + OthersOf(b.l1, e.key), Bucket(Put(b.l1, c.cap1, e), Without(b.l2, e.key));
    PutDisplaces(b.l1, c.cap1, e);
    hide Put, PutReports;
    if c.maxBytes > 0 {
      SqueezeReports(stored, c.maxBytes);
      assert stored.l1 == all[..|stored.l1|];
      OldestSplit(all, |Squeeze(stored, c.maxBytes).0.l1|, |stored.l1|);
    }
  }

  lemma {:induction false} PutDisplaces(s: seq<Entry>, cap: nat, e: Entry)
    requires Distinct(s)
    ensures var all, p := [e] + OthersOf(s, e.key), Put(s, cap, e);
            p <= all && PutReports(s, cap, e) == OldestFirst(all[|p|..])
  {
    WithoutOthers(s, e.key);
    NoneIfAbsent(s, e.key);
    var all, p := [e] + OthersOf(s, e.key), Put(s, cap, e);
    if PutReports(s, cap, e) != [] {
      var last := s[|s| - 1];
      assert all == p + [last];
      assert all[|p|..] == [last] && [last][..0] == [];
      assert OldestFirst([last]) == [(last.key, last.value)] + OldestFirst([]);
    } else {
      assert all == p;
      assert all[|p|..] == [];
    }
  }

  lemma {:induction false} OldestSplit(s: seq<Entry>, i: nat, j: nat)
    requires i <= j <= |s|
    ensures OldestFirst(s[j..]) + OldestFirst(s[..j][i..]) == OldestFirst(s[i..])
  {
    assert s[i..] == s[..j][i..] + s[j..];
    OldestConcat(s[..j][i..], s[j..]);
  }

  lemma {:induction false} OldestConcat(a: seq<Entry>, b: seq<Entry>)
    ensures OldestFirst(a + b) == OldestFirst(b) + OldestFirst(a)
  {
    if b == [] {
      assert a + b == a;
    } else {
      var n := |b| - 1;
      var all, last := a + b, (b[n].key, b[n].value);
      assert all[..|all| - 1] == a + b[..n] && all[|all| - 1] == b[n];
      assert OldestFirst(all) == [last] + OldestFirst(a + b[..n]);
      OldestConcat(a, b[..n]);
    }
  }

  lemma {:induction false} PutPrefix(s: seq<Entry>, cap: nat, e: Entry)
    requires Distinct(s)
    ensures Put(s, cap, e) <= [e] + OthersOf(s, e.key)
  {
    WithoutOthers(s, e.key);
    NoneIfAbsent(s, e.key);
  }

  lemma {:induction false} DeleteOrder(b: Bucket, k: Key)
    requires Distinct(b.l1) && Distinct(b.l2)
    ensures Delete(b, k).after == Bucket(OthersOf(b.l1, k), OthersOf(b.l2, k))
  {
    WithoutOthers(b.l1, k);
    WithoutOthers(b.l2, k);
  }

  // ---- Conservation: what enters is kept, overwritten or reported, each exactly once ----

  lemma {:induction false} GetConserves(c: Config, b: Bucket, k: Key, now: int)
    requires Ok(c, b)
    ensures var r := Get(c, b, k, now); Bag(b) == Bag(r.after) + multiset(r.reports)
  {
    hide Lookup, Without, Pairs, Distinct, Has, Put, PutReports;
    LookupMember(b.l1, k);
    LookupMember(b.l2, k);
    PairsWithout(b.l1, k);
    PairsWithout(b.l2, k);
    match Lookup(b.l1, k)
    case Some(e) =>
      assert Lookup(b.l2, k).None? by { assert e in b.l1; }
      PutPairs(b.l2, c.cap2, e);
      if now < e.expireAt {
        var r := Get(c, b, k, now);
        assert Bag(r.after) == Pairs(Without(b.l1, k)) + Pairs(Put(b.l2, c.cap2, e));
        assert Bag(r.after) + multiset(r.reports) == Pairs(Without(b.l1, k)) + (Pairs(b.l2) + multiset{(k, e.value)});
      } else {
        assert multiset([(k, e.value)]) == multiset{(k, e.value)};
      }
    case None =>
      match Lookup(b.l2, k)
      case Some(e) => PairsCons(e, Without(b.l2, k));
      case None =>
  }

  lemma {:induction false} SetConserves(c: Config, b: Bucket, e: Entry)
    ensures var r := Set(c, b, e);
            Bag(b) + multiset{(e.key, e.value)}
            == Bag(r.after) + multiset(r.reports) + PairOf(b.l1, e.key) + PairOf(b.l2, e.key)
  {
    hide Lookup, Without, Pairs, Distinct, Has, Put, PutReports, Bytes, Squeeze, PairOf;
    PutPairs(b.l1, c.cap1, e);
    PairsWithout(b.l2, e.key);
    var stored := Bucket(Put(b.l1, c.cap1, e), Without(b.l2, e.key));
    SqueezeConserves(stored, c.maxBytes);
    var first, more := PutReports(b.l1, c.cap1, e), Squeeze(stored, c.maxBytes).1;
    assert multiset(first + more) == multiset(first) + multiset(more);
    var p := multiset{(e.key, e.value)};
    assert Bag(b) + p == (Pairs(b.l1) + p) + Pairs(b.l2);
    assert (Pairs(b.l1) + p) == (Pairs(stored.l1) + multiset(first)) + PairOf(b.l1, e.key);
    assert Bag(stored) + multiset(first) + PairOf(b.l1, e.key) + PairOf(b.l2, e.key) == Bag(b) + p;
    if c.maxBytes > 0 {
      var r := Set(c, b, e);
      assert Bag(stored) == Bag(r.after) + multiset(more);
    }
  }

  lemma {:induction false} DisplacedPairs(s: seq<Entry>, cap: nat, e: Entry)
    ensures Pairs(s) == Pairs(Displaced(s, cap, e.key)) + multiset(PutReports(s, cap, e)) + PairOf(s, e.key)
  {
    hide Lookup, Without, Pairs, Has, PutReports, PairOf, Displaced;
    PutPairs(s, cap, e);
    PairsCons(e, Displaced(s, cap, e.key));
    var p := multiset{(e.key, e.value)};
    Cancel(Pairs(s), Pairs(Displaced(s, cap, e.key)) + multiset(PutReports(s, cap, e)) + PairOf(s, e.key), p);
  }

  lemma {:induction false} Cancel<T>(a: multiset<T>, b: multiset<T>, c: multiset<T>)
    requires a + c == b + c
    ensures a == b
  {
    assert a == (a + c) - c && b == (b + c) - c;
  }

  /** A write that wrapped leaves the new pair out of every account. */
  lemma {:induction false} StrayUnbalanced(c: Config, b: Bucket, e: Entry)
    ensures var r := SetStray(c, b, e);
            Bag(b) == Bag(r.after) + multiset(r.reports) + PairOf(b.l1, e.key) + PairOf(b.l2, e.key)
  {
    hide Lookup, Without, Pairs, Distinct, Has, Displaced, PutReports, Bytes, Squeeze, PairOf;
    DisplacedPairs(b.l1, c.cap1, e);
    PairsWithout(b.l2, e.key);
    var stored := Bucket(Displaced(b.l1, c.cap1, e.key), Without(b.l2, e.key));
    SqueezeConserves(stored, c.maxBytes - Size(e));
    var first, more := PutReports(b.l1, c.cap1, e), Squeeze(stored, c.maxBytes - Size(e)).1;
    assert multiset(first + more) == multiset(first) + multiset(more);
    assert Bag(stored) + multiset(first) + PairOf(b.l1, e.key) + PairOf(b.l2, e.key) == Bag(b);
  }

  /** Whatever is written, the accounts balance exactly when the expiry time did not wrap. */
  lemma {:induction false} WriteConserves(c: Config, b: Bucket, e: Entry)
    ensures var r := Write(c, b, e);
            Bag(b) + multiset{(e.key, e.value)} == Bag(r.after) + multiset(r.reports) + PairOf(b.l1, e.key) + PairOf(b.l2, e.key)
            <==> e.expireAt > 0
  {
    hide Set, SetStray, Bag, PairOf;
    if e.expireAt > 0 {
      SetConserves(c, b, e);
    } else {
      StrayUnbalanced(c, b, e);
      OneMore(Bag(b), (e.key, e.value));
    }
  }

  lemma {:induction false} OneMore<T>(m: multiset<T>, x: T)
    ensures m + multiset{x} != m
  {
    assert (m + multiset{x})[x] == m[x] + 1;
  }

  lemma {:induction false} DeleteConserves(c: Config, b: Bucket, k: Key)
    requires Ok(c, b)
    ensures var r := Delete(b, k); Bag(b) == Bag(r.after) + multiset(r.reports)
  {
    hide Without, Pairs, Distinct, Lookup, Has;
    LookupMember(b.l1, k);
    LookupMember(b.l2, k);
    PairsWithout(b.l1, k);
    PairsWithout(b.l2, k);
  }

  // ---- Removing many keys: Clear and the cleanup pass ----

  function Without2(b: Bucket, ks: set<Key>): Bucket {
    Bucket(Removed(b.l1, ks), Removed(b.l2, ks))
  }

  function AllKeys(b: Bucket): set<Key> {
    Keys(b.l1) + Keys(b.l2)
  }

  function AllExpired(b: Bucket, now: int): set<Key> {
    ExpiredKeys(b.l1, now) + ExpiredKeys(b.l2, now)
  }

  /** The entries that have not expired. */
  function Fresh(s: seq<Entry>, now: int): seq<Entry> {
    if s == [] then []
    else if now >= s[0].expireAt then Fresh(s[1..], now)
    else [s[0]] + Fresh(s[1..], now)
  }

  lemma {:induction false} FreshMembers(s: seq<Entry>, now: int)
    ensures forall e :: e in Fresh(s, now) <==> e in s && now < e.expireAt
  {
    if s != [] {
      FreshMembers(s[1..], now);
      assert s == [s[0]] + s[1..];
    }
  }

  lemma {:induction false} RemovedNone(s: seq<Entry>)
    ensures Removed(s, {}) == s
  {
    if s != [] {
      RemovedNone(s[1..]);
    }
  }

  lemma {:induction false} RemovedMore(s: seq<Entry>, ks: set<Key>, k: Key)
    requires Distinct(s)
    ensures Without(Removed(s, ks), k) == Removed(s, ks + {k})
  {
    if s != [] {
      RemovedMore(s[1..], ks, k);
      if s[0].key !in ks && s[0].key == k {
        assert forall i :: 0 <= i < |s[1..]| ==> s[1..][i].key != k;
        RemovedSkip(s[1..], ks, k);
      }
    }
  }

  lemma {:induction false} RemovedSkip(s: seq<Entry>, ks: set<Key>, k: Key)
    requires forall i :: 0 <= i < |s| ==> s[i].key != k
    ensures Removed(s, ks + {k}) == Removed(s, ks)
  {
    if s != [] {
      assert forall i :: 0 <= i < |s[1..]| ==> s[1..][i] == s[i + 1];
      RemovedSkip(s[1..], ks, k);
    }
  }

  lemma {:induction false} DeleteRemoves(b: Bucket, ks: set<Key>, k: Key)
    requires Distinct(b.l1) && Distinct(b.l2)
    ensures Delete(Without2(b, ks), k).after == Without2(b, ks + {k})
  {
    RemovedMore(b.l1, ks, k);
    RemovedMore(b.l2, ks, k);
  }

  lemma {:induction false} RemovedAll(s: seq<Entry>, ks: set<Key>)
    requires Keys(s) <= ks
    ensures Removed(s, ks) == []
  {
    if s != [] {
      assert s[0].key in Keys(s);
      assert forall i :: 0 <= i < |s[1..]| ==> s[1..][i] == s[i + 1];
      assert Keys(s[1..]) <= Keys(s);
      RemovedAll(s[1..], ks);
    }
  }

  lemma {:induction false} RemovedExpired(s: seq<Entry>, ks: set<Key>, now: int)
    requires forall e :: e in s ==> (e.key in ks <==> now >= e.expireAt)
    ensures Removed(s, ks) == Fresh(s, now)
  {
    if s != [] {
      assert s[0] in s;
      assert forall e :: e in s[1..] ==> e in s;
      RemovedExpired(s[1..], ks, now);
    }
  }

  /** Clearing empties both levels, and the cleanup pass keeps exactly the unexpired entries. */
  lemma {:induction false} SweepMeans(c: Config, b: Bucket, now: int)
    requires Ok(c, b)
    ensures Without2(b, AllKeys(b)) == EMPTY
    ensures Without2(b, AllExpired(b, now)) == Bucket(Fresh(b.l1, now), Fresh(b.l2, now))
  {
    RemovedAll(b.l1, AllKeys(b));
    RemovedAll(b.l2, AllKeys(b));
    var ks := AllExpired(b, now);
    forall e | e in b.l1 ensures e.key in ks <==> now >= e.expireAt { ExpiredMember(b.l1, e, now); ExpiredOther(b.l2, e, now); }
    forall e | e in b.l2 ensures e.key in ks <==> now >= e.expireAt { ExpiredMember(b.l2, e, now); ExpiredOther(b.l1, e, now); }
    RemovedExpired(b.l1, ks, now);
    RemovedExpired(b.l2, ks, now);
  }

  lemma {:induction false} ExpiredMember(s: seq<Entry>, e: Entry, now: int)
    requires Distinct(s) && e in s
    ensures e.key in ExpiredKeys(s, now) <==> now >= e.expireAt
  {
  }

  lemma {:induction false} ExpiredOther(s: seq<Entry>, e: Entry, now: int)
    requires forall x :: x in s ==> x.key != e.key
    ensures e.key !in ExpiredKeys(s, now)
  {
  }
}
