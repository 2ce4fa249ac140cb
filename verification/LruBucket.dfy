/** One bucket of the store: two levels behind one lock. Every method body is one locked section. */
module LruBucket {
  import opened Options
  import opened LruSpec
  import opened LruCache
  import Spec = LruBucketSpec

  class Bucket {
    const l1: Cache
    const l2: Cache
    const maxBucketBytes: int

    ghost function Repr(): set<object>
    {
      {l1, l1.doubleLink, l1.m, l2, l2.doubleLink, l2.m}
    }

    ghost predicate Separate()
    {
      l1 != l2 && l1.doubleLink != l2.doubleLink && l1.m != l2.m
    }

    ghost function Config(): Spec.Config
    {
      Spec.Config(l1.m.Length, l2.m.Length, maxBucketBytes)
    }

    ghost function State(): Spec.Bucket
      reads l1, l1.doubleLink, l1.m, l2, l2.doubleLink, l2.m
      requires l1.Valid() && l2.Valid()
    {
      Spec.Bucket(l1.Contents(), l2.Contents())
    }

    ghost predicate Valid()
      reads l1, l1.doubleLink, l1.m, l2, l2.doubleLink, l2.m
    {
      Separate() && l1.Valid() && l2.Valid() && Spec.Ok(Config(), State())
    }

    constructor (cap1: uint16, cap2: uint16, maxBytes: int)
      requires 0 < cap1 < 0xFFFF && 0 < cap2 < 0xFFFF
      ensures Valid() && fresh(Repr())
      ensures State() == Spec.EMPTY && Config() == Spec.Config(cap1, cap2, maxBytes)
    {
      hide Slotted, Keyed, Chained, Live;
      l1 := new Cache.Create(cap1);
      l2 := new Cache.Create(cap2);
      maxBucketBytes := maxBytes;
    }

    method Get(key: Key, now: int) returns (found: Option<Value>, reports: Reports)
      requires Valid()
      modifies Repr()
      ensures Valid()
      ensures Spec.Outcome(State(), found, reports) == Spec.Get(Config(), old(State()), key, now)
    {
      hide Slotted, Keyed, Chained, Live, Without, Has, Lookup, Spec.Ok;
      Spec.GetKeeps(Config(), State(), key, now);
      Spec.LookupMember(State().l1, key);
      var idx, status, expireAt := l1.Del(key);
      if status > 0 {
        var v := l1.m[idx - 1].v.value;
        l1.Release(idx);
        if now >= expireAt {
          l2.Drop(key);
          return None, [(key, v)];
        }
        var _, pushed := l2.Put(key, v, expireAt);
        return Some(v), pushed;
      }
      var idx2 := l2.Peek(key);
      if idx2 != 0 && l2.m[idx2 - 1].expireAt > 0 {
        var n2 := l2.m[idx2 - 1];
        if now >= n2.expireAt {
          var v := n2.v.value;
          l2.Drop(key);
          return None, [(key, v)];
        }
        l2.Touch(key, idx2);
        return n2.v, [];
      }
      return None, [];
    }

    /** The bucket between a write and the end of the eviction loop.  `skip` is 1 when the first slot of the
        first level holds an entry that is not live, and `extra` is what that entry weighs. */
    ghost predicate Writing(skip: nat, extra: nat)
      reads l1, l1.doubleLink, l1.m, l2, l2.doubleLink, l2.m
    {
      && Separate() && l1.Loose(skip) && l2.Valid() && skip <= 1
      && l1.bytes == Bytes(l1.Rest(skip)) + extra
      && (skip == 1 ==> l1.First().Some? && l1.First().value.expireAt <= 0)
    }

    ghost function StateBehind(skip: nat): Spec.Bucket
      reads l1, l1.doubleLink, l1.m, l2, l2.doubleLink, l2.m
      requires l1.Loose(skip) && l2.Valid()
    {
      Spec.Bucket(l1.Rest(skip), l2.Contents())
    }

    /** The write is what it should be exactly when the expiry time fits into 64 bits.  When it does not,
        the invariant of the first level is broken: the entry sits in its slot without being live, and
        weighs on the byte count. */
    method SetWithExpiration(key: Key, value: Value, expiration: int, now: int) returns (reports: Reports)
      requires Valid() && 0 < now <= Spec.MAX_INT64 && expiration <= Spec.MAX_INT64
      modifies Repr()
      ensures Valid() <==> expiration <= Spec.MAX_INT64 - now
      ensures var r := Spec.Write(Config(), old(State()), Entry(key, value, Spec.ExpiryOf(now, expiration)));
              && reports == r.reports
              && if expiration <= Spec.MAX_INT64 - now then State() == r.after
                 else
                   && Writing(1, |key| + value.len) && StateBehind(1) == r.after
                   && l1.First() == Some(Node(key, Some(value), Spec.ExpiryOf(now, expiration)))
    {
      hide Slotted, Slots, Keyed, Chained, Live, Behind, Without, Has, Lookup, Displaced, PutReports, Bytes, Spec.Ok, Spec.Int64,
           Spec.Squeeze;
      Spec.ExpiryPositive(now, expiration);
      var expireAt := if expiration > 0 then Spec.Int64(now + expiration) else Spec.MAX_INT64;
      ghost var e := Entry(key, value, expireAt);
      ghost var skip, extra: nat := if expireAt > 0 then 0 else 1, if expireAt > 0 then 0 else |key| + value.len;
      Spec.SetKeeps(Config(), State(), e);
      var _, first := l1.Put(key, value, expireAt);
      reports := first;
      l1.Tight();
      l2.Drop(key);
      ghost var stored := StateBehind(skip);
      var more := Shrink(skip, extra);
      reports := first + more;
      l1.Tight();
      if skip == 1 {
        l1.StrayInvalid();
      }
    }

    /** The eviction loop of a write. */
    method Shrink(ghost skip: nat, ghost extra: nat) returns (reports: Reports)
      requires Writing(skip, extra)
      modifies Repr()
      ensures Writing(skip, extra) && (skip == 1 ==> l1.First() == old(l1.First()))
      ensures if maxBucketBytes > 0 then (StateBehind(skip), reports) == Spec.Squeeze(old(StateBehind(skip)), maxBucketBytes - extra)
              else StateBehind(skip) == old(StateBehind(skip)) && reports == []
    {
      hide Slotted, Slots, Keyed, Chained, Live, Behind, Bytes, Spec.Squeeze, Spec.Evicted;
      reports := [];
      ghost var stored, max := StateBehind(skip), maxBucketBytes - extra;
      if maxBucketBytes > 0 {
        while l1.bytes + l2.bytes > maxBucketBytes
          invariant Writing(skip, extra)
          invariant skip == 1 ==> l1.First() == old(l1.First())
          invariant Spec.Squeeze(stored, max).0 == Spec.Squeeze(StateBehind(skip), max).0
          invariant Spec.Squeeze(stored, max).1 == reports + Spec.Squeeze(StateBehind(skip), max).1
          decreases |l1.Rest(skip)| + |l2.Contents()|
        {
          Spec.SqueezeTurn(StateBehind(skip), max);
          Spec.EvictedLess(StateBehind(skip));
          var ok, out := EvictFromBucket(skip, extra);
          if !ok {
            break;
          }
          reports := reports + out;
        }
        Spec.SqueezeTurn(StateBehind(skip), max);
        assert reports + [] == reports;
      }
    }

    method EvictFromBucket(ghost skip: nat, ghost extra: nat) returns (ok: bool, reports: Reports)
      requires Writing(skip, extra)
      modifies Repr()
      ensures Writing(skip, extra) && (skip == 1 ==> l1.First() == old(l1.First()))
      ensures var b := old(StateBehind(skip));
              if b.l1 == [] && b.l2 == [] then !ok && StateBehind(skip) == b && reports == []
              else ok && (StateBehind(skip), reports) == Spec.Evicted(b)
    {
      hide Slotted, Slots, Keyed, Chained, Live, Behind, Bytes;
      ok, reports := l1.EvictOldest(skip, extra);
      if ok {
        return;
      }
      l2.Tight();
      ok, reports := l2.EvictOldest(0, 0);
      l2.Tight();
    }

    method Delete(key: Key) returns (deleted: bool, reports: Reports)
      requires Valid()
      modifies Repr()
      ensures Valid()
      ensures var r := Spec.Delete(old(State()), key); State() == r.after && reports == r.reports
      ensures deleted <==> reports != []
    {
      hide Slotted, Keyed, Chained, Live, Without, Has, Lookup, Bytes, Spec.Ok;
      Spec.DeleteKeeps(Config(), State(), key);
      Spec.LookupMember(State().l1, key);
      Spec.LookupMember(State().l2, key);
      var idx1, s1, _ := l1.Del(key);
      var idx2, s2, _ := l2.Del(key);
      deleted, reports := s1 > 0 || s2 > 0, [];
      if deleted {
        if s1 > 0 && l1.m[idx1 - 1].v.Some? {
          reports := [(key, l1.m[idx1 - 1].v.value)];
        } else if s2 > 0 && l2.m[idx2 - 1].v.Some? {
          reports := [(key, l2.m[idx2 - 1].v.value)];
        }
      }
      if s1 > 0 {
        l1.Release(idx1);
      }
      if s2 > 0 {
        l2.Release(idx2);
      }
    }

    /** The delete loop shared by `Clear` and the cleanup pass; map iteration order is arbitrary. */
    method DeleteKeys(keys: set<Key>) returns (reports: Reports)
      requires Valid()
      modifies Repr()
      ensures Valid()
      ensures State() == Spec.Without2(old(State()), keys)
      ensures Spec.Bag(old(State())) == Spec.Bag(State()) + multiset(reports)
    {
      hide Slotted, Keyed, Chained, Live, Without, Has, Lookup, Bytes, Spec.Delete, Spec.Bag;
      reports := [];
      var todo := keys;
      ghost var b := State();
      assert keys - todo == {};
      Spec.RemovedNone(b.l1);
      Spec.RemovedNone(b.l2);
      while todo != {}
        invariant Valid() && todo <= keys
        invariant State() == Spec.Without2(b, keys - todo)
        invariant Spec.Bag(b) == Spec.Bag(State()) + multiset(reports)
        decreases todo
      {
        var key :| key in todo;
        Spec.DeleteConserves(Config(), State(), key);
        Spec.DeleteRemoves(b, keys - todo, key);
        assert keys - (todo - {key}) == keys - todo + {key};
        var _, out := Delete(key);
        assert multiset(reports + out) == multiset(reports) + multiset(out);
        reports := reports + out;
        todo := todo - {key};
      }
      assert keys - todo == keys;
    }

    method Clear() returns (reports: Reports)
      requires Valid()
      modifies Repr()
      ensures Valid()
      ensures State() == Spec.EMPTY
      ensures Spec.Bag(old(State())) == multiset(reports)
    {
      hide Slotted, Keyed, Chained, Live, Spec.Ok;
      Spec.SweepMeans(Config(), State(), 0);
      var walk1 := l1.Walk();
      var walk2 := l2.Walk();
      var keys := (set i | 0 <= i < |walk1| :: walk1[i].key) + (set i | 0 <= i < |walk2| :: walk2[i].key);
      reports := DeleteKeys(keys);
    }

    /** One bucket's turn of the cleanup loop. */
    method Cleanup(now: int) returns (reports: Reports)
      requires Valid()
      modifies Repr()
      ensures Valid()
      ensures var b := old(State()); State() == Spec.Bucket(Spec.Fresh(b.l1, now), Spec.Fresh(b.l2, now))
      ensures Spec.Bag(old(State())) == Spec.Bag(State()) + multiset(reports)
    {
      hide Slotted, Keyed, Chained, Live, Spec.Ok;
      Spec.SweepMeans(Config(), State(), now);
      var walk1 := l1.Walk();
      var walk2 := l2.Walk();
      var keys := (set i | 0 <= i < |walk1| && now >= walk1[i].expireAt :: walk1[i].key)
        + (set i | 0 <= i < |walk2| && now >= walk2[i].expireAt :: walk2[i].key);
      reports := DeleteKeys(keys);
    }
  }
}
