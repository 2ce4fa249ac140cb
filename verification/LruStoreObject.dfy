/** The store object: its buckets, and the choice of one of them for each key. Every method but `Clear`
    and `Cleanup` is one locked section. */
module LruStoreObject {
  import opened Options
  import opened LruSpec
  import opened LruCache
  import Spec = LruBucketSpec
  import B = LruBucket
  import S = LruStore

  // ---- Hashing ----

  /** What is left of a number in 32 bits, with a sign. */
  function Int32(n: int): int {
    (n + 0x8000_0000) % 0x1_0000_0000 - 0x8000_0000
  }

  function HashBKRD(s: string): int {
    if s == [] then 0 else Int32(HashBKRD(s[..|s| - 1]) * 131 + s[|s| - 1] as int)
  }

  method Hash(s: string) returns (hash: int)
    ensures hash == HashBKRD(s)
  {
    hash := 0;
    for i := 0 to |s|
      invariant hash == HashBKRD(s[..i])
    {
      assert s[..i + 1][..i] == s[..i];
      hash := Int32(hash * 131 + s[i] as int);
    }
    assert s[..|s|] == s;
  }

  /** The lowest bits of the hash, for a number of buckets that is a power of two. */
  function IndexOf(key: Key, count: nat): (i: nat)
    requires count > 0
    ensures i < count
  {
    HashBKRD(key) % count
  }

  /** The hash without any wrap-around. */
  function Polynomial(s: string): nat {
    if s == [] then 0 else Polynomial(s[..|s| - 1]) * 131 + s[|s| - 1] as int
  }

  /** Wrapping does not disturb the index: a number of buckets that divides 2^32 sees the plain
      polynomial. */
  lemma {:induction false} WrapIsHarmless(s: string, count: nat, rest: nat)
    requires count > 0 && count * rest == 0x1_0000_0000
    ensures HashBKRD(s) % count == Polynomial(s) % count
  {
    if s != [] {
      var h, p, c := HashBKRD(s[..|s| - 1]), Polynomial(s[..|s| - 1]), s[|s| - 1] as int;
      WrapIsHarmless(s[..|s| - 1], count, rest);
      Congruent(h, p, c, count);
      WrapCongruent(h * 131 + c, count, rest);
    }
  }

  /** So the bucket of a key is given by the plain polynomial: its remainder, for any number of buckets that divides 2^32. */
  lemma {:induction false} IndexIsRemainder(key: Key, count: nat, rest: nat)
    requires count > 0 && count * rest == 0x1_0000_0000
    ensures IndexOf(key, count) == Polynomial(key) % count
  {
    WrapIsHarmless(key, count, rest);
  }

  lemma {:induction false} Scale(d: int, n: nat)
    ensures d >= 1 ==> d * n >= n
    ensures d <= -1 ==> d * n + n <= 0
  {
    if d >= 1 {
      assert d * n == (d - 1) * n + n && (d - 1) * n >= 0;
    } else if d <= -1 {
      assert d * n + n == (d + 1) * n && (-d - 1) * n >= 0 && (d + 1) * n == -((-d - 1) * n);
    }
  }

  lemma {:induction false} Remainder(x: int, n: nat, k: int, r: int)
    requires 0 <= r < n && x == k * n + r
    ensures x % n == r
  {
    var q := x / n;
    assert x == q * n + x % n;
    assert (q - k) * n == q * n - k * n;
    Scale(q - k, n);
  }

  lemma {:induction false} Multiple(a: int, q: int, n: nat)
    requires n > 0
    ensures (a + q * n) % n == a % n
  {
    assert a + q * n == (a / n + q) * n + a % n by {
      assert (a / n + q) * n == (a / n) * n + q * n;
    }
    Remainder(a + q * n, n, a / n + q, a % n);
  }

  lemma {:induction false} Congruent(h: int, p: int, c: int, n: nat)
    requires n > 0 && h % n == p % n
    ensures (h * 131 + c) % n == (p * 131 + c) % n
  {
    var q := h / n - p / n;
    assert h == p + q * n;
    assert h * 131 + c == (p * 131 + c) + (131 * q) * n;
    Multiple(p * 131 + c, 131 * q, n);
  }

  lemma {:induction false} WrapCongruent(x: int, count: nat, rest: nat)
    requires count > 0 && count * rest == 0x1_0000_0000
    ensures Int32(x) % count == x % count
  {
    var q := (x + 0x8000_0000) / 0x1_0000_0000;
    assert Int32(x) == x - q * 0x1_0000_0000;
    assert q * (count * rest) == (q * rest) * count;
    Multiple(x, -(q * rest), count);
  }

  // ---- The object ----

  class Store {
    const config: Spec.Config
    const index: Key -> nat
    const buckets: seq<B.Bucket>
    ghost const Repr: set<object>

    ghost predicate Shaped() {
      && |buckets| > 0
      && (forall k :: index(k) < |buckets|)
      && (forall i :: 0 <= i < |buckets| ==> buckets[i].Repr() <= Repr && buckets[i].Config() == config)
      && (forall i, j :: 0 <= i < j < |buckets| ==> buckets[i].Repr() !! buckets[j].Repr())
    }

    ghost predicate Valid()
      reads Repr
    {
      Shaped() && forall i :: 0 <= i < |buckets| ==> buckets[i].Valid()
    }

    ghost function Value(): S.Store
      reads Repr
      requires Valid()
    {
      S.Store(config, index, seq(|buckets|, i reads Repr requires Valid() && 0 <= i < |buckets| => buckets[i].State()))
    }

    /** Zero options mean their defaults; the number of buckets is the next power of two, and the budget is
        shared among that many. */
    constructor (maxBytes: int, bucketCount: bv16, capPerBucket: uint16, level2Cap: uint16)
      requires bucketCount <= 0x8000 && capPerBucket < 0xFFFF && level2Cap < 0xFFFF
      ensures Valid() && fresh(Repr) && S.Initial(Value())
      ensures |buckets| == S.MaskOfNextPowOf2(if bucketCount == 0 then 16 else bucketCount) as int + 1
      ensures index == (k => IndexOf(k, |buckets|))
      ensures config == Spec.Config(if capPerBucket == 0 then 512 else capPerBucket, if level2Cap == 0 then 256 else level2Cap,
                                    S.BucketBudget(maxBytes, |buckets|))
    {
      hide B.Bucket.Valid, S.MaskOfNextPowOf2, HashBKRD;
      var mask := S.MaskOfNextPowOf2(if bucketCount == 0 then 16 else bucketCount);
      var count: nat := mask as int + 1;
      var maxBucketBytes := 0;
      if maxBytes > 0 {
        maxBucketBytes := maxBytes / count;
        if maxBucketBytes <= 0 {
          maxBucketBytes := 1;
        }
      }
      var cap1, cap2 := if capPerBucket == 0 then 512 else capPerBucket, if level2Cap == 0 then 256 else level2Cap;
      var bs, repr := MakeBuckets(count, cap1, cap2, maxBucketBytes);
      buckets, Repr := bs, repr;
      config := Spec.Config(cap1, cap2, maxBucketBytes);
      index := k => IndexOf(k, count);
    }

    static method MakeBuckets(count: nat, cap1: uint16, cap2: uint16, maxBytes: int) returns (bs: seq<B.Bucket>, ghost repr: set<object>)
      requires 0 < cap1 < 0xFFFF && 0 < cap2 < 0xFFFF
      ensures |bs| == count && fresh(repr)
      ensures forall i :: 0 <= i < |bs| ==> bs[i].Repr() <= repr && bs[i].Config() == Spec.Config(cap1, cap2, maxBytes)
      ensures forall i :: 0 <= i < |bs| ==> bs[i].Valid() && bs[i].State() == Spec.EMPTY
      ensures forall i, j :: 0 <= i < j < |bs| ==> bs[i].Repr() !! bs[j].Repr()
    {
      hide Slotted, Keyed, Chained, Live, Spec.Ok, Cache.Valid, Cache.Linked, Cache.Contents;
      bs, repr := [], {};
      for n := 0 to count
        invariant |bs| == n && fresh(repr)
        invariant forall i :: 0 <= i < n ==> bs[i].Repr() <= repr && bs[i].Config() == Spec.Config(cap1, cap2, maxBytes)
        invariant forall i :: 0 <= i < n ==> bs[i].Valid() && bs[i].State() == Spec.EMPTY
        invariant forall i, j :: 0 <= i < j < n ==> bs[i].Repr() !! bs[j].Repr()
      {
        var b := new B.Bucket(cap1, cap2, maxBytes);
        bs, repr := bs + [b], repr + b.Repr();
      }
    }

    method Get(key: Key, now: int) returns (found: Option<Value>, reports: Reports)
      requires Valid()
      modifies Repr
      ensures Valid() && S.Step(old(Value()), S.Event(S.Get(key, now), found, reports), Value())
    {
      hide Slotted, Keyed, Chained, Live, Spec.Ok, Spec.Get, Cache.Valid, Cache.Linked, Cache.Contents, B.Bucket.Separate;
      var i := index(key);
      found, reports := buckets[i].Get(key, now);
      assert forall j :: 0 <= j < |buckets| && j != i ==> buckets[j].Valid() && buckets[j].State() == old(buckets[j].State());
    }

    method SetWithExpiration(key: Key, value: Value, expiration: int, now: int) returns (reports: Reports)
      requires Valid() && 0 < now <= Spec.MAX_INT64 && expiration <= Spec.MAX_INT64
      modifies Repr
      ensures Shaped() && (Valid() <==> expiration <= Spec.MAX_INT64 - now)
      ensures var e := Entry(key, value, Spec.ExpiryOf(now, expiration));
              if expiration <= Spec.MAX_INT64 - now then S.Step(old(Value()), S.Event(S.Set(e), None, reports), Value())
              else
                var i := index(key);
                var r := Spec.Write(config, old(Value()).buckets[i], e);
                && reports == r.reports && buckets[i].Writing(1, Size(e)) && buckets[i].StateBehind(1) == r.after
                && forall j :: 0 <= j < |buckets| && j != i ==> buckets[j].Valid() && buckets[j].State() == old(Value()).buckets[j]
    {
      hide Slotted, Slots, Keyed, Chained, Live, Behind, Spec.Ok, Spec.Squeeze, Put, PutReports, Displaced, Without, Spec.Int64, Cache.Valid, Cache.Linked, Cache.Contents, B.Bucket.Separate;
      Spec.ExpiryPositive(now, expiration);
      var i := index(key);
      reports := buckets[i].SetWithExpiration(key, value, expiration, now);
      assert forall j :: 0 <= j < |buckets| && j != i ==> buckets[j].Valid() && buckets[j].State() == old(buckets[j].State());
    }

    method Delete(key: Key) returns (deleted: bool, reports: Reports)
      requires Valid()
      modifies Repr
      ensures Valid() && S.Step(old(Value()), S.Event(S.Delete(key), None, reports), Value())
      ensures deleted <==> reports != []
    {
      hide Slotted, Keyed, Chained, Live, Spec.Ok, Has, Lookup, Without, Cache.Valid, Cache.Linked, Cache.Contents, B.Bucket.Separate;
      var i := index(key);
      deleted, reports := buckets[i].Delete(key);
      assert forall j :: 0 <= j < |buckets| && j != i ==> buckets[j].Valid() && buckets[j].State() == old(buckets[j].State());
    }

    method ClearBucket(i: nat) returns (reports: Reports)
      requires Valid() && i < |buckets|
      modifies Repr
      ensures Valid() && S.Step(old(Value()), S.Event(S.ClearBucket(i), None, reports), Value())
    {
      hide Slotted, Keyed, Chained, Live, Spec.Ok, Spec.Bag, Cache.Valid, Cache.Linked, Cache.Contents, B.Bucket.Separate;
      reports := buckets[i].Clear();
      assert forall j :: 0 <= j < |buckets| && j != i ==> buckets[j].Valid() && buckets[j].State() == old(buckets[j].State());
    }

    method SweepBucket(i: nat, now: int) returns (reports: Reports)
      requires Valid() && i < |buckets|
      modifies Repr
      ensures Valid() && S.Step(old(Value()), S.Event(S.SweepBucket(i, now), None, reports), Value())
    {
      hide Slotted, Keyed, Chained, Live, Spec.Ok, Spec.Bag, Spec.Fresh, Cache.Valid, Cache.Linked, Cache.Contents, B.Bucket.Separate;
      reports := buckets[i].Cleanup(now);
      assert forall j :: 0 <= j < |buckets| && j != i ==> buckets[j].Valid() && buckets[j].State() == old(buckets[j].State());
    }

    /** When nothing comes between, the whole store is empty afterwards. */
    method Clear()
      requires Valid()
      modifies Repr
      ensures Valid() && forall i :: 0 <= i < |buckets| ==> Value().buckets[i] == Spec.EMPTY
    {
      hide B.Bucket.Valid, Spec.Bag;
      for i := 0 to |buckets|
        invariant Valid() && forall j :: 0 <= j < i ==> Value().buckets[j] == Spec.EMPTY
      {
        var _ := ClearBucket(i);
      }
    }
  }
}
