/** What one level of the cache means to its callers: a list of entries, most recently used first.
    Slots, links and tombstones are implementation; none of them is visible here. */
module LruSpec {
  import opened Options

  type Key = string

  /** A cached value is known to the store only through its reported length. */
  datatype Value = Value(data: string, len: nat)

  datatype Entry = Entry(key: Key, value: Value, expireAt: int)

  /** The calls made to the eviction callback, in order. */
  type Reports = seq<(Key, Value)>

  function Size(e: Entry): nat {
    |e.key| + e.value.len
  }

  function Bytes(s: seq<Entry>): nat {
    if s == [] then 0 else Size(s[0]) + Bytes(s[1..])
  }

  predicate Has(s: seq<Entry>, k: Key) {
    exists i :: 0 <= i < |s| && s[i].key == k
  }

  ghost predicate Distinct(s: seq<Entry>) {
    forall i, j :: 0 <= i < j < |s| ==> s[i].key != s[j].key
  }

  function Without(s: seq<Entry>, k: Key): seq<Entry> {
    if s == [] then []
    else if s[0].key == k then s[1..]
    else [s[0]] + Without(s[1..], k)
  }

  function Lookup(s: seq<Entry>, k: Key): Option<Entry> {
    if s == [] then None
    else if s[0].key == k then Some(s[0])
    else Lookup(s[1..], k)
  }

  /** What is left of a level when a slot is needed for a key: its own entry goes, and the least recent
      one leaves only when all `cap` places hold other live keys. */
  function Displaced(s: seq<Entry>, cap: nat, k: Key): seq<Entry> {
    if Has(s, k) then Without(s, k)
    else if 0 < |s| == cap then s[..|s| - 1]
    else s
  }

  /** Storing an entry: it becomes the most recent one. */
  function Put(s: seq<Entry>, cap: nat, e: Entry): seq<Entry> {
    [e] + Displaced(s, cap, e.key)
  }

  function PutReports(s: seq<Entry>, cap: nat, e: Entry): Reports {
    if !Has(s, e.key) && 0 < |s| == cap then [(s[|s| - 1].key, s[|s| - 1].value)] else []
  }

  function Touch(s: seq<Entry>, k: Key): seq<Entry> {
    match Lookup(s, k)
    case Some(e) => [e] + Without(s, k)
    case None => s
  }

  lemma {:induction false} WithoutAt(s: seq<Entry>, k: Key, j: nat)
    requires j < |s| && s[j].key == k
    requires forall i :: 0 <= i < j ==> s[i].key != k
    ensures Without(s, k) == s[..j] + s[j + 1..]
    ensures Lookup(s, k) == Some(s[j])
  {
    if j > 0 {
      WithoutAt(s[1..], k, j - 1);
      assert s[..j] == [s[0]] + s[1..][..j - 1];
    }
  }

  lemma {:induction false} WithoutAbsent(s: seq<Entry>, k: Key)
    requires !Has(s, k)
    ensures Without(s, k) == s && Lookup(s, k) == None
  {
    if s != [] {
      assert s[0].key != k;
      assert forall i :: 0 <= i < |s[1..]| ==> s[1..][i] == s[i + 1];
      WithoutAbsent(s[1..], k);
    }
  }

  lemma {:induction false} BytesConcat(a: seq<Entry>, b: seq<Entry>)
    ensures Bytes(a + b) == Bytes(a) + Bytes(b)
  {
    if a == [] {
      assert a + b == b;
    } else {
      assert (a + b)[1..] == a[1..] + b;
      BytesConcat(a[1..], b);
    }
  }

  lemma {:induction false} BytesWithout(s: seq<Entry>, k: Key)
    ensures Bytes(Without(s, k)) ==
            match Lookup(s, k) case Some(e) => Bytes(s) - Size(e) case None => Bytes(s)
  {
    if s != [] && s[0].key != k {
      BytesWithout(s[1..], k);
      assert ([s[0]] + Without(s[1..], k))[1..] == Without(s[1..], k);
    }
  }

  lemma {:induction false} BytesLast(s: seq<Entry>)
    requires s != []
    ensures Bytes(s) == Bytes(s[..|s| - 1]) + Size(s[|s| - 1])
  {
    BytesConcat(s[..|s| - 1], [s[|s| - 1]]);
    assert s == s[..|s| - 1] + [s[|s| - 1]];
  }

  lemma {:induction false} BytesCons(e: Entry, s: seq<Entry>)
    ensures Bytes([e] + s) == Size(e) + Bytes(s)
  {
    assert ([e] + s)[1..] == s;
  }
}
