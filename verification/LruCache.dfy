/** One level of the cache: a doubly linked list threaded through an index array, with slot 0 as
    sentinel, beside a table of nodes and a map from keys to slots. */
module LruCache {
  import opened Options
  import opened LruSpec

  type uint16 = x: int | 0 <= x < 0x10000

  /** The two link directions: P leads towards the most recent slot, N towards the least recent. */
  const P: nat := 0
  const N: nat := 1

  /** A slot. It is live when `expireAt` is positive and a tombstone when it is 0. */
  datatype Node = Node(k: Key, v: Option<Value>, expireAt: int)

  function ToEntry(n: Node): Entry {
    Entry(n.k, if n.v.Some? then n.v.value else Value("", 0), n.expireAt)
  }

  /** `o` with its element at `j` taken out and put first. */
  function MoveFront<T>(o: seq<T>, j: nat): (r: seq<T>)
    requires j < |o|
    ensures |r| == |o|
    ensures forall i :: 0 <= i < |o| ==> r[i] == if i == 0 then o[j] else if i <= j then o[i - 1] else o[i]
  {
    seq(|o|, i requires 0 <= i < |o| => if i == 0 then o[j] else if i <= j then o[i - 1] else o[i])
  }

  /** `o` with its element at `j` taken out and put last. */
  function MoveBack<T>(o: seq<T>, j: nat): (r: seq<T>)
    requires j < |o|
    ensures |r| == |o|
    ensures forall i :: 0 <= i < |o| ==> r[i] == if i == |o| - 1 then o[j] else if i < j then o[i] else o[i + 1]
  {
    seq(|o|, i requires 0 <= i < |o| => if i == |o| - 1 then o[j] else if i < j then o[i] else o[i + 1])
  }

  function Reverse<T>(o: seq<T>): (r: seq<T>)
    ensures |r| == |o|
    ensures forall i :: 0 <= i < |o| ==> r[i] == o[|o| - 1 - i]
  {
    seq(|o|, i requires 0 <= i < |o| => o[|o| - 1 - i])
  }

  ghost predicate Injective<T>(o: seq<T>) {
    forall i, j :: 0 <= i < j < |o| ==> o[i] != o[j]
  }

  /** Following direction `t` from the sentinel visits exactly the slots of `o`, in order, and comes
      back to the sentinel; direction `f` is the inverse walk. */
  ghost predicate Chained(link: array2<uint16>, o: seq<uint16>, f: nat, t: nat)
    requires link.Length1 == 2 && f < 2 && t < 2
    reads link
  {
    && 0 < link.Length0
    && (forall i :: 0 <= i < |o| ==> 0 < o[i] < link.Length0)
    && Injective(o)
    && link[0, t] == (if o == [] then 0 else o[0])
    && link[0, f] == (if o == [] then 0 else o[|o| - 1])
    && (forall i {:trigger link[o[i], t]} :: 0 <= i < |o| ==> link[o[i], t] == if i + 1 < |o| then o[i + 1] else 0)
    && (forall i {:trigger link[o[i], f]} :: 0 <= i < |o| ==> link[o[i], f] == if i > 0 then o[i - 1] else 0)
  }

  lemma {:induction false} ChainedReverse(link: array2<uint16>, o: seq<uint16>, f: nat, t: nat)
    requires link.Length1 == 2 && f < 2 && t < 2
    requires Chained(link, o, f, t)
    ensures Chained(link, Reverse(o), t, f)
  {
  }

  lemma {:induction false} MoveFrontParts<T>(o: seq<T>, j: nat)
    requires j < |o|
    ensures MoveFront(o, j) == [o[j]] + o[..j] + o[j + 1..]
  {
  }

  /** Seen from the other end, moving to the back is moving to the front. */
  lemma {:induction false} MoveBackReversed<T>(o: seq<T>, j: nat)
    requires j < |o|
    ensures Reverse(MoveFront(Reverse(o), |o| - 1 - j)) == MoveBack(o, j)
  {
  }

  function EntryBytes(key: Key, val: Option<Value>): int {
    match val
    case None => |key|
    case Some(v) => |key| + v.len
  }

  function Entries(slots: seq<uint16>, nodes: seq<Node>): (r: seq<Entry>)
    requires forall i :: 0 <= i < |slots| ==> 0 < slots[i] <= |nodes|
    ensures |r| == |slots|
    ensures forall i :: 0 <= i < |slots| ==> r[i] == ToEntry(nodes[slots[i] - 1])
  {
    seq(|slots|, i requires 0 <= i < |slots| => ToEntry(nodes[slots[i] - 1]))
  }

  /** The link surgery of `adjust`: unhook slot `idx` and put it next to the sentinel on side `t`. */
  method Relink(link: array2<uint16>, idx: uint16, f: nat, t: nat, ghost o: seq<uint16>, ghost j: nat)
    requires link.Length1 == 2 && f < 2 && t == 1 - f
    requires Chained(link, o, f, t)
    requires j < |o| && o[j] == idx
    modifies link
    ensures Chained(link, MoveFront(o, j), f, t)
  {
    hide MoveFront, Chained;
    MoveFrontParts(o, j);
    assert 0 < idx < link.Length0 && (link[idx, f] != 0 <==> j > 0) && idx !in o[..j] + o[j + 1..] by { AtSlot(link, o, f, t, j); }
    if link[idx, f] != 0 {
      Unhook(link, idx, f, t, o, j);
      HookUp(link, idx, f, t, o[..j] + o[j + 1..]);
      assert [idx] + (o[..j] + o[j + 1..]) == [o[j]] + o[..j] + o[j + 1..];
    } else {
      assert [o[0]] + o[..0] + o[0 + 1..] == o;
    }
  }

  lemma {:induction false} AtSlot(link: array2<uint16>, o: seq<uint16>, f: nat, t: nat, j: nat)
    requires link.Length1 == 2 && f < 2 && t == 1 - f && j < |o| && Chained(link, o, f, t)
    ensures 0 < o[j] < link.Length0 && (link[o[j], f] != 0 <==> j > 0) && o[j] !in o[..j] + o[j + 1..]
  {
  }

  /** The neighbours of the slot are linked to each other. */
  method Unhook(link: array2<uint16>, idx: uint16, f: nat, t: nat, ghost o: seq<uint16>, ghost j: nat)
    requires link.Length1 == 2 && f < 2 && t == 1 - f
    requires Chained(link, o, f, t)
    requires 0 < j < |o| && o[j] == idx
    modifies link
    ensures Chained(link, o[..j] + o[j + 1..], f, t)
  {
    link[link[idx, t], f] := link[idx, f];
    link[link[idx, f], t] := link[idx, t];
  }

  /** The slot becomes the first on side `t`. */
  method HookUp(link: array2<uint16>, idx: uint16, f: nat, t: nat, ghost o: seq<uint16>)
    requires link.Length1 == 2 && f < 2 && t == 1 - f
    requires Chained(link, o, f, t) && 0 < idx < link.Length0 && idx !in o
    modifies link
    ensures Chained(link, [idx] + o, f, t)
  {
    link[idx, f] := 0;
    link[idx, t] := link[0, t];
    link[link[0, t], f] := idx;
    link[0, t] := idx;
  }

  // ---- The tables, as values ----

  /** Every slot 1..last occurs exactly once in `order`; the first `used` of `order` are live and the
      others are tombstones. */
  ghost predicate Slotted(order: seq<uint16>, used: nat, nodes: seq<Node>) {
    && used <= |order| <= |nodes|
    && Injective(order)
    && (forall i :: 0 <= i < |order| ==> 0 < order[i] <= |order|)
    && (forall i :: 0 <= i < used ==> nodes[order[i] - 1].expireAt > 0 && nodes[order[i] - 1].v.Some?)
    && (forall i :: used <= i < |order| ==> nodes[order[i] - 1].expireAt == 0)
  }

  /** The map is a bijection between keys and the slots 1..last. */
  ghost predicate Keyed(nodes: seq<Node>, table: map<Key, uint16>, last: nat) {
    && last <= |nodes|
    && (forall k :: k in table ==> 0 < table[k] <= last && nodes[table[k] - 1].k == k)
    && (forall i :: 0 <= i < last ==> nodes[i].k in table && table[nodes[i].k] == i + 1)
  }

  ghost function Live(order: seq<uint16>, used: nat, nodes: seq<Node>): (r: seq<Entry>)
    requires used <= |order| && forall i :: 0 <= i < |order| ==> 0 < order[i] <= |nodes|
    ensures |r| == used
  {
    Entries(order[..used], nodes)
  }

  /** Counting: a sequence of |order| different slots among 1..|order| misses none of them. */
  lemma {:induction false} Onto(order: seq<uint16>, s: uint16)
    requires Injective(order)
    requires forall i :: 0 <= i < |order| ==> 0 < order[i] <= |order|
    requires 0 < s <= |order|
    ensures s in order
  {
    if s !in order {
      var all := Range(|order|);
      Elements<int>(order);
      var got := set x: int | x in order;
      assert got <= all - {s};
      SubsetSize(got, all - {s});
      assert false;
    }
  }

  ghost function Range(n: nat): (r: set<int>)
    ensures |r| == n && forall x :: x in r <==> 0 < x <= n
  {
    if n == 0 then {} else Range(n - 1) + {n}
  }

  lemma {:induction false} Elements<T>(o: seq<T>)
    requires Injective(o)
    ensures |set x | x in o| == |o|
  {
    if o != [] {
      var p := o[..|o| - 1];
      Elements(p);
      assert (set x | x in o) == (set x | x in p) + {o[|o| - 1]};
    }
  }

  lemma {:induction false} SubsetSize<T>(a: set<T>, b: set<T>)
    requires a <= b
    ensures |a| <= |b|
  {
    if a != {} {
      var x :| x in a;
      SubsetSize(a - {x}, b - {x});
    }
  }

  /** Slots in use hold different keys. */
  lemma {:induction false} SameKey(nodes: seq<Node>, table: map<Key, uint16>, last: nat, x: uint16, y: uint16)
    requires Keyed(nodes, table, last) && 0 < x <= last && 0 < y <= last
    requires nodes[x - 1].k == nodes[y - 1].k
    ensures x == y
  {
  }

  lemma {:induction false} SlotOf(nodes: seq<Node>, table: map<Key, uint16>, last: nat, x: uint16)
    requires Keyed(nodes, table, last) && 0 < x <= last
    ensures x <= |nodes| && nodes[x - 1].k in table && table[nodes[x - 1].k] == x
  {
  }

  lemma {:induction false} LiveDistinct(order: seq<uint16>, used: nat, nodes: seq<Node>, table: map<Key, uint16>)
    requires Slotted(order, used, nodes) && Keyed(nodes, table, |order|)
    ensures Distinct(Live(order, used, nodes))
  {
    var s := Live(order, used, nodes);
    forall i, j | 0 <= i < j < |s| ensures s[i].key != s[j].key {
      if s[i].key == s[j].key {
        SameKey(nodes, table, |order|, order[i], order[j]);
      }
    }
  }

  lemma {:induction false} LiveAt(order: seq<uint16>, used: nat, nodes: seq<Node>, table: map<Key, uint16>, j: nat)
    requires Slotted(order, used, nodes) && Keyed(nodes, table, |order|) && j < |order|
    ensures var nd, s := nodes[order[j] - 1], Live(order, used, nodes);
            if j < used then
              && nd.expireAt > 0 && nd.v.Some? && Has(s, nd.k) && s[j] == ToEntry(nd)
              && Without(s, nd.k) == s[..j] + s[j + 1..] && Lookup(s, nd.k) == Some(s[j])
            else
              nd.expireAt == 0 && !Has(s, nd.k) && Without(s, nd.k) == s && Lookup(s, nd.k) == None
  {
    var s, k := Live(order, used, nodes), nodes[order[j] - 1].k;
    forall i | 0 <= i < |s| && s[i].key == k ensures i == j {
      SameKey(nodes, table, |order|, order[i], order[j]);
    }
    if j < used {
      assert s[j].key == k;
      WithoutAt(s, k, j);
    } else {
      WithoutAbsent(s, k);
    }
  }

  /** The nodes along an order. */
  function Along(o: seq<uint16>, nodes: seq<Node>): (r: seq<Node>)
    requires InRange(o, nodes)
    ensures |r| == |o| && forall i :: 0 <= i < |o| ==> r[i] == nodes[o[i] - 1]
  {
    seq(|o|, i requires 0 <= i < |o| => nodes[o[i] - 1])
  }

  predicate InRange(o: seq<uint16>, nodes: seq<Node>) {
    forall i :: 0 <= i < |o| ==> 0 < o[i] <= |nodes|
  }

  predicate LiveFirst(ns: seq<Node>, used: nat) {
    && used <= |ns|
    && (forall i :: 0 <= i < used ==> ns[i].expireAt > 0 && ns[i].v.Some?)
    && (forall i :: used <= i < |ns| ==> ns[i].expireAt == 0)
  }

  function EntriesOf(ns: seq<Node>): seq<Entry>
    requires forall i :: 0 <= i < |ns| ==> ns[i].v.Some?
  {
    seq(|ns|, i requires 0 <= i < |ns| => ToEntry(ns[i]))
  }

  lemma {:induction false} SlottedAlong(o: seq<uint16>, used: nat, nodes: seq<Node>)
    requires Sound(o, |nodes|)
    ensures InRange(o, nodes)
    ensures Slotted(o, used, nodes) <==> LiveFirst(Along(o, nodes), used)
    ensures Slotted(o, used, nodes) ==> Live(o, used, nodes) == EntriesOf(Along(o, nodes)[..used])
  {
    hide Injective;
  }

  lemma {:induction false} AlongSplit(x: seq<uint16>, y: seq<uint16>, nodes: seq<Node>)
    requires InRange(x, nodes) && InRange(y, nodes)
    ensures InRange(x + y, nodes) && Along(x + y, nodes) == Along(x, nodes) + Along(y, nodes)
  {
  }

  lemma {:induction false} AlongElsewhere(o: seq<uint16>, nodes: seq<Node>, slot: uint16, nd: Node)
    requires InRange(o, nodes) && 0 < slot <= |nodes| && slot !in o
    ensures Along(o, nodes[slot - 1 := nd]) == Along(o, nodes)
  {
  }

  /** Taking a slot out of the order leaves the other nodes as they are, whatever it is rewritten to. */
  lemma {:induction false} AlongOthers(o: seq<uint16>, nodes: seq<Node>, j: nat, nd: Node)
    requires Sound(o, |nodes|) && InRange(o, nodes) && j < |o|
    ensures var n, a := nodes[o[j] - 1 := nd], Along(o, nodes);
            && InRange(o[..j], n) && InRange(o[j + 1..], n)
            && Along(o[..j], n) == a[..j] && Along(o[j + 1..], n) == a[j + 1..]
            && Along([o[j]], n) == [nd]
  {
    assert o[j] !in o[..j] && o[j] !in o[j + 1..];
    hide Injective;
    AlongElsewhere(o[..j], nodes, o[j], nd);
    AlongElsewhere(o[j + 1..], nodes, o[j], nd);
  }

  /** The nodes when number `j` is rewritten to `nd` and moved to the front. */
  function ToFront(a: seq<Node>, j: nat, nd: Node): seq<Node>
    requires j < |a|
  {
    [nd] + a[..j] + a[j + 1..]
  }

  lemma {:induction false} AlongFront(o: seq<uint16>, nodes: seq<Node>, j: nat, nd: Node)
    requires Sound(o, |nodes|) && InRange(o, nodes) && j < |o|
    ensures var n, a := nodes[o[j] - 1 := nd], Along(o, nodes);
            InRange(MoveFront(o, j), n) && Along(MoveFront(o, j), n) == ToFront(a, j, nd)
  {
    var n := nodes[o[j] - 1 := nd];
    AlongOthers(o, nodes, j, nd);
    AlongSplit([o[j]], o[..j], n);
    AlongSplit([o[j]] + o[..j], o[j + 1..], n);
    MoveFrontParts(o, j);
  }

  /** The nodes when number `j` is rewritten to `nd` and moved to the back. */
  function ToBack(a: seq<Node>, j: nat, nd: Node): seq<Node>
    requires j < |a|
  {
    a[..j] + a[j + 1..] + [nd]
  }

  lemma {:induction false} AlongBack(o: seq<uint16>, nodes: seq<Node>, j: nat, nd: Node)
    requires Sound(o, |nodes|) && InRange(o, nodes) && j < |o|
    ensures var n, a := nodes[o[j] - 1 := nd], Along(o, nodes);
            InRange(MoveBack(o, j), n) && Along(MoveBack(o, j), n) == ToBack(a, j, nd)
  {
    var n := nodes[o[j] - 1 := nd];
    AlongOthers(o, nodes, j, nd);
    AlongSplit(o[..j], o[j + 1..], n);
    AlongSplit(o[..j] + o[j + 1..], [o[j]], n);
    MoveBackParts(o, j);
  }

  lemma {:induction false} MoveBackParts<T>(o: seq<T>, j: nat)
    requires j < |o|
    ensures MoveBack(o, j) == o[..j] + o[j + 1..] + [o[j]]
  {
  }

  lemma {:induction false} MovedSound(o: seq<uint16>, j: nat, size: nat)
    requires j < |o| && Sound(o, size)
    ensures Sound(MoveFront(o, j), size) && Sound(MoveBack(o, j), size)
  {
  }

  /** Different slots among the first |order| of `size`. */
  ghost predicate Sound(order: seq<uint16>, size: nat) {
    |order| <= size && Injective(order) && forall i :: 0 <= i < |order| ==> 0 < order[i] <= |order|
  }

  /** As `Slotted`, but for the first `skip` slots, whatever they hold. */
  ghost predicate Slots(order: seq<uint16>, skip: nat, used: nat, nodes: seq<Node>) {
    && Sound(order, |nodes|) && InRange(order, nodes) && skip + used <= |order|
    && LiveFirst(Along(order, nodes)[skip..], used)
  }

  ghost function Behind(order: seq<uint16>, skip: nat, used: nat, nodes: seq<Node>): (r: seq<Entry>)
    requires Slots(order, skip, used, nodes)
    ensures |r| == used
  {
    EntriesOf(Along(order, nodes)[skip..][..used])
  }

  lemma {:induction false} SlottedIsSlots(order: seq<uint16>, used: nat, nodes: seq<Node>)
    ensures Slotted(order, used, nodes) <==> Slots(order, 0, used, nodes)
    ensures Slotted(order, used, nodes) ==> Live(order, used, nodes) == Behind(order, 0, used, nodes)
  {
    if Sound(order, |nodes|) {
      SlottedAlong(order, used, nodes);
      assert Along(order, nodes)[0..] == Along(order, nodes);
      hide Sound, LiveFirst, Along, EntriesOf;
    }
  }

  lemma {:induction false} Apart<T>(s: seq<T>, i: nat, j: nat)
    requires Injective(s) && i < |s| && j < |s| && i != j
    ensures s[i] != s[j]
  {
  }

  /** A live slot in front of the others is the most recent entry. */
  lemma {:induction false} FrontJoins(order: seq<uint16>, used: nat, nodes: seq<Node>)
    requires Slots(order, 1, used, nodes) && nodes[order[0] - 1].expireAt > 0 && nodes[order[0] - 1].v.Some?
    ensures Slotted(order, used + 1, nodes)
    ensures Live(order, used + 1, nodes) == [ToEntry(nodes[order[0] - 1])] + Behind(order, 1, used, nodes)
  {
    var a := Along(order, nodes);
    assert a[..used + 1] == [a[0]] + a[1..][..used];
    SlottedAlong(order, used + 1, nodes);
    hide Sound;
  }

  /** A slot in front that is not live, and not a tombstone either, breaks the order. */
  lemma {:induction false} StrayBreaks(order: seq<uint16>, used: nat, nodes: seq<Node>, u: nat)
    requires Slots(order, 1, used, nodes)
    ensures 0 < order[0] <= |nodes|
    ensures nodes[order[0] - 1].expireAt < 0 ==> !Slotted(order, u, nodes)
  {
    hide Sound;
  }

  lemma {:induction false} FrontLive(a: seq<Node>, used: nat, j: nat, nd: Node)
    requires LiveFirst(a, used) && j < |a|
    ensures var b, u := ToFront(a, j, nd)[1..], if j < used then used - 1 else used;
            && LiveFirst(b, u)
            && var s := EntriesOf(a[..used]);
               EntriesOf(b[..u]) == if j < used then s[..j] + s[j + 1..] else s
  {
    assert forall i :: used <= i < j ==> a[i].expireAt == 0;
    assert ToFront(a, j, nd)[1..] == a[..j] + a[j + 1..];
  }

  lemma {:induction false} BackLive(a: seq<Node>, used: nat, j: nat, nd: Node)
    requires LiveFirst(a, used) && j < used && nd.expireAt == 0
    ensures var b := ToBack(a, j, nd);
            && LiveFirst(b, used - 1)
            && var s := EntriesOf(a[..used]); EntriesOf(b[..used - 1]) == s[..j] + s[j + 1..]
  {
  }

  /** Behind its first slot the order `o` holds what `order` held beside slot number `j`. */
  ghost predicate Revived(order: seq<uint16>, used: nat, nodes: seq<Node>, j: nat, o: seq<uint16>, n: seq<Node>)
    requires Slotted(order, used, nodes) && j < |order|
  {
    var u, s := if j < used then used - 1 else used, Live(order, used, nodes);
    && Slots(o, 1, u, n)
    && Behind(o, 1, u, n) == if j < used then s[..j] + s[j + 1..] else s
  }

  /** Rewriting slot number `j` of the order and moving it to the front, whatever it then holds. */
  lemma {:induction false} Revive(order: seq<uint16>, used: nat, nodes: seq<Node>, j: nat, nd: Node)
    requires Slotted(order, used, nodes) && j < |order|
    ensures 0 < order[j] <= |nodes|
    ensures Revived(order, used, nodes, j, MoveFront(order, j), nodes[order[j] - 1 := nd])
  {
    SlottedAlong(order, used, nodes);
    MovedSound(order, j, |nodes|);
    AlongFront(order, nodes, j, nd);
    hide Sound, LiveFirst, EntriesOf, ToFront, Slotted, Live;
    var n, a := nodes[order[j] - 1 := nd], Along(order, nodes);
    FrontLive(a, used, j, nd);
    SlotsFrom(MoveFront(order, j), 1, if j < used then used - 1 else used, n, ToFront(a, j, nd)[1..]);
  }

  lemma {:induction false} Bury(order: seq<uint16>, skip: nat, used: nat, nodes: seq<Node>, j: nat, nd: Node)
    requires Slots(order, skip, used, nodes)
    requires j < used && nd.expireAt == 0
    ensures skip + j < |order| && 0 < order[skip + j] <= |nodes|
    ensures var o, n, s := MoveBack(order, skip + j), nodes[order[skip + j] - 1 := nd], Behind(order, skip, used, nodes);
            && Slots(o, skip, used - 1, n)
            && Behind(o, skip, used - 1, n) == s[..j] + s[j + 1..]
  {
    hide Sound, LiveFirst, EntriesOf, ToBack;
    MovedSound(order, skip + j, |nodes|);
    AlongBack(order, nodes, skip + j, nd);
    var n, a := nodes[order[skip + j] - 1 := nd], Along(order, nodes);
    BackLive(a[skip..], used, j, nd);
    BackSkips(a, skip, j, nd);
    SlotsFrom(MoveBack(order, skip + j), skip, used - 1, n, ToBack(a[skip..], j, nd));
  }

  lemma {:induction false} SlotsFrom(o: seq<uint16>, skip: nat, used: nat, nodes: seq<Node>, behind: seq<Node>)
    requires skip <= |o| && Sound(o, |nodes|) && InRange(o, nodes) && Along(o, nodes)[skip..] == behind && LiveFirst(behind, used)
    ensures Slots(o, skip, used, nodes) && Behind(o, skip, used, nodes) == EntriesOf(behind[..used])
  {
    hide Sound;
  }

  lemma {:induction false} BackSkips(a: seq<Node>, skip: nat, j: nat, nd: Node)
    requires skip + j < |a|
    ensures ToBack(a, skip + j, nd)[skip..] == ToBack(a[skip..], j, nd)
  {
  }

  lemma {:induction false} Absent(order: seq<uint16>, used: nat, nodes: seq<Node>, table: map<Key, uint16>, k: Key)
    requires Slotted(order, used, nodes) && Keyed(nodes, table, |order|)
    requires k !in table
    ensures !Has(Live(order, used, nodes), k)
  {
  }

  lemma {:induction false} KeyedSame(nodes: seq<Node>, table: map<Key, uint16>, last: nat, x: uint16, nd: Node)
    requires Keyed(nodes, table, last) && 0 < x <= last && nd.k == nodes[x - 1].k
    ensures Keyed(nodes[x - 1 := nd], table, last)
  {
  }

  lemma {:induction false} KeyedRecycle(nodes: seq<Node>, table: map<Key, uint16>, last: nat, x: uint16, nd: Node)
    requires Keyed(nodes, table, last) && 0 < x <= last && nd.k !in table
    ensures Keyed(nodes[x - 1 := nd], (table - {nodes[x - 1].k})[nd.k := x], last)
  {
  }

  lemma {:induction false} KeyedFresh(nodes: seq<Node>, table: map<Key, uint16>, x: uint16, nd: Node)
    requires 0 < x <= |nodes| && Keyed(nodes, table, x - 1) && nd.k !in table
    ensures Keyed(nodes[x - 1 := nd], table[nd.k := x], x)
  {
  }

  lemma {:induction false} FreshSlots(order: seq<uint16>, used: nat, nodes: seq<Node>, nd: Node)
    requires Slotted(order, used, nodes) && |order| + 1 <= |nodes| && |order| < 0xFFFF
    ensures used <= |order| && forall i :: 0 <= i < |order| ==> order[i] <= |order|
    ensures Slots([|order| + 1] + order, 1, used, nodes[|order| := nd])
    ensures Behind([|order| + 1] + order, 1, used, nodes[|order| := nd]) == Live(order, used, nodes)
  {
    SlottedAlong(order, used, nodes);
    FreshSound(order, nodes);
    var n, a := nodes[|order| := nd], Along(order, nodes);
    AlongElsewhere(order, nodes, |order| + 1, nd);
    AlongSplit([|order| + 1], order, n);
    hide Sound, LiveFirst, EntriesOf;
    SlotsFrom([|order| + 1] + order, 1, used, n, a);
  }

  lemma {:induction false} FreshSound(order: seq<uint16>, nodes: seq<Node>)
    requires Sound(order, |nodes|) && |order| + 1 <= |nodes| && |order| < 0xFFFF
    ensures |order| + 1 !in order
    ensures Sound([|order| + 1] + order, |nodes|)
  {
  }

  lemma {:induction false} PartitionBehind(order: seq<uint16>, skip: nat, used: nat, nodes: seq<Node>, j: nat)
    requires Slots(order, skip, used, nodes) && skip <= j < |order|
    ensures 0 < order[j] <= |order|
    ensures var nd := nodes[order[j] - 1];
            if j < skip + used then nd.expireAt > 0 && nd.v.Some? && Behind(order, skip, used, nodes)[j - skip] == ToEntry(nd)
            else nd.expireAt == 0
  {
    hide Injective;
    assert Along(order, nodes)[skip..][j - skip] == nodes[order[j] - 1];
  }

  lemma {:induction false} Partition(order: seq<uint16>, used: nat, nodes: seq<Node>, j: nat)
    requires Slotted(order, used, nodes) && j < |order|
    ensures 0 < order[j] <= |order| && used <= |order|
    ensures var nd := nodes[order[j] - 1];
            if j < used then nd.expireAt > 0 && nd.v.Some? && Live(order, used, nodes)[j] == ToEntry(nd)
            else nd.expireAt == 0
  {
  }

  lemma {:induction false} ReleaseSlot(order: seq<uint16>, used: nat, nodes: seq<Node>, x: uint16)
    requires Slotted(order, used, nodes) && 0 < x <= |order| && nodes[x - 1].expireAt == 0
    ensures var n := nodes[x - 1 := nodes[x - 1].(v := None)];
            Slotted(order, used, n) && Live(order, used, n) == Live(order, used, nodes)
  {
  }

  lemma {:induction false} BoundsBehind(order: seq<uint16>, skip: nat, used: nat, nodes: seq<Node>)
    requires Slots(order, skip, used, nodes)
    ensures skip + used <= |order| <= |nodes| && Injective(order)
    ensures forall i :: 0 <= i < |order| ==> 0 < order[i] <= |order|
    ensures |Behind(order, skip, used, nodes)| == used
  {
    hide Injective;
  }

  lemma {:induction false} Bounds(order: seq<uint16>, used: nat, nodes: seq<Node>)
    requires Slotted(order, used, nodes)
    ensures used <= |order| && forall i :: 0 <= i < |order| ==> 0 < order[i] <= |order|
  {
  }

  lemma {:induction false} TableEmpty(nodes: seq<Node>, table: map<Key, uint16>, last: nat)
    requires Keyed(nodes, table, last)
    ensures |table| == 0 <==> last == 0
  {
    if last > 0 {
      assert nodes[0].k in table;
    }
    if |table| > 0 {
      var k :| k in table;
    }
  }

  class Cache {
    const doubleLink: array2<uint16>
    const m: array<Node>
    var hashMap: map<Key, uint16>
    var bytes: int
    var nevict: int
    var last: uint16

    // The slots in use from most to least recent; the first `used` of them are live.
    ghost var order: seq<uint16>
    ghost var used: nat

    ghost predicate Linked()
      reads this, doubleLink
    {
      && doubleLink.Length1 == 2
      && doubleLink.Length0 == m.Length + 1
      && 0 < m.Length < 0xFFFF
      && |order| == last <= m.Length
      && Chained(doubleLink, order, P, N)
    }

    ghost predicate Valid()
      reads this, doubleLink, m
    {
      && Linked()
      && Slotted(order, used, m[..])
      && Keyed(m[..], hashMap, last)
      && bytes == Bytes(Contents())
    }

    ghost function Contents(): seq<Entry>
      requires Slotted(order, used, m[..])
      reads this, doubleLink, m
    {
      Live(order, used, m[..])
    }

    constructor Create(cap: uint16)
      requires 0 < cap < 0xFFFF
      ensures Valid()
      ensures Contents() == [] && nevict == 0 && m.Length == cap
      ensures fresh(doubleLink) && fresh(m)
    {
      doubleLink := new uint16[cap + 1, 2]((i, j) => 0);
      m := new Node[cap](i => Node("", None, 0));
      hashMap := map[];
      bytes, nevict, last := 0, 0, 0;
      order, used := [], 0;
    }

    method Adjust(idx: uint16, f: nat, t: nat, ghost j: nat)
      requires Linked()
      requires f < 2 && t == 1 - f
      requires j < |order| && order[j] == idx
      modifies doubleLink, this`order
      ensures Linked()
      ensures order == if t == N then MoveFront(old(order), j) else MoveBack(old(order), j)
    {
      hide Chained, MoveFront, MoveBack, Reverse;
      if t == N {
        Relink(doubleLink, idx, f, t, order, j);
        order := MoveFront(order, j);
      } else {
        ChainedReverse(doubleLink, order, P, N);
        Relink(doubleLink, idx, f, t, Reverse(order), |order| - 1 - j);
        ChainedReverse(doubleLink, MoveFront(Reverse(order), |order| - 1 - j), N, P);
        MoveBackReversed(order, j);
        order := MoveBack(order, j);
      }
    }

    /** Where a known key stands in `order`. */
    lemma {:induction false} Locate(key: Key) returns (j: nat)
      requires Valid()
      ensures key in hashMap ==>
        && 0 < hashMap[key] <= last == |order| && j < |order| && order[j] == hashMap[key]
        && m[hashMap[key] - 1].k == key
      ensures var s := Contents();
              if key in hashMap && j < used then
                var nd := m[hashMap[key] - 1];
                && nd.expireAt > 0 && nd.v.Some? && Has(s, key) && s[j] == ToEntry(nd)
                && Without(s, key) == s[..j] + s[j + 1..] && Lookup(s, key) == Some(s[j])
              else
                && (key in hashMap ==> m[hashMap[key] - 1].expireAt == 0)
                && !Has(s, key) && Without(s, key) == s && Lookup(s, key) == None
    {
      hide Chained, Live, Has, Without, Lookup, Bytes;
      if key in hashMap {
        Onto(order, hashMap[key]);
        j :| 0 <= j < |order| && order[j] == hashMap[key];
        LiveAt(order, used, m[..], hashMap, j);
      } else {
        j := 0;
        Absent(order, used, m[..], hashMap, key);
        WithoutAbsent(Contents(), key);
      }
    }

    /** The tables are sound, whatever the first `skip` slots hold. */
    ghost predicate Loose(skip: nat)
      reads this, doubleLink, m
    {
      Linked() && Slots(order, skip, used, m[..]) && Keyed(m[..], hashMap, last)
    }

    /** The live entries behind the first `skip` slots. */
    ghost function Rest(skip: nat): seq<Entry>
      requires Slots(order, skip, used, m[..])
      reads this, doubleLink, m
    {
      Behind(order, skip, used, m[..])
    }

    lemma {:induction false} Tight()
      ensures Valid() <==> Loose(0) && bytes == Bytes(Rest(0))
      ensures Valid() ==> Contents() == Rest(0)
    {
      hide Slotted, Slots, Keyed, Live, Behind, Chained, Bytes;
      SlottedIsSlots(order, used, m[..]);
    }

    /** Rewrites the node of a slot in use and makes the slot the most recent one. */
    method Promote(idx: uint16, nd: Node, ghost j: nat)
      requires Linked() && Slotted(order, used, m[..])
      requires j < |order| && order[j] == idx
      modifies doubleLink, m, this`order, this`used
      ensures Linked() && Slots(order, 1, used, m[..])
      ensures order != [] && order[0] == idx && m[..] == old(m[..])[idx - 1 := nd]
      ensures var s := old(Contents()); Rest(1) == if j < old(used) then s[..j] + s[j + 1..] else s
    {
      hide Slotted, Slots, Live, Behind, Chained;
      Revive(order, used, m[..], j, nd);
      ghost var nodes, o, u := m[..][idx - 1 := nd], MoveFront(order, j), if j < used then used - 1 else used;
      m[idx - 1] := nd;
      Adjust(idx, P, N, j);
      used := u;
      assert m[..] == nodes;
      assert order == o;
    }

    /** Turns a live slot into a tombstone and makes it the least recent one. */
    method Retire(idx: uint16, nd: Node, ghost skip: nat, ghost j: nat)
      requires Linked() && Slots(order, skip, used, m[..]) && skip + used <= |order|
      requires j < used && order[skip + j] == idx && nd.expireAt == 0
      modifies doubleLink, m, this`order, this`used
      ensures Linked() && Slots(order, skip, used, m[..])
      ensures m[..] == old(m[..])[idx - 1 := nd]
      ensures var s := old(Rest(skip)); Rest(skip) == s[..j] + s[j + 1..]
      ensures forall i :: 0 <= i < skip ==> i < |order| && order[i] == old(order[i])
    {
      hide Slots, Behind, Chained;
      Bury(order, skip, used, m[..], j, nd);
      ghost var nodes, o := m[..][idx - 1 := nd], MoveBack(order, skip + j);
      m[idx - 1] := nd;
      Adjust(idx, N, P, skip + j);
      used := used - 1;
      assert m[..] == nodes;
      assert order == o;
    }

    /** Finds the slot of a key, with what the key is stored under if the slot is live, or 0 for a key
        without a slot. */
    method Peek(key: Key) returns (idx: uint16)
      requires Valid()
      ensures idx <= last <= m.Length
      ensures idx == 0 ==> Lookup(Contents(), key) == None && forall i :: 0 <= i < last ==> m[i].k != key
      ensures idx > 0 ==>
                && m[idx - 1].k == key
                && (m[idx - 1].expireAt > 0 ==> m[idx - 1].v.Some?)
                && Lookup(Contents(), key) == if m[idx - 1].expireAt > 0 then Some(ToEntry(m[idx - 1])) else None
    {
      hide Slotted, Live, Chained, Without, Lookup, Has, Bytes;
      ghost var j := Locate(key);
      idx := if key in hashMap then hashMap[key] else 0;
    }

    method Del(key: Key) returns (idx: uint16, status: int, expireAt: int)
      requires Valid()
      modifies this, doubleLink, m
      ensures Valid()
      ensures Contents() == Without(old(Contents()), key)
      ensures nevict == old(nevict) && last == old(last)
      ensures status > 0 <==> Has(old(Contents()), key)
      ensures status > 0 ==>
        && expireAt > 0
        && 0 < idx <= last && m[idx - 1].expireAt == 0 && m[idx - 1].v.Some?
        && Lookup(old(Contents()), key) == Some(Entry(key, m[idx - 1].v.value, expireAt))
      ensures status <= 0 ==> unchanged(this) && unchanged(doubleLink) && unchanged(m)
    {
      hide Slotted, Keyed, Live, Chained, Without, Lookup, Has, Bytes;
      ghost var j := Locate(key);
      if key in hashMap && m[hashMap[key] - 1].expireAt > 0 {
        idx := hashMap[key];
        KeyedSame(m[..], hashMap, last, idx, m[idx - 1].(expireAt := 0));
        BytesWithout(Contents(), key);
        expireAt := m[idx - 1].expireAt;
        bytes := bytes - EntryBytes(m[idx - 1].k, m[idx - 1].v);
        SlottedIsSlots(order, used, m[..]);
        Retire(idx, m[idx - 1].(expireAt := 0), 0, j);
        SlottedIsSlots(order, used, m[..]);
        return idx, 1, expireAt;
      }
      return 0, 0, 0;
    }

    /** An entry whose expiry time is not positive takes its slot and its bytes, but is not live: the level
        is then no longer as it should be. */
    method Put(key: Key, val: Value, expireAt: int) returns (r: int, reports: Reports)
      requires Valid()
      modifies this, doubleLink, m
      ensures expireAt > 0 ==> Valid() && Contents() == LruSpec.Put(old(Contents()), m.Length, Entry(key, val, expireAt))
      ensures expireAt <= 0 ==> Loose(1) && Rest(1) == Displaced(old(Contents()), m.Length, key) && Stray(key, val, expireAt)
      ensures expireAt < 0 ==> !Valid()
      ensures reports == PutReports(old(Contents()), m.Length, Entry(key, val, expireAt))
      ensures nevict == old(nevict) + |reports|
      ensures r == if key in old(hashMap) then 0 else 1
    {
      hide Slotted, Slots, Keyed, Live, Behind, Chained, Without, Lookup, Has, MoveFront, Bytes;
      ghost var s := Contents();
      ghost var j := Locate(key);
      reports := [];
      r := 1;
      if key in hashMap {
        var idx := hashMap[key];
        var nd := m[idx - 1];
        KeyedSame(m[..], hashMap, last, idx, nd.(v := Some(val), expireAt := expireAt));
        BytesWithout(s, key);
        if nd.expireAt > 0 {
          bytes := bytes + EntryBytes(key, Some(val)) - EntryBytes(nd.k, nd.v);
        } else {
          bytes := bytes + EntryBytes(key, Some(val));
        }
        Promote(idx, nd.(v := Some(val), expireAt := expireAt), j);
        r := 0;
      } else if last == m.Length {
        reports := Recycle(key, val, expireAt);
      } else {
        Extend(key, val, expireAt);
      }
      StrayBreaks(order, used, m[..], used);
      if expireAt > 0 {
        FrontJoins(order, used, m[..]);
        BytesCons(Entry(key, val, expireAt), Rest(1));
        used := used + 1;
      }
    }

    /** The first slot holds this entry, and its bytes are counted beside those of the live entries. */
    ghost predicate Stray(key: Key, val: Value, expireAt: int)
      requires Loose(1)
      reads this, doubleLink, m
    {
      First() == Some(Node(key, Some(val), expireAt)) && bytes == Bytes(Rest(1)) + |key| + val.len
    }

    /** The node of the first slot. */
    ghost function First(): Option<Node>
      reads this, m
    {
      if 0 < |order| && 0 < order[0] <= m.Length then Some(m[order[0] - 1]) else None
    }

    lemma {:induction false} StrayInvalid()
      requires Loose(1) && First().Some? && First().value.expireAt < 0
      ensures !Valid()
    {
      hide Slotted, Slots, Keyed, Live, Behind, Chained, Bytes;
      StrayBreaks(order, used, m[..], used);
    }

    /** `put` of a new key when every slot is in use: the least recent slot is rewritten. */
    method Recycle(key: Key, val: Value, expireAt: int) returns (reports: Reports)
      requires Valid() && key !in hashMap && !Has(Contents(), key) && last == m.Length
      modifies this, doubleLink, m
      ensures Loose(1) && Stray(key, val, expireAt)
      ensures Rest(1) == Displaced(old(Contents()), m.Length, key)
      ensures reports == PutReports(old(Contents()), m.Length, Entry(key, val, expireAt))
      ensures nevict == old(nevict) + |reports|
    {
      hide Slotted, Slots, Keyed, Live, Behind, Without, Lookup, Has, MoveFront, Bytes;
      ghost var s, j := Contents(), |order| - 1;
      reports := [];
      var slot := doubleLink[0, P];
      Partition(order, used, m[..], j);
      var tail := m[slot - 1];
      if tail.expireAt > 0 {
        BytesLast(s);
        bytes := bytes - EntryBytes(tail.k, tail.v);
        nevict := nevict + 1;
        reports := [(tail.k, tail.v.value)];
      }
      KeyedRecycle(m[..], hashMap, last, slot, Node(key, Some(val), expireAt));
      hashMap := (hashMap - {tail.k})[key := slot];
      bytes := bytes + EntryBytes(key, Some(val));
      Promote(slot, Node(key, Some(val), expireAt), j);
      assert Rest(1) == if tail.expireAt > 0 then s[..|s| - 1] else s;
    }

    /** `put` of a new key while unused slots remain: the next one is linked in at the recent end. */
    method Extend(key: Key, val: Value, expireAt: int)
      requires Valid() && key !in hashMap && !Has(Contents(), key) && last < m.Length
      modifies this, doubleLink, m
      ensures Loose(1) && Stray(key, val, expireAt)
      ensures Rest(1) == old(Contents())
      ensures |old(Contents())| < m.Length && nevict == old(nevict)
    {
      hide Slotted, Slots, Keyed, Live, Behind, Has, Bytes;
      FreshSlots(order, used, m[..], Node(key, Some(val), expireAt));
      KeyedFresh(m[..], hashMap, last + 1, Node(key, Some(val), expireAt));
      TableEmpty(m[..], hashMap, last);
      ghost var nodes := m[..][last := Node(key, Some(val), expireAt)];
      Hook(|hashMap| <= 0);
      m[last - 1] := Node(key, Some(val), expireAt);
      assert m[..] == nodes;
      hashMap := hashMap[key := last];
      bytes := bytes + EntryBytes(key, Some(val));
    }

    /** Takes the next unused slot and links it in at the recent end. */
    method Hook(first: bool)
      requires Linked() && last < m.Length
      requires first <==> last == 0
      requires forall i :: 0 <= i < |order| ==> order[i] <= last
      modifies doubleLink, this`last, this`order
      ensures Linked()
      ensures last == old(last) + 1 && order == [last] + old(order)
    {
      ghost var o := order;
      last := last + 1;
      if first {
        doubleLink[0, P] := last;
      } else {
        doubleLink[doubleLink[0, N], P] := last;
      }
      doubleLink[last, P], doubleLink[last, N] := 0, doubleLink[0, N];
      doubleLink[0, N] := last;
      order := [last] + order;
    }

    /** Lets go of the value of a tombstone, through the node that `Del` returned. */
    method Release(idx: uint16)
      requires Valid() && 0 < idx <= last && m[idx - 1].expireAt == 0
      modifies m
      ensures Valid() && Contents() == old(Contents())
      ensures m[idx - 1].v == None
    {
      hide Slotted, Keyed, Live, Chained;
      ReleaseSlot(order, used, m[..], idx);
      KeyedSame(m[..], hashMap, last, idx, m[idx - 1].(v := None));
      ghost var nodes := m[..][idx - 1 := m[idx - 1].(v := None)];
      m[idx - 1] := m[idx - 1].(v := None);
      assert m[..] == nodes;
    }

    /** Removes a key and lets go of its value. */
    method Drop(key: Key)
      requires Valid()
      modifies this, doubleLink, m
      ensures Valid()
      ensures Contents() == Without(old(Contents()), key)
      ensures nevict == old(nevict)
    {
      hide Slotted, Keyed, Live, Chained;
      var idx, status, _ := Del(key);
      if status > 0 {
        Release(idx);
      }
    }

    /** Makes a live slot that `Peek` found the most recent one; `adjust(idx, p, n)` as `Get` calls it. */
    method Touch(key: Key, idx: uint16)
      requires Valid() && 0 < idx <= last && m[idx - 1].k == key && m[idx - 1].expireAt > 0
      modifies this, doubleLink
      ensures Valid()
      ensures Lookup(old(Contents()), key).Some?
      ensures Contents() == LruSpec.Touch(old(Contents()), key)
      ensures nevict == old(nevict) && unchanged(m)
    {
      hide Slotted, Slots, Keyed, Live, Behind, Chained, Without, Lookup, Has, Bytes;
      ghost var s := Contents();
      ghost var j := Locate(key);
      assert key in hashMap && hashMap[key] == idx by { SlotOf(m[..], hashMap, last, idx); }
      Revive(order, used, m[..], j, m[idx - 1]);
      assert m[..] == m[..][idx - 1 := m[idx - 1]];
      BytesWithout(s, key);
      BytesCons(s[j], Without(s, key));
      Adjust(idx, P, N, j);
      used := used - 1;
      FrontJoins(order, used, m[..]);
      used := used + 1;
      assert Contents() == [s[j]] + Without(s, key);
    }

    /** Removes the least recently used live entry, looking past tombstones from the old end.  It works just
        the same behind a slot that is not as it should be, and leaves that slot where it is. */
    method EvictOldest(ghost skip: nat, ghost extra: int) returns (ok: bool, reports: Reports)
      requires Loose(skip) && bytes == Bytes(Rest(skip)) + extra
      requires skip <= 1 && (skip == 1 ==> First().Some? && First().value.expireAt <= 0)
      modifies this, doubleLink, m
      ensures Loose(skip) && bytes == Bytes(Rest(skip)) + extra
      ensures var s := old(Rest(skip));
              if s == [] then !ok && reports == [] && Rest(skip) == []
              else ok && Rest(skip) == s[..|s| - 1] && reports == [(s[|s| - 1].key, s[|s| - 1].value)]
      ensures nevict == old(nevict) + |reports|
      ensures skip == 1 ==> First() == old(First())
    {
      hide Slots, Keyed, Behind, Bytes, Injective;
      ghost var s, o := Rest(skip), order;
      ghost var pos := |order|;
      var idx := doubleLink[0, P];
      BoundsBehind(order, skip, used, m[..]);
      forall i, j | 0 <= i < skip <= j < |order| ensures order[i] != order[j] {
        Apart(order, i, j);
      }
      while idx != 0
        invariant Loose(skip) && Rest(skip) == s && order == o && m[..] == old(m[..])
        invariant bytes == Bytes(s) + extra && nevict == old(nevict)
        invariant 0 <= pos <= |order| && (used == 0 || skip + used <= pos)
        invariant idx == if pos == 0 then 0 else order[pos - 1]
        decreases pos
      {
        pos := pos - 1;
        if skip <= pos {
          PartitionBehind(order, skip, used, m[..], pos);
        }
        var nd := m[idx - 1];
        if nd.expireAt > 0 {
          assert skip == 1 ==> order[0] != order[pos];
          reports := EvictAt(idx, skip, pos - skip, extra);
          BoundsBehind(order, skip, used, m[..]);
          return true, reports;
        }
        idx := doubleLink[idx, P];
      }
      return false, [];
    }

    /** The end of the walk of `EvictOldest`: the last live slot. */
    method EvictAt(idx: uint16, ghost skip: nat, ghost j: nat, ghost extra: int) returns (reports: Reports)
      requires Loose(skip) && bytes == Bytes(Rest(skip)) + extra
      requires 0 < used == |Rest(skip)| && j == used - 1 && skip + j < |order| && order[skip + j] == idx && 0 < idx <= last
      requires m[idx - 1].expireAt > 0 && m[idx - 1].v.Some? && Rest(skip)[j] == ToEntry(m[idx - 1])
      modifies this, doubleLink, m
      ensures Loose(skip) && bytes == Bytes(Rest(skip)) + extra
      ensures var s := old(Rest(skip)); s != [] && Rest(skip) == s[..|s| - 1] && reports == [(s[|s| - 1].key, s[|s| - 1].value)]
      ensures nevict == old(nevict) + 1 && last == old(last)
      ensures forall i :: 0 <= i < skip ==> i < |order| && order[i] == old(order[i])
      ensures m[..] == old(m[..])[idx - 1 := old(m[idx - 1]).(expireAt := 0, v := None)]
    {
      hide Slots, Keyed, Behind, Bytes, Injective, Chained;
      ghost var s := Rest(skip);
      var nd := m[idx - 1];
      BytesLast(s);
      assert s[..j] + s[j + 1..] == s[..|s| - 1];
      bytes := bytes - EntryBytes(nd.k, nd.v);
      nevict := nevict + 1;
      KeyedSame(m[..], hashMap, last, idx, nd.(expireAt := 0, v := None));
      Retire(idx, nd.(expireAt := 0, v := None), skip, j);
      return [(nd.k, nd.v.value)];
    }

    /** Visits the live entries from the most recent on. */
    method Walk() returns (visited: seq<Entry>)
      requires Valid()
      ensures visited == Contents()
    {
      hide Slotted, Keyed, Live, Bytes;
      visited := [];
      ghost var pos := 0;
      var idx := doubleLink[0, N];
      Bounds(order, used, m[..]);
      while idx != 0
        invariant pos <= |order|
        invariant idx == if pos == |order| then 0 else order[pos]
        invariant visited == if pos <= used then Contents()[..pos] else Contents()
        decreases |order| - pos
      {
        Partition(order, used, m[..], pos);
        if m[idx - 1].expireAt > 0 {
          visited := visited + [ToEntry(m[idx - 1])];
        }
        pos := pos + 1;
        idx := doubleLink[idx, N];
      }
    }
  }
}
