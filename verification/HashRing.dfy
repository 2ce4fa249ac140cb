/** The consistent hash ring: virtual nodes on a circle of hash values, each key owned by the next one. */
module HashRing {

  /** The hash functions: of virtual node number `i` of a node, and of a key. */
  datatype Hashing = Hashing(virtual: (string, nat) -> int, key: string -> int, replicas: nat)

  /** Who owns each virtual node, and which virtual nodes each node placed. */
  datatype Ring = Ring(owner: map<int, string>, placed: map<string, seq<int>>)

  const EMPTY := Ring(map[], map[])

  // ---- The operations, on values ----

  /** Virtual nodes number `i` and up of a node; a hash that is taken is skipped. */
  function Place(h: Hashing, owner: map<int, string>, node: string, i: nat): (map<int, string>, seq<int>)
    decreases h.replicas - i
  {
    if i >= h.replicas then (owner, [])
    else
      var v := h.virtual(node, i);
      if v in owner then Place(h, owner, node, i + 1)
      else
        var (owner', more) := Place(h, owner[v := node], node, i + 1);
        (owner', [v] + more)
  }

  /** One turn of the placing loop. */
  lemma {:induction false} PlaceTurn(h: Hashing, owner: map<int, string>, node: string, i: nat)
    ensures Place(h, owner, node, i) ==
            if i >= h.replicas then (owner, [])
            else
              var v := h.virtual(node, i);
              if v in owner then Place(h, owner, node, i + 1)
              else
                var (owner', more) := Place(h, owner[v := node], node, i + 1);
                (owner', [v] + more)
  {
  }

  function AddNode(h: Hashing, r: Ring, node: string): Ring {
    if node in r.placed then r
    else
      var (owner, hashes) := Place(h, r.owner, node, 0);
      Ring(owner, r.placed[node := hashes])
  }

  function RemoveNode(r: Ring, node: string): Ring {
    if node in r.placed then Ring(r.owner - (set v | v in r.placed[node]), r.placed - {node}) else r
  }

  /** `k` is the first of `keys` met going up from `at`, wrapping around. */
  ghost predicate IsNext(keys: set<int>, at: int, k: int) {
    && k in keys
    && if k >= at then forall j :: j in keys && j >= at ==> j >= k
       else forall j :: j in keys ==> j < at && j >= k
  }

  /** The owner of a hash value on a ring that is not empty. */
  ghost predicate Owns(owner: map<int, string>, at: int, node: string) {
    exists k :: IsNext(owner.Keys, at, k) && owner[k] == node
  }

  // ---- What the operations keep ----

  /** Each node placed exactly the virtual nodes it owns. */
  ghost predicate Ok(r: Ring) {
    && (forall v :: v in r.owner ==> r.owner[v] in r.placed && v in r.placed[r.owner[v]])
    && (forall n, v :: n in r.placed && v in r.placed[n] ==> v in r.owner && r.owner[v] == n)
  }

  lemma {:induction false} PlaceFacts(h: Hashing, owner: map<int, string>, node: string, i: nat)
    ensures var (owner', hashes) := Place(h, owner, node, i);
            && (forall v :: v in hashes ==> v !in owner)
            && owner'.Keys == owner.Keys + (set v | v in hashes)
            && (forall v :: v in owner' ==> owner'[v] == if v in owner then owner[v] else node)
    decreases h.replicas - i
  {
    if i < h.replicas {
      var v := h.virtual(node, i);
      if v in owner {
        PlaceFacts(h, owner, node, i + 1);
      } else {
        PlaceFacts(h, owner[v := node], node, i + 1);
      }
    }
  }

  lemma {:induction false} AddOk(h: Hashing, r: Ring, node: string)
    requires Ok(r)
    ensures Ok(AddNode(h, r, node)) && AddNode(h, r, node).placed.Keys == r.placed.Keys + {node}
    ensures forall v :: v in r.owner ==> v in AddNode(h, r, node).owner && AddNode(h, r, node).owner[v] == r.owner[v]
    ensures forall v :: v in AddNode(h, r, node).owner && v !in r.owner ==> AddNode(h, r, node).owner[v] == node
    ensures forall n :: n in r.placed ==> AddNode(h, r, node).placed[n] == r.placed[n]
  {
    PlaceFacts(h, r.owner, node, 0);
  }

  /** All virtual nodes of a node that was added are on the ring, and those that nobody else had are its own. */
  lemma {:induction false} AddTakes(h: Hashing, r: Ring, node: string, i: nat)
    requires Ok(r) && node !in r.placed && i < h.replicas
    ensures var s, v := AddNode(h, r, node), h.virtual(node, i);
            && v in s.owner && s.owner[v] == if v in r.owner then r.owner[v] else node
  {
    PlaceFacts(h, r.owner, node, 0);
    PlaceTakes(h, r.owner, node, 0, i);
  }

  lemma {:induction false} PlaceTakes(h: Hashing, owner: map<int, string>, node: string, i: nat, j: nat)
    requires i <= j < h.replicas
    ensures h.virtual(node, j) in Place(h, owner, node, i).0
    decreases h.replicas - i
  {
    var v := h.virtual(node, i);
    PlaceFacts(h, owner, node, i);
    if i < j {
      PlaceTakes(h, if v in owner then owner else owner[v := node], node, i + 1, j);
    }
  }

  /** And nothing else is on the ring that was not there before. */
  lemma {:induction false} AddOnlyTakes(h: Hashing, r: Ring, node: string, v: int)
    requires v in AddNode(h, r, node).owner && v !in r.owner
    ensures exists i: nat :: i < h.replicas && v == h.virtual(node, i)
  {
    PlaceOnlyTakes(h, r.owner, node, 0, v);
  }

  lemma {:induction false} PlaceOnlyTakes(h: Hashing, owner: map<int, string>, node: string, i: nat, v: int)
    requires v in Place(h, owner, node, i).0 && v !in owner
    ensures exists j: nat :: j < h.replicas && v == h.virtual(node, j)
    decreases h.replicas - i
  {
    var first := h.virtual(node, i);
    if v != first {
      PlaceOnlyTakes(h, if first in owner then owner else owner[first := node], node, i + 1, v);
    }
  }

  lemma {:induction false} RemoveOk(r: Ring, node: string)
    requires Ok(r)
    ensures forall v :: v in RemoveNode(r, node).owner <==> v in r.owner && r.owner[v] != node
    ensures forall v :: v in RemoveNode(r, node).owner ==> RemoveNode(r, node).owner[v] == r.owner[v]
    ensures RemoveNode(r, node).placed.Keys == r.placed.Keys - {node}
    ensures forall n :: n in r.placed && n != node ==> RemoveNode(r, node).placed[n] == r.placed[n]
    ensures Ok(RemoveNode(r, node))
  {
    if node in r.placed {
      assert forall v :: v in r.owner ==> (v in r.placed[node] <==> r.owner[v] == node);
      var s := RemoveNode(r, node);
      forall n, v | n in s.placed && v in s.placed[n] ensures v in s.owner && s.owner[v] == n {
        assert n in r.placed && v in r.placed[n];
      }
    }
  }

  // ---- Ownership ----

  ghost predicate IsLeast(s: set<int>, k: int) {
    k in s && forall j :: j in s ==> j >= k
  }

  lemma {:induction false} LeastExists(s: set<int>)
    requires exists x :: x in s
    ensures exists k :: IsLeast(s, k)
  {
    var x :| x in s;
    var rest := s - {x};
    assert forall j :: j in s <==> j == x || j in rest;
    if exists y :: y in rest {
      LeastExists(rest);
      var k :| IsLeast(rest, k);
      assert IsLeast(s, if x <= k then x else k);
    } else {
      assert IsLeast(s, x);
    }
  }

  /** A key has exactly one owner. */
  lemma {:induction false} NextExists(keys: set<int>, at: int)
    requires exists k :: k in keys
    ensures exists k :: IsNext(keys, at, k)
  {
    var up := set k | k in keys && k >= at;
    if j :| j in keys && j >= at {
      assert j in up;
      LeastExists(up);
      var k :| IsLeast(up, k);
      assert forall j :: j in keys && j >= at ==> j in up;
      assert IsNext(keys, at, k);
    } else {
      LeastExists(keys);
      var k :| IsLeast(keys, k);
      assert IsNext(keys, at, k);
    }
  }

  lemma {:induction false} NextUnique(keys: set<int>, at: int, j: int, k: int)
    requires IsNext(keys, at, j) && IsNext(keys, at, k)
    ensures j == k
  {
  }

  /** Adding a node moves keys only to that node. */
  lemma {:induction false} AddMovesOnlyToNew(h: Hashing, r: Ring, node: string, at: int, before: string, after: string)
    requires Ok(r) && Owns(r.owner, at, before) && Owns(AddNode(h, r, node).owner, at, after)
    ensures after == before || after == node
  {
    AddOk(h, r, node);
    var more := AddNode(h, r, node).owner;
    var j :| IsNext(r.owner.Keys, at, j) && r.owner[j] == before;
    var k :| IsNext(more.Keys, at, k) && more[k] == after;
    if k in r.owner {
      assert IsNext(r.owner.Keys, at, k);
      NextUnique(r.owner.Keys, at, j, k);
    }
  }

  /** Removing a node moves only the keys it owned. */
  lemma {:induction false} RemoveMovesOnlyOwn(r: Ring, node: string, at: int, before: string)
    requires Ok(r) && Owns(r.owner, at, before) && before != node
    ensures Owns(RemoveNode(r, node).owner, at, before)
  {
    RemoveOk(r, node);
    var less := RemoveNode(r, node).owner;
    var j :| IsNext(r.owner.Keys, at, j) && r.owner[j] == before;
    assert j in less && less[j] == before;
    assert less.Keys <= r.owner.Keys;
    assert IsNext(less.Keys, at, j);
  }

  /** Adding a new node and removing it again restores the ring. */
  lemma {:induction false} AddThenRemove(h: Hashing, r: Ring, node: string)
    requires Ok(r) && node !in r.placed
    ensures RemoveNode(AddNode(h, r, node), node) == r
  {
    AddOk(h, r, node);
    var more := AddNode(h, r, node);
    RemoveOk(more, node);
    var back := RemoveNode(more, node);
    hide AddNode, RemoveNode;
    assert forall v :: v in r.owner ==> r.owner[v] != node;
    assert forall v :: v in back.owner <==> v in r.owner;
    assert forall v :: v in r.owner ==> back.owner[v] == r.owner[v];
    assert back.owner == r.owner;
    assert back.placed == r.placed;
  }

  // ---- Without collisions the ring depends only on the set of nodes ----

  ghost predicate NoCollisions(h: Hashing, nodes: set<string>) {
    forall m, n, i: nat, j: nat :: m in nodes && n in nodes && i < h.replicas && j < h.replicas && h.virtual(m, i) == h.virtual(n, j) ==>
      m == n && i == j
  }

  /** Every node owns exactly its own virtual nodes. */
  ghost predicate Canonical(h: Hashing, r: Ring) {
    && (forall v :: v in r.owner ==> r.owner[v] in r.placed && exists i: nat :: i < h.replicas && h.virtual(r.owner[v], i) == v)
    && (forall n, i: nat :: n in r.placed && i < h.replicas ==> h.virtual(n, i) in r.owner && r.owner[h.virtual(n, i)] == n)
  }

  lemma {:induction false} PlaceCanonical(h: Hashing, owner: map<int, string>, node: string, i: nat)
    requires forall j: nat :: i <= j < h.replicas ==> h.virtual(node, j) !in owner
    requires forall j: nat, k: nat :: j < h.replicas && k < h.replicas && h.virtual(node, j) == h.virtual(node, k) ==> j == k
    ensures var owner' := Place(h, owner, node, i).0;
            && (forall v :: v in owner' <==> v in owner || exists j: nat :: i <= j < h.replicas && h.virtual(node, j) == v)
            && (forall v :: v in owner' ==> owner'[v] == if v in owner then owner[v] else node)
    decreases h.replicas - i
  {
    if i < h.replicas {
      var v := h.virtual(node, i);
      PlaceCanonical(h, owner[v := node], node, i + 1);
      var owner' := Place(h, owner, node, i).0;
      forall x ensures x in owner' <==> x in owner || exists j: nat :: i <= j < h.replicas && h.virtual(node, j) == x {
        if x == v {
          assert h.virtual(node, i) == x;
        }
      }
    }
  }

  lemma {:induction false} AddCanonical(h: Hashing, r: Ring, node: string)
    requires Ok(r) && Canonical(h, r) && NoCollisions(h, r.placed.Keys + {node})
    ensures Canonical(h, AddNode(h, r, node))
  {
    if node !in r.placed {
      PlaceCanonical(h, r.owner, node, 0);
    }
  }

  lemma {:induction false} RemoveCanonical(h: Hashing, r: Ring, node: string)
    requires Ok(r) && Canonical(h, r) && NoCollisions(h, r.placed.Keys)
    ensures Canonical(h, RemoveNode(r, node))
  {
    RemoveOk(r, node);
  }

  /** Two rings over the same nodes, built by any sequences of additions and removals, have the same
      owners when no two virtual nodes collide. */
  lemma {:induction false} OrderIndependent(h: Hashing, r: Ring, s: Ring)
    requires Canonical(h, r) && Canonical(h, s) && r.placed.Keys == s.placed.Keys
    ensures r.owner == s.owner
  {
    assert forall v :: v in r.owner ==> v in s.owner && s.owner[v] == r.owner[v];
    assert forall v :: v in s.owner ==> v in r.owner;
  }

  datatype RingOp = Adds(node: string) | Removes(node: string)

  function Apply(h: Hashing, ops: seq<RingOp>): Ring {
    if ops == [] then EMPTY
    else
      var r := Apply(h, ops[..|ops| - 1]);
      match ops[|ops| - 1]
      case Adds(n) => AddNode(h, r, n)
      case Removes(n) => RemoveNode(r, n)
  }

  lemma {:induction false} ApplyCanonical(h: Hashing, ops: seq<RingOp>, nodes: set<string>)
    requires NoCollisions(h, nodes) && forall i :: 0 <= i < |ops| ==> ops[i].node in nodes
    ensures Ok(Apply(h, ops)) && Canonical(h, Apply(h, ops)) && Apply(h, ops).placed.Keys <= nodes
  {
    if ops != [] {
      var n := |ops| - 1;
      ApplyCanonical(h, ops[..n], nodes);
      var r := Apply(h, ops[..n]);
      assert NoCollisions(h, r.placed.Keys + {ops[n].node});
      AddOk(h, r, ops[n].node);
      AddCanonical(h, r, ops[n].node);
      RemoveOk(r, ops[n].node);
      RemoveCanonical(h, r, ops[n].node);
    }
  }

  /** Without collisions ownership depends only on which nodes are present, not on the additions and
      removals that led there or on their order. */
  lemma {:induction false} OnlyTheNodesMatter(h: Hashing, a: seq<RingOp>, b: seq<RingOp>, nodes: set<string>)
    requires NoCollisions(h, nodes)
    requires (forall i :: 0 <= i < |a| ==> a[i].node in nodes) && (forall i :: 0 <= i < |b| ==> b[i].node in nodes)
    requires Apply(h, a).placed.Keys == Apply(h, b).placed.Keys
    ensures Apply(h, a).owner == Apply(h, b).owner
  {
    ApplyCanonical(h, a, nodes);
    ApplyCanonical(h, b, nodes);
    OrderIndependent(h, Apply(h, a), Apply(h, b));
  }

  // ---- The ring object ----

  ghost predicate Ascending(keys: seq<int>) {
    forall i, j :: 0 <= i < j < |keys| ==> keys[i] < keys[j]
  }

  ghost predicate SameElements(keys: seq<int>, s: set<int>) {
    forall k :: k in keys <==> k in s
  }

  ghost predicate NoRepeats(keys: seq<int>) {
    forall i, j :: 0 <= i < j < |keys| ==> keys[i] != keys[j]
  }

  /** sort.Ints on keys without repetitions. */
  method SortInts(keys: seq<int>) returns (sorted: seq<int>)
    requires NoRepeats(keys)
    ensures Ascending(sorted) && forall k :: k in sorted <==> k in keys
  {
    sorted := [];
    for i := 0 to |keys|
      invariant Ascending(sorted)
      invariant forall k :: k in sorted <==> k in keys[..i]
    {
      assert keys[i] !in keys[..i];
      sorted := Insert(sorted, keys[i]);
      assert keys[..i + 1] == keys[..i] + [keys[i]];
    }
    assert keys[..|keys|] == keys;
  }

  method Insert(keys: seq<int>, k: int) returns (more: seq<int>)
    requires Ascending(keys) && k !in keys
    ensures Ascending(more) && forall x :: x in more <==> x in keys || x == k
  {
    var i := |keys|;
    while i > 0 && keys[i - 1] > k
      invariant 0 <= i <= |keys|
      invariant i < |keys| ==> keys[i] > k
    {
      i := i - 1;
    }
    if i > 0 {
      assert keys[i - 1] in keys;
    }
    more := keys[..i] + [k] + keys[i..];
    InsertedAt(keys, i, k);
  }

  lemma {:induction false} InsertedAt(keys: seq<int>, i: nat, k: int)
    requires Ascending(keys) && i <= |keys|
    requires i > 0 ==> keys[i - 1] < k
    requires i < |keys| ==> k < keys[i]
    ensures Ascending(keys[..i] + [k] + keys[i..])
    ensures forall x :: x in keys[..i] + [k] + keys[i..] <==> x in keys || x == k
  {
    InsertedMembers(keys, i, k);
    var more := keys[..i] + [k] + keys[i..];
    forall m, n | 0 <= m < n < |more| ensures more[m] < more[n] {
      assert m < i ==> more[m] == keys[m] <= keys[i - 1];
      assert n > i ==> more[n] == keys[n - 1] >= keys[i];
    }
  }

  lemma {:induction false} InsertedMembers(keys: seq<int>, i: nat, k: int)
    requires i <= |keys|
    ensures forall x :: x in keys[..i] + [k] + keys[i..] <==> x in keys || x == k
  {
    assert keys == keys[..i] + keys[i..];
  }

  lemma {:induction false} AppendKey(keys: seq<int>, m: map<int, string>, k: int, node: string)
    requires NoRepeats(keys) && SameElements(keys, m.Keys) && k !in m
    ensures NoRepeats(keys + [k]) && SameElements(keys + [k], m[k := node].Keys)
  {
    assert k !in keys;
  }

  class ConsistentHashMap {
    const h: Hashing
    var keys: seq<int>
    var hashMap: map<int, string>
    var nodeHashes: map<string, seq<int>>

    ghost function View(): Ring
      reads this
    {
      Ring(hashMap, nodeHashes)
    }

    ghost predicate Valid()
      reads this
    {
      Ok(View()) && Ascending(keys) && SameElements(keys, hashMap.Keys)
    }

    constructor (h: Hashing)
      ensures Valid() && this.h == h && View() == EMPTY
    {
      this.h := h;
      keys, hashMap, nodeHashes := [], map[], map[];
    }

    method AddNodeLocked(node: string)
      requires Ok(View()) && NoRepeats(keys) && SameElements(keys, hashMap.Keys)
      modifies this
      ensures View() == AddNode(h, old(View()), node)
      ensures NoRepeats(keys) && SameElements(keys, hashMap.Keys)
    {
      hide Ok, NoRepeats, SameElements, Place;
      if node in nodeHashes {
        return;
      }
      ghost var owner := hashMap;
      var hashes := [];
      var i := 0;
      while i < h.replicas
        invariant i <= h.replicas
        invariant nodeHashes == old(nodeHashes)
        invariant NoRepeats(keys) && SameElements(keys, hashMap.Keys)
        invariant var (all, mine) := Place(h, owner, node, 0); var (rest, later) := Place(h, hashMap, node, i);
                  all == rest && mine == hashes + later
      {
        PlaceTurn(h, hashMap, node, i);
        var hash := h.virtual(node, i);
        if hash !in hashMap {
          AppendKey(keys, hashMap, hash, node);
          keys := keys + [hash];
          hashMap := hashMap[hash := node];
          hashes := hashes + [hash];
        }
        i := i + 1;
      }
      PlaceTurn(h, hashMap, node, i);
      assert hashes + [] == hashes;
      nodeHashes := nodeHashes[node := hashes];
    }

    /** Empty names are skipped, and a node that is there already is a no-op. */
    method Add(nodes: seq<string>) returns (ok: bool)
      requires Valid()
      modifies this
      ensures Valid() && (ok <==> nodes != [])
      ensures View() == AddAll(h, old(View()), nodes)
    {
      if |nodes| == 0 {
        return false;
      }
      ghost var r := View();
      for i := 0 to |nodes|
        invariant View() == AddAll(h, r, nodes[..i])
        invariant Ok(View()) && NoRepeats(keys) && SameElements(keys, hashMap.Keys)
      {
        assert nodes[..i + 1][..i] == nodes[..i];
        if nodes[i] != "" {
          AddOk(h, View(), nodes[i]);
          AddNodeLocked(nodes[i]);
        }
      }
      assert nodes[..|nodes|] == nodes;
      keys := SortInts(keys);
      return true;
    }

    method Remove(node: string) returns (ok: bool)
      requires Valid()
      modifies this
      ensures Valid() && (ok <==> node != "" && node in old(nodeHashes))
      ensures View() == if node == "" then old(View()) else RemoveNode(old(View()), node)
    {
      if node == "" {
        return false;
      }
      RemoveOk(View(), node);
      if node !in nodeHashes {
        return false;
      }
      var hashes := nodeHashes[node];
      var toRemove := set v | v in hashes;
      ghost var r, before := View(), keys;
      hashMap := hashMap - toRemove;
      var kept := [];
      for i := 0 to |keys|
        invariant keys == before
        invariant Ascending(kept)
        invariant forall k :: k in kept <==> k in keys[..i] && k !in toRemove
      {
        assert keys[..i + 1] == keys[..i] + [keys[i]];
        if keys[i] !in toRemove {
          forall j | 0 <= j < |kept| ensures kept[j] < keys[i] {
            assert kept[j] in kept;
            var m :| 0 <= m < i && keys[..i][m] == kept[j];
          }
          kept := kept + [keys[i]];
        }
      }
      assert keys[..|keys|] == keys;
      keys := kept;
      nodeHashes := nodeHashes - {node};
      return true;
    }

    /** The owner of the next virtual node on the circle, or "" for the empty key or ring. */
    method Get(key: string) returns (node: string)
      requires Valid()
      ensures if key == "" || hashMap == map[] then node == "" else Owns(hashMap, h.key(key), node)
    {
      if key == "" {
        return "";
      }
      if |keys| == 0 {
        assert forall k :: k in hashMap ==> k in keys;
        return "";
      }
      assert keys[0] in keys;
      var hash := h.key(key);
      var lo, hi := 0, |keys|;
      while lo < hi
        invariant 0 <= lo <= hi <= |keys|
        invariant forall i :: 0 <= i < lo ==> keys[i] < hash
        invariant forall i :: hi <= i < |keys| ==> keys[i] >= hash
      {
        var mid := (lo + hi) / 2;
        if keys[mid] >= hash {
          hi := mid;
        } else {
          lo := mid + 1;
        }
      }
      var idx := if lo == |keys| then 0 else lo;
      NextAt(keys, hashMap.Keys, hash, idx, lo);
      return hashMap[keys[idx]];
    }
  }

  lemma {:induction false} NextAt(keys: seq<int>, s: set<int>, at: int, idx: nat, lo: nat)
    requires Ascending(keys) && SameElements(keys, s) && lo <= |keys| && keys != []
    requires forall i :: 0 <= i < lo ==> keys[i] < at
    requires forall i :: lo <= i < |keys| ==> keys[i] >= at
    requires idx == if lo == |keys| then 0 else lo
    ensures keys[idx] in s && IsNext(s, at, keys[idx])
  {
    assert keys[idx] in keys;
    forall j | j in s ensures keys[idx] >= at && j >= at ==> j >= keys[idx] ensures keys[idx] < at ==> j < at && j >= keys[idx] {
      var i :| 0 <= i < |keys| && keys[i] == j;
    }
  }

  /** The additions that a call of Add comes to: empty names are skipped. */
  function Additions(nodes: seq<string>): seq<RingOp> {
    if nodes == [] then []
    else (if nodes[0] == "" then [] else [Adds(nodes[0])]) + Additions(nodes[1..])
  }

  lemma {:induction false} AdditionsMore(nodes: seq<string>, node: string)
    ensures Additions(nodes + [node]) == Additions(nodes) + if node == "" then [] else [Adds(node)]
  {
    if nodes == [] {
      assert [node][1..] == [];
    } else {
      assert (nodes + [node])[1..] == nodes[1..] + [node];
      AdditionsMore(nodes[1..], node);
    }
  }

  /** After adding several nodes those are there that were and those that were added, but for empty names. */
  lemma {:induction false} AddsAll(h: Hashing, r: Ring, nodes: seq<string>)
    requires Ok(r)
    ensures Ok(AddAll(h, r, nodes))
    ensures forall n :: n in AddAll(h, r, nodes).placed <==> n in r.placed || (n in nodes && n != "")
  {
    hide AddNode, Ok;
    if nodes != [] {
      var n := |nodes| - 1;
      AddsAll(h, r, nodes[..n]);
      AddOk(h, AddAll(h, r, nodes[..n]), nodes[n]);
      assert nodes == nodes[..n] + [nodes[n]];
    }
  }

  lemma {:induction false} ApplyAdd(h: Hashing, ops: seq<RingOp>, node: string)
    ensures Apply(h, ops + [Adds(node)]) == AddNode(h, Apply(h, ops), node)
  {
    assert (ops + [Adds(node)])[..|ops|] == ops;
  }

  /** Adding several nodes is adding one after the other. */
  lemma {:induction false} AddsEach(h: Hashing, ops: seq<RingOp>, nodes: seq<string>)
    ensures AddAll(h, Apply(h, ops), nodes) == Apply(h, ops + Additions(nodes))
  {
    hide AddNode, Apply;
    if nodes == [] {
      assert ops + Additions(nodes) == ops;
    } else {
      var n := |nodes| - 1;
      var first, node := Additions(nodes[..n]), nodes[n];
      AddsEach(h, ops, nodes[..n]);
      AdditionsMore(nodes[..n], node);
      assert nodes[..n] + [node] == nodes;
      hide Additions;
      ApplyAdd(h, ops + first, node);
      if node == "" {
        assert ops + (first + []) == ops + first;
      } else {
        assert ops + (first + [Adds(node)]) == (ops + first) + [Adds(node)];
      }
    }
  }

  function AddAll(h: Hashing, r: Ring, nodes: seq<string>): Ring {
    if nodes == [] then r
    else
      var rest := AddAll(h, r, nodes[..|nodes| - 1]);
      var node := nodes[|nodes| - 1];
      if node == "" then rest else AddNode(h, rest, node)
  }
}
