/** The peer picker: a view of the registered peers that follows a log of registrations. */
module Peers {
  import opened Options
  import opened HashRing

  /** What etcd records under the service prefix, by address. */
  datatype Event = Registered(addr: string) | Deleted(addr: string)

  /** The addresses registered after the first `rev` events. */
  function Snapshot(log: seq<Event>, rev: nat): set<string>
    requires rev <= |log|
  {
    if rev == 0 then {}
    else
      match log[rev - 1]
      case Registered(a) => Snapshot(log, rev - 1) + {a}
      case Deleted(a) => Snapshot(log, rev - 1) - {a}
  }

  // ---- The picker's view, on values ----

  function Peer(addr: string, self: string): bool {
    addr != "" && addr != self
  }

  function Observe(clients: set<string>, self: string, e: Event): set<string> {
    if !Peer(e.addr, self) then clients
    else
      match e
      case Registered(a) => clients + {a}
      case Deleted(a) => clients - {a}
  }

  function ObserveAll(clients: set<string>, self: string, events: seq<Event>): set<string> {
    if events == [] then clients
    else Observe(ObserveAll(clients, self, events[..|events| - 1]), self, events[|events| - 1])
  }

  function PeersOf(addrs: set<string>, self: string): set<string> {
    set a | a in addrs && Peer(a, self)
  }

  /** The last that the log says of an address, up to a revision, is that it is registered. */
  ghost predicate LastRegistered(log: seq<Event>, rev: nat, a: string) {
    exists i :: 0 <= i < rev <= |log| && log[i] == Registered(a) && forall j :: i < j < rev ==> log[j].addr != a
  }

  /** The peers at a revision are the addresses registered last, but for the empty one and this node's own. */
  lemma {:induction false} PeersRegistered(log: seq<Event>, rev: nat, self: string, a: string)
    requires rev <= |log|
    ensures a in PeersOf(Snapshot(log, rev), self) <==> a != "" && a != self && LastRegistered(log, rev, a)
  {
    SnapshotRegistered(log, rev, a);
  }

  lemma {:induction false} SnapshotRegistered(log: seq<Event>, rev: nat, a: string)
    requires rev <= |log|
    ensures a in Snapshot(log, rev) <==> LastRegistered(log, rev, a)
  {
    if rev > 0 {
      SnapshotRegistered(log, rev - 1, a);
      LastRegisteredStep(log, rev, a);
      hide LastRegistered;
    }
  }

  lemma {:induction false} LastRegisteredStep(log: seq<Event>, rev: nat, a: string)
    requires 0 < rev <= |log|
    ensures LastRegistered(log, rev, a) <==> log[rev - 1] == Registered(a) || (log[rev - 1].addr != a && LastRegistered(log, rev - 1, a))
  {
    if log[rev - 1].addr != a && LastRegistered(log, rev - 1, a) {
      var i :| 0 <= i < rev - 1 && log[i] == Registered(a) && forall j :: i < j < rev - 1 ==> log[j].addr != a;
      assert forall j :: i < j < rev ==> log[j].addr != a;
    }
  }

  // ---- Following the log ----

  /** `rev` is the last revision reflected in the view; `synced` says that a resync has succeeded and
      no watch has started from an unknown revision since. */
  datatype View = View(clients: set<string>, synced: bool, watching: bool, rev: nat)

  datatype Step =
    | Append(e: Event)       // the registry changes
    | Resync(rev: nat)       // fetchAllServices succeeds on the snapshot at `rev`
    | ResyncFails(from_: nat) // it fails: the watch starts at whatever revision is current
    | Deliver(n: nat)        // the watch delivers the next `n` events in one response
    | Disconnect             // the watch channel breaks

  predicate CanStep(log: seq<Event>, v: View, s: Step) {
    match s
    case Append(_) => true
    case Resync(rev) => !v.watching && rev <= |log|
    case ResyncFails(r) => !v.watching && r <= |log|
    case Deliver(n) => v.watching && v.rev + n <= |log|
    case Disconnect => v.watching
  }

  function Take(log: seq<Event>, v: View, self: string, s: Step): (seq<Event>, View)
    requires CanStep(log, v, s)
  {
    match s
    case Append(e) => (log + [e], v)
    case Resync(rev) => (log, View(PeersOf(Snapshot(log, rev), self), true, true, rev))
    case ResyncFails(r) => (log, v.(synced := false, watching := true, rev := r))
    case Deliver(n) => (log, v.(clients := ObserveAll(v.clients, self, log[v.rev..v.rev + n]), rev := v.rev + n))
    case Disconnect => (log, v.(watching := false))
  }

  /** The view agrees with the registry at the last revision it reflects. */
  ghost predicate Agrees(log: seq<Event>, v: View, self: string) {
    v.synced ==> v.rev <= |log| && v.clients == PeersOf(Snapshot(log, v.rev), self)
  }

  lemma {:induction false} SnapshotPrefix(log: seq<Event>, more: seq<Event>, rev: nat)
    requires rev <= |log|
    ensures Snapshot(log + more, rev) == Snapshot(log, rev)
  {
    if rev > 0 {
      SnapshotPrefix(log, more, rev - 1);
    }
  }

  /** Observing the events between two revisions turns one snapshot into the other. */
  lemma {:induction false} ObserveSnapshot(log: seq<Event>, self: string, rev: nat, n: nat)
    requires rev + n <= |log|
    ensures ObserveAll(PeersOf(Snapshot(log, rev), self), self, log[rev..rev + n]) == PeersOf(Snapshot(log, rev + n), self)
  {
    var events := log[rev..rev + n];
    if n > 0 {
      assert events[..n - 1] == log[rev..rev + (n - 1)];
      ObserveSnapshot(log, self, rev, n - 1);
    } else {
      assert events == [];
    }
  }

  lemma {:induction false} StepAgrees(log: seq<Event>, v: View, self: string, s: Step)
    requires CanStep(log, v, s) && Agrees(log, v, self)
    ensures Agrees(Take(log, v, self, s).0, Take(log, v, self, s).1, self)
  {
    match s
    case Append(e) => if v.synced { SnapshotPrefix(log, [e], v.rev); }
    case Deliver(n) => if v.synced { ObserveSnapshot(log, self, v.rev, n); }
    case _ =>
  }

  /** A history of the registry and of one picker that follows it, from the end of the picker's
      constructor on: that fails unless its own fetch of the services succeeds. */
  ghost predicate History(self: string, steps: seq<Step>, logs: seq<seq<Event>>, views: seq<View>) {
    && |logs| == |views| == |steps| + 1
    && views[0].rev <= |logs[0]|
    && views[0] == View(PeersOf(Snapshot(logs[0], views[0].rev), self), true, false, views[0].rev)
    && forall i :: 0 <= i < |steps| ==>
         CanStep(logs[i], views[i], steps[i]) && (logs[i + 1], views[i + 1]) == Take(logs[i], views[i], self, steps[i])
  }

  /** Peer view agreement: over every history, once the last resync has succeeded the clients are the
      registered addresses at the last processed revision, less this node itself. */
  lemma {:induction false} ViewAgrees(self: string, steps: seq<Step>, logs: seq<seq<Event>>, views: seq<View>)
    requires History(self, steps, logs, views)
    ensures Agrees(logs[|steps|], views[|steps|], self)
    decreases |steps|
  {
    if steps != [] {
      var n := |steps| - 1;
      ViewAgrees(self, steps[..n], logs[..n + 1], views[..n + 1]);
      StepAgrees(logs[n], views[n], self, steps[n]);
    }
  }

  ghost predicate About(log: seq<Event>, from_: nat, to: nat, addr: string) {
    exists i :: from_ <= i < to <= |log| && log[i].addr == addr
  }

  ghost predicate RightAbout(log: seq<Event>, v: View, addr: string)
    requires v.rev <= |log|
  {
    addr in v.clients <==> addr in Snapshot(log, v.rev)
  }

  /** Observing what a log says from some revision on puts a view right about an address exactly when there is
      something about it to observe, or the view was right already. */
  lemma {:induction false} ObservedRight(log: seq<Event>, clients: set<string>, self: string, r: nat, u: nat, a: string)
    requires r <= u <= |log| && Peer(a, self)
    ensures (a in ObserveAll(clients, self, log[r..u]) <==> a in Snapshot(log, u)) <==>
            About(log, r, u, a) || (a in clients <==> a in Snapshot(log, r))
    ensures About(log, r, u, a) ==> (a in ObserveAll(clients, self, log[r..u]) <==> a in Snapshot(log, u))
    ensures !About(log, r, u, a) ==>
              && (a in ObserveAll(clients, self, log[r..u]) <==> a in clients)
              && (a in Snapshot(log, u) <==> a in Snapshot(log, r))
    decreases u
  {
    var events := log[r..u];
    if r < u {
      ObservedRight(log, clients, self, r, u - 1, a);
      assert events[..u - 1 - r] == log[r..u - 1] && events[u - 1 - r] == log[u - 1];
      assert About(log, r, u, a) <==> About(log, r, u - 1, a) || log[u - 1].addr == a;
    }
  }

  /** No fetch is begun. */
  predicate Follows(s: Step) {
    s.Append? || s.Deliver? || s.Disconnect?
  }

  lemma {:induction false} ClientsSince(self: string, steps: seq<Step>, logs: seq<seq<Event>>, views: seq<View>, n: nat, k: nat)
    requires History(self, steps, logs, views)
    requires n < k <= |steps| && steps[n].ResyncFails? && forall i :: n < i < k ==> Follows(steps[i])
    ensures steps[n].from_ <= |logs[n]| && logs[n] <= logs[k] && steps[n].from_ <= views[k].rev <= |logs[k]|
    ensures views[k].clients == ObserveAll(views[n].clients, self, logs[k][steps[n].from_..views[k].rev])
    decreases k
  {
    var r := steps[n].from_;
    HistoryAt(self, steps, logs, views, n);
    HistoryAt(self, steps, logs, views, k - 1);
    if k == n + 1 {
      assert logs[k][r..r] == [];
    } else {
      ClientsSince(self, steps, logs, views, n, k - 1);
      hide History;
      FollowStep(self, views[n].clients, r, logs[k - 1], views[k - 1], steps[k - 1]);
    }
  }

  lemma {:induction false} HistoryAt(self: string, steps: seq<Step>, logs: seq<seq<Event>>, views: seq<View>, k: nat)
    requires History(self, steps, logs, views) && k < |steps|
    ensures |logs| == |views| == |steps| + 1 && CanStep(logs[k], views[k], steps[k])
    ensures (logs[k + 1], views[k + 1]) == Take(logs[k], views[k], self, steps[k])
  {
  }

  lemma {:induction false} FollowStep(self: string, clients: set<string>, r: nat, log: seq<Event>, v: View, s: Step)
    requires CanStep(log, v, s) && Follows(s) && r <= v.rev <= |log|
    requires v.clients == ObserveAll(clients, self, log[r..v.rev])
    ensures var (log', v') := Take(log, v, self, s);
            log <= log' && v.rev <= v'.rev <= |log'| && v'.clients == ObserveAll(clients, self, log'[r..v'.rev])
  {
    hide ObserveAll, Observe, Snapshot, PeersOf;
    match s
    case Append(e) =>
      assert (log + [e])[r..v.rev] == log[r..v.rev];
    case Deliver(d) =>
      assert log[r..v.rev + d] == log[r..v.rev] + log[v.rev..v.rev + d];
      ObserveMore(clients, self, log[r..v.rev], log[v.rev..v.rev + d]);
    case Disconnect =>
  }

  lemma {:induction false} ObserveMore(clients: set<string>, self: string, a: seq<Event>, b: seq<Event>)
    ensures ObserveAll(clients, self, a + b) == ObserveAll(ObserveAll(clients, self, a), self, b)
  {
    if b == [] {
      assert a + b == a;
    } else {
      var n := |b| - 1;
      assert (a + b)[..|a + b| - 1] == a + b[..n];
      ObserveMore(clients, self, a, b[..n]);
    }
  }

  /** After a failed resync, until the next fetch: the view is right about a peer exactly when the watch has
      delivered an event about it since, or when the clients at the failure were right about it at the
      revision at which the watch resumed. */
  lemma {:induction false} FailedResyncIff(self: string, steps: seq<Step>, logs: seq<seq<Event>>, views: seq<View>, n: nat, a: string)
    requires History(self, steps, logs, views) && Peer(a, self)
    requires n < |steps| && steps[n].ResyncFails? && forall i :: n < i < |steps| ==> Follows(steps[i])
    ensures steps[n].from_ <= |logs[n]| && views[|steps|].rev <= |logs[|steps|]|
    ensures RightAbout(logs[|steps|], views[|steps|], a) <==>
              || About(logs[|steps|], steps[n].from_, views[|steps|].rev, a)
              || (a in views[n].clients <==> a in Snapshot(logs[n], steps[n].from_))
  {
    var k, r := |steps|, steps[n].from_;
    ClientsSince(self, steps, logs, views, n, k);
    ObservedRight(logs[k], views[n].clients, self, r, views[k].rev, a);
    assert logs[k] == logs[n] + logs[k][|logs[n]|..];
    SnapshotPrefix(logs[n], logs[k][|logs[n]|..], r);
  }

  /** The condition can fail: a picker whose first fetch found nobody, and whose second one fails after a peer
      has registered, does not know of that peer although it has seen everything up to the last revision. */
  lemma {:induction false} FailedResyncMisses()
    ensures exists steps: seq<Step>, logs: seq<seq<Event>>, views: seq<View> ::
              && History("self", steps, logs, views)
              && views[|steps|].watching && views[|steps|].rev == |logs[|steps|]|
              && !RightAbout(logs[|steps|], views[|steps|], "peer")
  {
    var e := Registered("peer");
    var steps := [Append(e), ResyncFails(1)];
    var logs := [[], [e], [e]];
    var views := [View({}, true, false, 0), View({}, true, false, 0), View({}, false, true, 1)];
    assert logs[1] == [] + [e];
    assert PeersOf(Snapshot([], 0), "self") == {};
    assert Snapshot([e], 1) == Snapshot([e], 0) + {"peer"};
    assert History("self", steps, logs, views);
    assert !RightAbout(logs[|steps|], views[|steps|], "peer");
  }

  // ---- The picker object ----

  class ClientPicker {
    const selfAddr: string
    const ring: ConsistentHashMap
    var clients: set<string>

    /** Ring members are the clients and this node, and this node always owns a virtual node. */
    ghost predicate Valid()
      reads this, ring
    {
      && ring.Valid()
      && selfAddr != "" && selfAddr !in clients && "" !in clients
      && ring.nodeHashes.Keys == clients + {selfAddr}
      && ring.nodeHashes[selfAddr] != []
    }

    constructor (addr: string, h: Hashing)
      requires addr != "" && h.replicas > 0
      ensures Valid() && fresh(ring) && selfAddr == addr && clients == {} && ring.h == h
    {
      selfAddr := addr;
      clients := {};
      ring := new ConsistentHashMap(h);
      new;
      FirstNodePlaces(h, addr);
      assert [addr][..0] == [];
      assert AddAll(h, EMPTY, [addr]) == AddNode(h, EMPTY, addr);
      var _ := ring.Add([addr]);
      AddOk(h, EMPTY, addr);
    }

    method Set(addr: string)
      requires Valid() && Peer(addr, selfAddr)
      modifies this, ring
      ensures Valid() && clients == old(clients) + {addr}
    {
      AddOk(ring.h, ring.View(), addr);
      assert [addr][..0] == [];
      assert AddAll(ring.h, ring.View(), [addr]) == AddNode(ring.h, ring.View(), addr);
      var _ := ring.Add([addr]);
      clients := clients + {addr};
    }

    method Remove(addr: string)
      requires Valid() && Peer(addr, selfAddr)
      modifies this, ring
      ensures Valid() && clients == old(clients) - {addr}
    {
      RemoveOk(ring.View(), addr);
      var _ := ring.Remove(addr);
      clients := clients - {addr};
    }

    method HandleWatchEvents(events: seq<Event>)
      requires Valid()
      modifies this, ring
      ensures Valid() && clients == ObserveAll(old(clients), selfAddr, events)
    {
      for i := 0 to |events|
        invariant Valid() && clients == ObserveAll(old(clients), selfAddr, events[..i])
      {
        assert events[..i + 1][..i] == events[..i];
        var addr := events[i].addr;
        if addr != "" && addr != selfAddr {
          match events[i]
          case Registered(_) =>
            if addr !in clients {
              Set(addr);
            }
          case Deleted(_) =>
            if addr in clients {
              Remove(addr);
            }
        }
      }
      assert events[..|events|] == events;
    }

    /** Reconciles the clients with the addresses of a snapshot, in whatever order it lists them. */
    method FetchAllServices(addrs: seq<string>)
      requires Valid()
      modifies this, ring
      ensures Valid() && clients == PeersOf((set a | a in addrs), selfAddr)
    {
      ghost var before := clients;
      var current := {};
      for i := 0 to |addrs|
        invariant Valid()
        invariant current == PeersOf((set a | a in addrs[..i]), selfAddr)
        invariant clients == before + current
      {
        assert addrs[..i + 1] == addrs[..i] + [addrs[i]];
        var addr := addrs[i];
        if addr != "" && addr != selfAddr {
          current := current + {addr};
          if addr !in clients {
            Set(addr);
          }
        }
      }
      assert addrs[..|addrs|] == addrs;
      var todo := clients;
      while todo != {}
        invariant Valid() && todo <= clients
        invariant current <= clients && clients - todo <= current
        decreases todo
      {
        var addr :| addr in todo;
        if addr !in current {
          Remove(addr);
        }
        todo := todo - {addr};
      }
    }

    /** A non-empty key always leads to this node or to a client that is present. */
    method PickPeer(key: string) returns (peer: Option<string>, ok: bool, isSelf: bool)
      requires Valid()
      ensures ok <==> key != ""
      ensures ok && isSelf ==> peer == None && Owns(ring.hashMap, ring.h.key(key), selfAddr)
      ensures ok && !isSelf ==> peer.Some? && peer.value in clients && Owns(ring.hashMap, ring.h.key(key), peer.value)
    {
      ghost var v := ring.nodeHashes[selfAddr][0];
      assert v in ring.View().placed[selfAddr] && v in ring.View().owner;
      var addr := ring.Get(key);
      OwnerPlaced(ring.View(), ring.h.key(key), addr);
      if addr == "" {
        return None, false, false;
      }
      if addr == selfAddr {
        return None, true, true;
      }
      if addr in clients {
        return Some(addr), true, false;
      }
      return None, false, false;
    }
  }

  lemma {:induction false} OwnerPlaced(r: Ring, at: int, node: string)
    requires Ok(r)
    ensures Owns(r.owner, at, node) ==> node in r.placed
  {
  }

  /** The first node on an empty ring places at least its first virtual node. */
  lemma {:induction false} FirstNodePlaces(h: Hashing, node: string)
    requires h.replicas > 0
    ensures AddNode(h, EMPTY, node).placed[node] != []
  {
  }
}
