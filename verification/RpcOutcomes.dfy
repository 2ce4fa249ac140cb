/** What calls and streams of the RPC client come to, over whole runs: where each result and each terminal
    state stems from, and that a reply that is dispatched reaches its call. */
module RpcOutcomes {
  import opened Options
  import opened RpcClient

  // ---- Where results and terminal states come from ----

  /** The error that the shutdown was started with, if one has been started by the `n`th state. */
  function ReasonOf(states: seq<State>, n: nat): Option<string>
    requires n < |states|
  {
    if n == 0 then None
    else if !states[n - 1].closed && states[n].drain.ClosingConn? then Some(states[n].drain.error)
    else ReasonOf(states, n - 1)
  }

  /** A response to call `k` carries this error. */
  ghost predicate FailedBy(received: seq<Message>, k: nat, error: string) {
    exists m :: m in received && m.id == k && m.flag == Response && m.error == error != ""
  }

  /** A message to stream `k` ends it in this way. */
  ghost predicate EndedBy(received: seq<Message>, k: nat, error: string) {
    exists m :: m in received && m.id == k && ((m.flag == StreamEnd && error == "EOF") || (m.flag == StreamError && error == m.error))
  }

  ghost predicate TaskCaused(received: seq<Message>, t: Task) {
    && (t.Commit? && t.outcome.Failed? ==> FailedBy(received, t.id, t.outcome.error))
    && (t.Terminate? ==> EndedBy(received, t.id, t.error))
  }

  ghost predicate DrainCaused(d: Drain, reason: Option<string>) {
    && (d.ClosingConn? || d.Ranging? || d.Visiting? ==> reason == Some(d.error))
    && (d.Visiting? && d.task.Commit? ==> d.task.outcome == Failed(d.error))
    && (d.Visiting? && d.task.Terminate? ==> d.task.error == d.error)
  }

  ghost predicate EntryCaused(received: seq<Message>, reason: Option<string>, k: nat, e: Entry) {
    match e
    case Call(f) => f.result.Some? && f.result.value.Failed? ==> FailedBy(received, k, f.result.value.error) || reason == Some(f.result.value.error)
    case Conn(st) => st.term.Some? ==> EndedBy(received, k, st.term.value) || reason == Some(st.term.value)
  }

  ghost predicate Caused(s: State, reason: Option<string>) {
    && (s.closed <==> reason.Some?)
    && DrainCaused(s.drain, reason)
    && (s.loop.Handling? ==> s.loop.msg in s.received)
    && (s.loop.Busy? ==> TaskCaused(s.received, s.loop.task))
    && forall k: nat :: k in s.entries ==> EntryCaused(s.received, reason, k, s.entries[k])
  }

  function NextReason(s: State, a: Action, reason: Option<string>): Option<string>
    requires Enabled(s, a)
  {
    var t := Next(s, a);
    if !s.closed && t.drain.ClosingConn? then Some(t.drain.error) else reason
  }

  lemma {:induction false} MoreReceived(received: seq<Message>, more: seq<Message>)
    requires received <= more
    ensures forall k, e :: FailedBy(received, k, e) ==> FailedBy(more, k, e)
    ensures forall k, e :: EndedBy(received, k, e) ==> EndedBy(more, k, e)
  {
    assert forall m :: m in received ==> m in more;
  }

  lemma {:induction false} WorkCaused(entries: map<nat, Entry>, t: Task, drop: bool, received: seq<Message>, reason: Option<string>)
    requires CanWork(entries, t, drop)
    requires forall k: nat :: k in entries ==> EntryCaused(received, reason, k, entries[k])
    requires TaskCaused(received, t) || (t.Commit? && t.outcome.Failed? && reason == Some(t.outcome.error)) || (t.Terminate? && reason == Some(t.error))
    ensures var (after, rest) := Work(entries, t, drop);
            (forall k: nat :: k in after ==> EntryCaused(received, reason, k, after[k])) && !rest.Commit? && !rest.Terminate?
  {
    hide FailedBy, EndedBy;
  }

  lemma {:induction false} DispatchCaused(s: State, reason: Option<string>)
    requires Enabled(s, Dispatch) && Caused(s, reason)
    ensures Caused(Next(s, Dispatch), reason)
  {
    var m := s.loop.msg;
    assert m.flag == Response && m.error != "" ==> FailedBy(s.received, m.id, m.error);
    assert m.flag == StreamEnd ==> EndedBy(s.received, m.id, "EOF");
    assert m.flag == StreamError ==> EndedBy(s.received, m.id, m.error);
    hide FailedBy, EndedBy;
  }

  lemma {:induction false} CausedStep(s: State, a: Action, reason: Option<string>)
    requires Enabled(s, a) && DrainFits(s) && Numbering(s) && Caused(s, reason)
    ensures Caused(Next(s, a), NextReason(s, a, reason))
  {
    if a.LoopWork? {
      hide FailedBy, EndedBy;
      WorkCaused(s.entries, s.loop.task, a.drop, s.received, reason);
    } else if a.DrainWork? {
      hide FailedBy, EndedBy;
      WorkCaused(s.entries, s.drain.task, false, s.received, reason);
    } else if a.Dispatch? {
      DispatchCaused(s, reason);
    } else {
      CausedIdle(s, a, reason);
    }
  }

  lemma {:induction false} CausedIdle(s: State, a: Action, reason: Option<string>)
    requires Enabled(s, a) && DrainFits(s) && Numbering(s) && Caused(s, reason) && !a.LoopWork? && !a.DrainWork? && !a.Dispatch?
    ensures Caused(Next(s, a), NextReason(s, a, reason))
  {
    MoreReceived(s.received, Next(s, a).received);
    hide FailedBy, EndedBy;
    if a.Store? {
      assert HasId(s, a.c, s.senders[a.c].pc.id);
    }
  }

  lemma {:induction false} AlwaysCaused(actions: seq<Action>, states: seq<State>)
    requires Behavior(actions, states)
    ensures Caused(states[|actions|], ReasonOf(states, |actions|))
    decreases |actions|
  {
    if actions != [] {
      var n := |actions| - 1;
      var pre := states[..n + 1];
      assert Behavior(actions[..n], pre);
      AlwaysCaused(actions[..n], pre);
      AlwaysInv(actions[..n], pre);
      hide Caused;
      CausedStep(states[n], actions[n], ReasonOf(pre, n));
      ReasonPrefix(states, pre, n);
    }
  }

  lemma {:induction false} ReasonPrefix(states: seq<State>, pre: seq<State>, n: nat)
    requires n < |pre| && pre <= states
    ensures ReasonOf(pre, n) == ReasonOf(states, n)
  {
    if n > 0 {
      ReasonPrefix(states, pre, n - 1);
    }
  }

  /** Over every run: a call fails only with the error of a response of its own id, or with the error that the
      shutdown was started with. */
  lemma {:induction false} FailureCause(actions: seq<Action>, states: seq<State>, k: nat, e: string)
    requires Behavior(actions, states)
    requires var s := states[|actions|]; k in s.entries && s.entries[k].Call? && s.entries[k].future.result == Some(Failed(e))
    ensures FailedBy(states[|actions|].received, k, e) || ReasonOf(states, |actions|) == Some(e)
  {
    AlwaysCaused(actions, states);
  }

  /** A stream ends only as a message of its own id says, or with the error that the shutdown was started with. */
  lemma {:induction false} EndCause(actions: seq<Action>, states: seq<State>, k: nat, e: string)
    requires Behavior(actions, states)
    requires var s := states[|actions|]; k in s.entries && s.entries[k].Conn? && s.entries[k].stream.term == Some(e)
    ensures EndedBy(states[|actions|].received, k, e) || ReasonOf(states, |actions|) == Some(e)
  {
    AlwaysCaused(actions, states);
  }

  /** The shutdown is started with the error of the call of Close, of the failed write, or of the failed read that
      started it. */
  lemma {:induction false} ReasonCause(actions: seq<Action>, states: seq<State>, e: string)
    requires Behavior(actions, states) && ReasonOf(states, |actions|) == Some(e)
    ensures exists i :: 0 <= i < |actions| && (actions[i] == Close(e) || actions[i] == ReadFails(e) || (actions[i].FailAfterWrite? && actions[i].error == e))
    decreases |actions|
  {
    var n := |actions| - 1;
    var pre := states[..n + 1];
    assert Behavior(actions[..n], pre);
    ReasonPrefix(states, pre, n);
    InvAt(actions, states, n);
    hide Inv, Next, Enabled, Behavior;
    if !states[n].closed && states[n + 1].drain.ClosingConn? {
      StartsShutdown(states[n], actions[n]);
      if actions[n].LoopFail? {
        FailingRead(actions[..n], pre, e);
        var i :| 0 <= i < n && actions[..n][i] == ReadFails(e);
        assert actions[i] == ReadFails(e);
      } else {
        assert actions[n] == Close(e) || (actions[n].FailAfterWrite? && actions[n].error == e);
      }
    } else {
      ReasonCause(actions[..n], pre, e);
      var i :| 0 <= i < n && (actions[..n][i] == Close(e) || actions[..n][i] == ReadFails(e) || (actions[..n][i].FailAfterWrite? && actions[..n][i].error == e));
      assert actions[i] == actions[..n][i];
    }
  }

  lemma {:induction false} StartsShutdown(s: State, a: Action)
    requires Inv(s) && Enabled(s, a) && !s.closed && Next(s, a).drain.ClosingConn?
    ensures var e := Next(s, a).drain.error;
            a == Close(e) || (a.FailAfterWrite? && a.error == e) || (a.LoopFail? && s.loop == Failing(e))
  {
    hide Numbering, LoopFits, Owed, Covered, Once, Notified, Bodies, Streams;
  }

  lemma {:induction false} FailingRead(actions: seq<Action>, states: seq<State>, e: string)
    requires Behavior(actions, states) && states[|actions|].loop == Failing(e)
    ensures exists i :: 0 <= i < |actions| && actions[i] == ReadFails(e)
    decreases |actions|
  {
    var n := |actions| - 1;
    if actions[n] != ReadFails(e) {
      Untouched(states[n], actions[n]);
      assert Behavior(actions[..n], states[..n + 1]);
      FailingRead(actions[..n], states[..n + 1], e);
      var i :| 0 <= i < n && actions[..n][i] == ReadFails(e);
      assert actions[i] == ReadFails(e);
    }
  }

  // ---- Replies reach their calls ----

  /** What a reply comes to for the call or stream it is for. */
  datatype Verdict = Answer(outcome: Outcome) | End(error: string)

  function VerdictOf(m: Message): Verdict {
    match m.flag
    case StreamEnd => End("EOF")
    case StreamError => End(m.error)
    case _ => Answer(if m.error == "" then Body(m.body) else Failed(m.error))
  }

  /** The reply is for an entry that is still in the table. */
  predicate Expected(s: State, m: Message) {
    && m.id in s.table && m.id in s.entries
    && ((m.flag == Response && s.entries[m.id].Call?) || ((m.flag == StreamEnd || m.flag == StreamError) && s.entries[m.id].Conn?))
  }

  predicate SettledAs(s: State, k: nat, v: Verdict) {
    k in s.entries &&
    match (s.entries[k], v)
    case (Call(f), Answer(out)) => f.result == Some(out)
    case (Conn(st), End(e)) => st.term == Some(e)
    case _ => false
  }

  /** The read loop still has the verdict in hand. */
  predicate StillOwes(s: State, k: nat, v: Verdict) {
    s.loop.Busy? &&
    match v
    case Answer(out) => s.loop.task == Commit(k, out)
    case End(e) => s.loop.task == Terminate(k, e)
  }

  lemma {:induction false} DispatchTakesUp(s: State)
    requires Enabled(s, Dispatch) && Expected(s, s.loop.msg)
    ensures StillOwes(Next(s, Dispatch), s.loop.msg.id, VerdictOf(s.loop.msg)) && s.loop.msg.id !in Next(s, Dispatch).table
  {
  }

  lemma {:induction false} VerdictStep(s: State, a: Action, k: nat, v: Verdict, w: Verdict)
    requires Enabled(s, a) && Inv(s)
    ensures StillOwes(s, k, v) ==> StillOwes(Next(s, a), k, v) || SettledAs(Next(s, a), k, v) || Settled(s, k)
    ensures SettledAs(s, k, w) ==> SettledAs(Next(s, a), k, w)
  {
    hide Numbering, DrainFits, Owed, Covered, Once, Notified, Bodies, Streams;
    if a.LoopWork? {
      WorkFacts(s.entries, s.loop.task, a.drop);
    } else {
      VerdictIdle(s, a, k, v, w);
    }
  }

  lemma {:induction false} VerdictIdle(s: State, a: Action, k: nat, v: Verdict, w: Verdict)
    requires Enabled(s, a) && Inv(s) && !a.LoopWork?
    ensures StillOwes(s, k, v) ==> StillOwes(Next(s, a), k, v)
    ensures SettledAs(s, k, w) ==> SettledAs(Next(s, a), k, w)
  {
    hide DrainFits, LoopFits, Owed, Covered, Once, Notified, Bodies, Streams;
    Untouched(s, a);
    if a.DrainWork? {
      WorkFacts(s.entries, s.drain.task, false);
      hide Work;
    } else if a.Store? {
      assert HasId(s, a.c, s.senders[a.c].pc.id);
    }
  }

  /** The verdict has been carried out, is still in hand, or met an entry that had been settled before. */
  ghost predicate Reached(states: seq<State>, i: nat, n: nat, k: nat, v: Verdict)
    requires n < |states|
  {
    || StillOwes(states[n], k, v)
    || SettledAs(states[n], k, v)
    || exists h, w :: i < h < n && StillOwes(states[h], k, v) && SettledAs(states[h], k, w) && SettledAs(states[n], k, w)
  }

  /** Over every run: a reply that is dispatched while its entry is in the table settles that entry as it says, body,
      error or end, once the read loop has carried it out - unless the entry had been settled before then. */
  lemma {:induction false} ReplyReaches(actions: seq<Action>, states: seq<State>, i: nat, n: nat)
    requires Behavior(actions, states) && i < n <= |actions|
    requires actions[i] == Dispatch && Expected(states[i], states[i].loop.msg)
    ensures Reached(states, i, n, states[i].loop.msg.id, VerdictOf(states[i].loop.msg))
  {
    forall j | i <= j < n ensures Took(states[j], actions[j], states[j + 1]) {
      InvAt(actions, states, j);
      AlwaysReads(actions, states, j);
    }
    hide Took, Behavior;
    Reaches(actions, states, i, n);
  }

  lemma {:induction false} Reaches(actions: seq<Action>, states: seq<State>, i: nat, n: nat)
    requires |states| == |actions| + 1 && i < n <= |actions|
    requires forall j :: i <= j < n ==> Took(states[j], actions[j], states[j + 1])
    requires actions[i] == Dispatch && states[i].loop.Handling? && Expected(states[i], states[i].loop.msg)
    ensures Reached(states, i, n, states[i].loop.msg.id, VerdictOf(states[i].loop.msg))
    decreases n
  {
    hide Next, Enabled, Inv, LoopReads, Expected, VerdictOf;
    var k, v := states[i].loop.msg.id, VerdictOf(states[i].loop.msg);
    assert Took(states[n - 1], actions[n - 1], states[n]);
    if n == i + 1 {
      DispatchTakesUp(states[i]);
    } else {
      Reaches(actions, states, i, n - 1);
      hide Reached;
      ReachedStep(states, i, n, actions[n - 1], k, v);
    }
  }

  lemma {:induction false} ReachedStep(states: seq<State>, i: nat, n: nat, a: Action, k: nat, v: Verdict)
    requires i + 1 < n < |states| && Inv(states[n - 1]) && Enabled(states[n - 1], a) && states[n] == Next(states[n - 1], a)
    requires Reached(states, i, n - 1, k, v)
    ensures Reached(states, i, n, k, v)
  {
    hide Next, Enabled, Inv, Settled, SettledAs, StillOwes;
    var s := states[n - 1];
    if h, w :| i < h < n - 1 && StillOwes(states[h], k, v) && SettledAs(states[h], k, w) && SettledAs(s, k, w) {
      VerdictStep(s, a, k, v, w);
    } else {
      VerdictStep(s, a, k, v, v);
      if StillOwes(s, k, v) && Settled(s, k) {
        var w := SettledSomehow(s, k);
        VerdictStep(s, a, k, v, w);
      }
    }
  }

  lemma {:induction false} SettledSomehow(s: State, k: nat) returns (w: Verdict)
    requires Settled(s, k)
    ensures SettledAs(s, k, w)
  {
    w := match s.entries[k] case Call(f) => Answer(f.result.value) case Conn(st) => End(st.term.value);
  }

  lemma {:induction false} InvAt(actions: seq<Action>, states: seq<State>, n: nat)
    requires Behavior(actions, states) && n < |actions|
    ensures |states| == |actions| + 1
    ensures Inv(states[n]) && Enabled(states[n], actions[n]) && states[n + 1] == Next(states[n], actions[n])
  {
    assert Behavior(actions[..n], states[..n + 1]);
    AlwaysInv(actions[..n], states[..n + 1]);
  }

  // ---- Frames of a stream ----

  /** The bodies of the data messages of stream `k`, in order. */
  function DataFor(msgs: seq<Message>, k: nat): seq<Bytes> {
    if msgs == [] then []
    else
      var m := msgs[|msgs| - 1];
      DataFor(msgs[..|msgs| - 1], k) + if m.id == k && m.flag == StreamData then [m.body] else []
  }

  /** How many of the received messages have been dispatched. */
  function Handled(s: State): nat {
    if s.loop.Handling? && s.received != [] then |s.received| - 1 else |s.received|
  }

  ghost predicate LoopReads(s: State) {
    s.loop.Handling? ==> s.received != [] && s.received[|s.received| - 1] == s.loop.msg
  }

  /** Since message number `since` all data messages of the stream, and no others, have arrived. */
  ghost predicate ArrivedSince(s: State, k: nat, since: nat) {
    && k in s.entries && s.entries[k].Conn? && since <= Handled(s)
    && s.entries[k].stream.arrived == DataFor(s.received[since..Handled(s)], k)
  }

  lemma {:induction false} DataMore(msgs: seq<Message>, m: Message, k: nat)
    ensures DataFor(msgs + [m], k) == DataFor(msgs, k) + if m.id == k && m.flag == StreamData then [m.body] else []
  {
    assert (msgs + [m])[..|msgs|] == msgs;
  }

  lemma {:induction false} ArrivalStep(s: State, a: Action, k: nat, since: nat)
    requires Enabled(s, a) && LoopReads(s) && Inv(s)
    ensures LoopReads(Next(s, a))
    ensures k in s.table && ArrivedSince(s, k, since) && k in Next(s, a).table ==> ArrivedSince(Next(s, a), k, since)
    ensures k in s.entries && s.entries[k].Conn? && k !in s.table ==>
              k in Next(s, a).entries && Next(s, a).entries[k].Conn? && Next(s, a).entries[k].stream.arrived == s.entries[k].stream.arrived
  {
    hide DrainFits, LoopFits, Owed, Covered, Once, Notified, Bodies, Streams;
    if a.Dispatch? {
      ArrivalDispatch(s, k, since);
    } else if a.LoopWork? || a.DrainWork? {
      ArrivalWork(s, a, k);
    } else {
      ArrivalIdle(s, a, k, since);
    }
  }

  lemma {:induction false} ArrivalDispatch(s: State, k: nat, since: nat)
    requires Enabled(s, Dispatch) && LoopReads(s)
    ensures LoopReads(Next(s, Dispatch))
    ensures k in s.table && ArrivedSince(s, k, since) && k in Next(s, Dispatch).table ==> ArrivedSince(Next(s, Dispatch), k, since)
    ensures k in s.entries && s.entries[k].Conn? && k !in s.table ==> Next(s, Dispatch).entries[k] == s.entries[k]
  {
    hide DataFor;
    var h := Handled(s);
    if since <= h {
      assert s.received[since..h + 1] == s.received[since..h] + [s.loop.msg];
      DataMore(s.received[since..h], s.loop.msg, k);
    }
  }

  lemma {:induction false} ArrivalWork(s: State, a: Action, k: nat)
    requires Enabled(s, a) && (a.LoopWork? || a.DrainWork?)
    ensures var t := Next(s, a);
            && t.received == s.received && t.table == s.table && (t.loop.Handling? <==> s.loop.Handling?) && (s.loop.Handling? ==> t.loop == s.loop)
            && (k in s.entries && s.entries[k].Conn? ==> k in t.entries && t.entries[k].Conn? && t.entries[k].stream.arrived == s.entries[k].stream.arrived)
  {
  }

  lemma {:induction false} ArrivalIdle(s: State, a: Action, k: nat, since: nat)
    requires Enabled(s, a) && LoopReads(s) && Numbering(s) && !a.Dispatch? && !a.LoopWork? && !a.DrainWork?
    ensures LoopReads(Next(s, a))
    ensures k in s.table && ArrivedSince(s, k, since) ==> ArrivedSince(Next(s, a), k, since)
    ensures k in s.entries && s.entries[k].Conn? ==>
              k in Next(s, a).entries && Next(s, a).entries[k].Conn? && Next(s, a).entries[k].stream.arrived == s.entries[k].stream.arrived
  {
    hide DataFor;
    Untouched(s, a);
    if OnEntry(a) {
      EntryArrival(s, a, k);
      hide Next;
    } else if a.Receive? {
      var h := Handled(s);
      if since <= h {
        assert Next(s, a).received[since..h] == s.received[since..h];
      }
    } else if !a.ReadFails? && !a.LoopFail? {
      hide Next;
    }
  }

  lemma {:induction false} EntryArrival(s: State, a: Action, k: nat)
    requires Enabled(s, a) && Numbering(s) && OnEntry(a)
    ensures k in s.entries && s.entries[k].Conn? ==>
              k in Next(s, a).entries && Next(s, a).entries[k].Conn? && Next(s, a).entries[k].stream.arrived == s.entries[k].stream.arrived
  {
    if a.Store? {
      assert HasId(s, a.c, s.senders[a.c].pc.id);
    }
  }

  /** A stream that has just been stored has received nothing yet. */
  lemma {:induction false} ArrivalBegins(s: State, c: nat, k: nat)
    requires Enabled(s, Store(c)) && s.senders[c] == Sender(Streaming, Numbered(k))
    ensures k in Next(s, Store(c)).table && ArrivedSince(Next(s, Store(c)), k, Handled(s))
  {
  }

  lemma {:induction false} AlwaysReads(actions: seq<Action>, states: seq<State>, n: nat)
    requires Behavior(actions, states) && n <= |actions|
    ensures LoopReads(states[n])
  {
    if n > 0 {
      AlwaysReads(actions, states, n - 1);
      InvAt(actions, states, n - 1);
      hide Next, Enabled;
      ArrivalStep(states[n - 1], actions[n - 1], 0, 0);
    }
  }

  /** Over every run: as long as a stream is in the table, the frames that have arrived for it are the bodies of
      exactly the data messages of its own id that have been dispatched since it was stored, in order. */
  lemma {:induction false} ArrivedIsSent(actions: seq<Action>, states: seq<State>, i: nat, n: nat, c: nat, k: nat)
    requires Behavior(actions, states) && i < n <= |actions|
    requires actions[i] == Store(c) && c in states[i].senders && states[i].senders[c] == Sender(Streaming, Numbered(k))
    requires forall j :: i < j <= n ==> k in states[j].table
    ensures ArrivedSince(states[n], k, Handled(states[i]))
  {
    forall j | i <= j < n ensures Took(states[j], actions[j], states[j + 1]) {
      InvAt(actions, states, j);
      AlwaysReads(actions, states, j);
    }
    hide Took, Behavior;
    Arrives(actions, states, i, n, c, k);
  }

  ghost predicate Took(s: State, a: Action, t: State) {
    Inv(s) && LoopReads(s) && Enabled(s, a) && t == Next(s, a)
  }

  lemma {:induction false} Arrives(actions: seq<Action>, states: seq<State>, i: nat, n: nat, c: nat, k: nat)
    requires |states| == |actions| + 1 && i < n <= |actions|
    requires forall j :: i <= j < n ==> Took(states[j], actions[j], states[j + 1])
    requires actions[i] == Store(c) && c in states[i].senders && states[i].senders[c] == Sender(Streaming, Numbered(k))
    requires forall j :: i < j <= n ==> k in states[j].table
    ensures ArrivedSince(states[n], k, Handled(states[i]))
    decreases n
  {
    hide Next, Enabled, ArrivedSince, Handled, LoopReads, Inv;
    assert Took(states[n - 1], actions[n - 1], states[n]);
    if n == i + 1 {
      ArrivalBegins(states[i], c, k);
    } else {
      assert k in states[n - 1].table && k in states[n].table;
      Arrives(actions, states, i, n - 1, c, k);
      ArrivalStep(states[n - 1], actions[n - 1], k, Handled(states[i]));
    }
  }

  /** Once a stream has left the table nothing more arrives for it. */
  lemma {:induction false} NothingArrivesLater(actions: seq<Action>, states: seq<State>, n: nat, k: nat)
    requires Behavior(actions, states) && n < |actions|
    requires k in states[n].entries && states[n].entries[k].Conn? && k !in states[n].table
    ensures k in states[n + 1].entries && states[n + 1].entries[k].Conn?
    ensures states[n + 1].entries[k].stream.arrived == states[n].entries[k].stream.arrived
  {
    InvAt(actions, states, n);
    AlwaysReads(actions, states, n);
    hide Next, Enabled;
    ArrivalStep(states[n], actions[n], k, 0);
  }

  // ---- A call that nothing disturbs ----

  /** The actions can be taken one after the other and lead from `s` to `t`. */
  ghost predicate Leads(s: State, run: seq<Action>, t: State)
    decreases |run|
  {
    if run == [] then s == t else Enabled(s, run[0]) && Leads(Next(s, run[0]), run[1..], t)
  }

  lemma {:induction false} LeadsFurther(s: State, run: seq<Action>, t: State, a: Action)
    requires Leads(s, run, t) && Enabled(t, a)
    ensures Leads(s, run + [a], Next(t, a))
    decreases |run|
  {
    if run == [] {
      assert [a][1..] == [];
    } else {
      assert (run + [a])[1..] == run[1..] + [a];
      LeadsFurther(Next(s, run[0]), run[1..], t, a);
    }
  }

  /** On an open client a caller is handed its call. */
  lemma {:induction false} CallerServed(s: State, c: nat, kind: Kind) returns (run: seq<Action>, t: State)
    requires !s.closed && c !in s.senders && s.loop.Reading?
    ensures Leads(s, run, t) && t.loop.Reading? && !t.closed
    ensures c in t.senders && t.senders[c] == Sender(kind, Returned(s.seq_ + 1))
    ensures s.seq_ + 1 in t.table && s.seq_ + 1 in t.entries && t.entries[s.seq_ + 1] == NewEntry(kind)
  {
    var s1 := Next(s, Begin(c, kind));
    var s2 := Next(s1, TakeSeq(c));
    var s3 := Next(s2, Store(c));
    var s4 := Next(s3, Recheck(c));
    t := Next(s4, Write(c, true));
    LeadsFurther(s, [], s, Begin(c, kind));
    LeadsFurther(s, [] + [Begin(c, kind)], s1, TakeSeq(c));
    LeadsFurther(s, [] + [Begin(c, kind)] + [TakeSeq(c)], s2, Store(c));
    LeadsFurther(s, [] + [Begin(c, kind)] + [TakeSeq(c)] + [Store(c)], s3, Recheck(c));
    LeadsFurther(s, [] + [Begin(c, kind)] + [TakeSeq(c)] + [Store(c)] + [Recheck(c)], s4, Write(c, true));
    run := [] + [Begin(c, kind)] + [TakeSeq(c)] + [Store(c)] + [Recheck(c)] + [Write(c, true)];
  }

  lemma {:induction false} LeadsAlong(s: State, run: seq<Action>, t: State, more: seq<Action>, u: State)
    requires Leads(s, run, t) && Leads(t, more, u)
    ensures Leads(s, run + more, u)
    decreases |run|
  {
    if run == [] {
      assert run + more == more;
    } else {
      assert (run + more)[1..] == run[1..] + more;
      LeadsAlong(Next(s, run[0]), run[1..], t, more, u);
    }
  }

  lemma {:induction false} TakenUp(s: State, m: Message) returns (t: State)
    requires s.loop.Reading? && Expected(s, m)
    ensures Leads(s, [Receive(m), Dispatch], t)
    ensures t.senders == s.senders && t.entries == s.entries && m.id !in t.table && StillOwes(t, m.id, VerdictOf(m))
  {
    var s1 := Next(s, Receive(m));
    t := Next(s1, Dispatch);
    hide Next;
    LeadsFurther(s, [], s, Receive(m));
    LeadsFurther(s, [] + [Receive(m)], s1, Dispatch);
    assert [] + [Receive(m)] + [Dispatch] == [Receive(m), Dispatch];
  }

  lemma {:induction false} CarriedOut(s: State, k: nat, out: Outcome) returns (t: State)
    requires s.loop == Busy(Commit(k, out)) && k in s.entries && s.entries[k] == NewEntry(Unary)
    ensures Leads(s, [LoopWork(false), LoopWork(false), LoopWork(false)], t)
    ensures t.loop.Reading? && t.senders == s.senders && t.table == s.table && k in t.entries && t.entries[k].Call?
    ensures t.entries[k].future.result == Some(out) && t.entries[k].future.closes == 1
  {
    var s1 := Next(s, LoopWork(false));
    var s2 := Next(s1, LoopWork(false));
    t := Next(s2, LoopWork(false));
    hide Next;
    LeadsFurther(s, [], s, LoopWork(false));
    LeadsFurther(s, [] + [LoopWork(false)], s1, LoopWork(false));
    LeadsFurther(s, [] + [LoopWork(false)] + [LoopWork(false)], s2, LoopWork(false));
    assert [] + [LoopWork(false)] + [LoopWork(false)] + [LoopWork(false)] == [LoopWork(false), LoopWork(false), LoopWork(false)];
  }

  /** On an open client every new call can be made, and every answer to it given: the caller is handed a future that
      the answer then completes with its own body or error. */
  lemma {:induction false} CallAnswered(s: State, c: nat, body: Bytes, error: string) returns (run: seq<Action>, t: State)
    requires !s.closed && c !in s.senders && s.loop.Reading?
    ensures Leads(s, run, t) && c in t.senders && t.senders[c].pc.Returned?
    ensures var k := t.senders[c].pc.id;
            && k in t.entries && t.entries[k].Call? && t.entries[k].future.closes == 1
            && t.entries[k].future.result == Some(if error == "" then Body(body) else Failed(error))
  {
    var handed;
    run, handed := CallerServed(s, c, Unary);
    var m := Message(s.seq_ + 1, Response, error, body);
    var taken := TakenUp(handed, m);
    t := CarriedOut(taken, s.seq_ + 1, if error == "" then Body(body) else Failed(error));
    hide Leads;
    LeadsAlong(s, run, handed, [Receive(m), Dispatch], taken);
    LeadsAlong(s, run + [Receive(m), Dispatch], taken, [LoopWork(false), LoopWork(false), LoopWork(false)], t);
    run := run + [Receive(m), Dispatch] + [LoopWork(false), LoopWork(false), LoopWork(false)];
  }

  lemma {:induction false} FrameArrives(s: State, k: nat, m: Message) returns (t: State)
    requires s.loop.Reading? && k in s.table && k in s.entries && s.entries[k].Conn?
    requires s.entries[k].stream.term.None? && |s.entries[k].stream.channel| < CHANNEL_CAPACITY
    requires m.id == k && m.flag != Response
    ensures Leads(s, [Receive(m), Dispatch, LoopWork(false)], t)
    ensures t.loop.Reading? && t.senders == s.senders && k in t.entries && t.entries[k].Conn?
    ensures var st, st' := s.entries[k].stream, t.entries[k].stream;
            && st'.got == st.got && st'.channel == (if m.flag == StreamData then st.channel + [m.body] else st.channel)
            && st'.term == (if m.flag == StreamData then None else Some(if m.flag == StreamEnd then "EOF" else m.error))
            && (k in t.table <==> m.flag == StreamData)
  {
    var s1 := Next(s, Receive(m));
    var s2 := Next(s1, Dispatch);
    t := Next(s2, LoopWork(false));
    LeadsFurther(s, [], s, Receive(m));
    LeadsFurther(s, [] + [Receive(m)], s1, Dispatch);
    LeadsFurther(s, [] + [Receive(m)] + [Dispatch], s2, LoopWork(false));
    assert [] + [Receive(m)] + [Dispatch] + [LoopWork(false)] == [Receive(m), Dispatch, LoopWork(false)];
  }

  lemma {:induction false} LastReceived(s: State, k: nat) returns (t: State)
    requires k in s.entries && s.entries[k].Conn? && |s.entries[k].stream.channel| == 1 && s.entries[k].stream.term.Some?
    ensures Leads(s, [Recv(k)], t) && t.senders == s.senders && Enabled(t, RecvEnd(k))
    ensures k in t.entries && t.entries[k].Conn? && t.entries[k].stream.term == s.entries[k].stream.term
    ensures t.entries[k].stream.got == s.entries[k].stream.got + s.entries[k].stream.channel
  {
    t := Next(s, Recv(k));
    LeadsFurther(s, [], s, Recv(k));
    assert [] + [Recv(k)] == [Recv(k)];
  }

  /** On an open client every new stream can be opened, and a frame and an end sent on it: the caller receives the
      frame and then the end. */
  lemma {:induction false} StreamServed(s: State, c: nat, body: Bytes) returns (run: seq<Action>, t: State)
    requires !s.closed && c !in s.senders && s.loop.Reading?
    ensures Leads(s, run, t) && c in t.senders && t.senders[c].pc.Returned?
    ensures var k := t.senders[c].pc.id;
            && k in t.entries && t.entries[k].Conn? && t.entries[k].stream.got == [body]
            && t.entries[k].stream.term == Some("EOF") && Enabled(t, RecvEnd(k))
  {
    var handed, data, ended;
    run, handed := CallerServed(s, c, Streaming);
    var k := s.seq_ + 1;
    var m, e := Message(k, StreamData, "", body), Message(k, StreamEnd, "", []);
    data := FrameArrives(handed, k, m);
    ended := FrameArrives(data, k, e);
    t := LastReceived(ended, k);
    hide Leads, Next, Enabled;
    LeadsAlong(s, run, handed, [Receive(m), Dispatch, LoopWork(false)], data);
    LeadsAlong(s, run + [Receive(m), Dispatch, LoopWork(false)], data, [Receive(e), Dispatch, LoopWork(false)], ended);
    run := run + [Receive(m), Dispatch, LoopWork(false)] + [Receive(e), Dispatch, LoopWork(false)];
    LeadsAlong(s, run, ended, [Recv(k)], t);
    run := run + [Recv(k)];
  }

  /** On a closed client every new call is refused, and stays so; and a client that is closed stays closed. */
  lemma {:induction false} ClosedRefuses(s: State, a: Action, c: nat)
    requires Enabled(s, a)
    ensures s.closed && a.Begin? && a.c == c ==> c in Next(s, a).senders && Next(s, a).senders[c].pc == Refused
    ensures c in s.senders && s.senders[c].pc == Refused ==> c in Next(s, a).senders && Next(s, a).senders[c].pc == Refused
    ensures s.closed ==> Next(s, a).closed
  {
    if Actor(a) == None {
      Untouched(s, a);
    }
  }

  /** A call is refused for three reasons only: it began on a closed client; it took its own entry back because the
      client had been closed meanwhile; or it could not be written.  In particular a call whose entry somebody else
      took away is never refused: it is settled by them. */
  lemma {:induction false} RefusedWhen(s: State, a: Action, c: nat)
    requires Enabled(s, a) && Inv(s) && !(c in s.senders && s.senders[c].pc.Refused?)
    ensures c in Next(s, a).senders && Next(s, a).senders[c].pc.Refused? <==>
            || (a.Begin? && a.c == c && s.closed)
            || (a.Reclaim? && a.c == c && s.senders[c].pc.id in s.table)
            || (a.FailAfterWrite? && a.c == c)
    ensures a.Reclaim? && a.c == c && s.senders[c].pc.id !in s.table ==>
              InHand(s, s.senders[c].pc.id) || Settled(s, s.senders[c].pc.id)
  {
    hide Numbering, DrainFits, LoopFits, Covered, Once, Notified, Bodies, Streams;
    if Actor(a) == None {
      Untouched(s, a);
      hide Next;
    } else if a.Reclaim? {
      assert HasId(s, a.c, s.senders[a.c].pc.id);
    }
  }

  /** The client is shut down by Close, by a write that failed and by a read that failed, and by nothing else; the first
      of them gives the error. */
  lemma {:induction false} ShutDownWhen(s: State, a: Action)
    requires Enabled(s, a)
    ensures Next(s, a).closed <==> s.closed || a.Close? || a.FailAfterWrite? || a.LoopFail?
    ensures !s.closed && (a.Close? || a.FailAfterWrite?) ==> Next(s, a).drain == ClosingConn(a.error)
    ensures !s.closed && a.LoopFail? ==> Next(s, a).drain == ClosingConn(s.loop.error)
    ensures s.closed && !Draining(a) ==> Next(s, a).drain == s.drain
  {
    if !a.Close? && !a.FailAfterWrite? && !a.LoopFail? {
      Untouched(s, a);
      if Draining(a) {
        DrainStaysClosed(s, a);
      }
      hide Next;
    }
  }

  lemma {:induction false} DrainStaysClosed(s: State, a: Action)
    requires Enabled(s, a) && Draining(a)
    ensures Next(s, a).closed == s.closed
  {
  }

  ghost predicate HandedOut(s: State, c: nat) {
    c in s.senders && s.senders[c].pc.Returned?
  }

  /** On its way to be refused, and when it is, the client is closed. */
  ghost predicate WriteLost(s: State, c: nat) {
    c in s.senders && (s.senders[c].pc.WriteFailed? || s.senders[c].pc.Retracted? || (s.senders[c].pc.Refused? && s.closed))
  }

  lemma {:induction false} WriteStep(s: State, a: Action, c: nat)
    requires Enabled(s, a)
    ensures HandedOut(Next(s, a), c) <==> HandedOut(s, c) || a == Write(c, true)
    ensures WriteLost(s, c) || a == Write(c, false) ==> WriteLost(Next(s, a), c)
  {
    ShutDownWhen(s, a);
    if Actor(a) == None {
      Untouched(s, a);
      hide Next;
    }
  }

  /** Over every run: a future or stream is handed to the caller exactly when its request was written; when the write
      failed, the caller is on its way to be refused, and by then the client has been shut down. */
  lemma {:induction false} HandedOutIff(actions: seq<Action>, states: seq<State>, c: nat)
    requires Behavior(actions, states)
    ensures HandedOut(states[|actions|], c) <==> Write(c, true) in actions
    ensures Write(c, false) in actions ==> WriteLost(states[|actions|], c)
    decreases |actions|
  {
    if actions != [] {
      var n := |actions| - 1;
      assert Behavior(actions[..n], states[..n + 1]);
      HandedOutIff(actions[..n], states[..n + 1], c);
      assert actions == actions[..n] + [actions[n]];
      hide Next, HandedOut, WriteLost;
      WriteStep(states[n], actions[n], c);
    }
  }

  /** The call with this id is under way after its entry was stored, or was handed out. */
  ghost predicate Holder(s: State, c: nat, k: nat) {
    HasId(s, c, k) && Waiting(s.senders[c].pc)
  }

  /** Whatever is in the table belongs to somebody. */
  ghost predicate TableOwned(s: State) {
    forall k: nat :: k in s.table ==> exists c: nat :: Holder(s, c, k)
  }

  lemma {:induction false} HolderStep(s: State, a: Action, c: nat, k: nat)
    requires Enabled(s, a) && Numbering(s) && Holder(s, c, k) && k in Next(s, a).table && k in s.table
    ensures Holder(Next(s, a), c, k)
  {
    if Actor(a) == None {
      Untouched(s, a);
      hide Next;
    } else if Actor(a) == Some(c) {
    } else {
      SameSender(s, a, c);
      hide Next;
    }
  }

  lemma {:induction false} SameSender(s: State, a: Action, c: nat)
    requires Enabled(s, a) && c in s.senders && Actor(a).Some? && Actor(a) != Some(c)
    ensures c in Next(s, a).senders && Next(s, a).senders[c] == s.senders[c]
  {
  }

  lemma {:induction false} TableGrows(s: State, a: Action)
    requires Enabled(s, a)
    ensures a.Store? ==> Next(s, a).table == s.table + {s.senders[a.c].pc.id} && Holder(Next(s, a), a.c, s.senders[a.c].pc.id)
    ensures !a.Store? ==> Next(s, a).table <= s.table
  {
  }

  lemma {:induction false} TableOwnedStep(s: State, a: Action)
    requires Enabled(s, a) && Numbering(s) && TableOwned(s)
    ensures TableOwned(Next(s, a))
  {
    TableGrows(s, a);
    hide Next, Holder, Enabled, Numbering;
    forall k: nat | k in Next(s, a).table ensures exists c: nat :: Holder(Next(s, a), c, k) {
      if k in s.table {
        var c: nat :| Holder(s, c, k);
        HolderStep(s, a, c, k);
      }
    }
  }

  /** Over every run: nothing stays in the table for a call that was refused. */
  lemma {:induction false} AlwaysTableOwned(actions: seq<Action>, states: seq<State>)
    requires Behavior(actions, states)
    ensures TableOwned(states[|actions|])
    decreases |actions|
  {
    if actions != [] {
      var n := |actions| - 1;
      assert Behavior(actions[..n], states[..n + 1]);
      AlwaysTableOwned(actions[..n], states[..n + 1]);
      AlwaysInv(actions[..n], states[..n + 1]);
      hide TableOwned, Next, Numbering, DrainFits, LoopFits, Owed, Covered, Once, Notified, Bodies, Streams;
      TableOwnedStep(states[n], actions[n]);
    }
  }

  // ---- Callbacks ----

  /** What has been registered for call `k`, from the actions: the callback that waits for completion, which is the last
      one registered before it, and those registered after it. */
  ghost function Registrations(actions: seq<Action>, states: seq<State>, k: nat): (Option<nat>, multiset<nat>)
    requires |states| == |actions| + 1
  {
    if actions == [] then (None, multiset{})
    else
      var n := |actions| - 1;
      var (waiting, late) := Registrations(actions[..n], states[..n + 1], k);
      if !actions[n].OnComplete? || actions[n].id != k then (waiting, late)
      else if Settled(states[n], k) then (waiting, late + multiset{actions[n].callback})
      else (Some(actions[n].callback), late)
  }

  ghost predicate RegisteredAs(s: State, k: nat, waiting: Option<nat>, late: multiset<nat>) {
    if k in s.entries then s.entries[k].Call? ==> s.entries[k].future.callback == waiting && s.entries[k].future.late == late
    else waiting == None && late == multiset{}
  }

  lemma {:induction false} RegistrationStep(s: State, a: Action, k: nat, waiting: Option<nat>, late: multiset<nat>)
    requires Enabled(s, a) && Numbering(s) && RegisteredAs(s, k, waiting, late)
    ensures if !a.OnComplete? || a.id != k then RegisteredAs(Next(s, a), k, waiting, late)
            else if Settled(s, k) then RegisteredAs(Next(s, a), k, waiting, late + multiset{a.callback})
            else RegisteredAs(Next(s, a), k, Some(a.callback), late)
  {
    if a.LoopWork? {
      WorkRegistered(s.entries, s.loop.task, a.drop, k);
      hide Work;
    } else if a.DrainWork? {
      WorkRegistered(s.entries, s.drain.task, false, k);
      hide Work;
    } else if OnEntry(a) {
      EntryRegistered(s, a, k, waiting, late);
    } else if !a.Dispatch? {
      Untouched(s, a);
      hide Next;
    }
  }

  lemma {:induction false} EntryRegistered(s: State, a: Action, k: nat, waiting: Option<nat>, late: multiset<nat>)
    requires Enabled(s, a) && OnEntry(a) && Numbering(s) && RegisteredAs(s, k, waiting, late)
    ensures if !a.OnComplete? || a.id != k then RegisteredAs(Next(s, a), k, waiting, late)
            else if Settled(s, k) then RegisteredAs(Next(s, a), k, waiting, late + multiset{a.callback})
            else RegisteredAs(Next(s, a), k, Some(a.callback), late)
  {
    if a.Store? {
      assert HasId(s, a.c, s.senders[a.c].pc.id);
    }
  }

  lemma {:induction false} WorkRegistered(entries: map<nat, Entry>, t: Task, drop: bool, k: nat)
    requires CanWork(entries, t, drop)
    ensures var after := Work(entries, t, drop).0;
            && after.Keys == entries.Keys
            && (k in entries && entries[k].Call? ==>
                  after[k].Call? && after[k].future.callback == entries[k].future.callback && after[k].future.late == entries[k].future.late)
            && (k in entries && entries[k].Conn? ==> after[k].Conn?)
  {
  }

  /** Over every run: the callback of a call is the last one registered before its completion, and those registered
      later are all remembered.  So with what NoLeakedCall says they have run once each when nothing is left to do. */
  lemma {:induction false} CallbacksAre(actions: seq<Action>, states: seq<State>, k: nat)
    requires Behavior(actions, states)
    ensures var (waiting, late) := Registrations(actions, states, k); RegisteredAs(states[|actions|], k, waiting, late)
    decreases |actions|
  {
    if actions != [] {
      var n := |actions| - 1;
      assert Behavior(actions[..n], states[..n + 1]);
      CallbacksAre(actions[..n], states[..n + 1], k);
      AlwaysInv(actions[..n], states[..n + 1]);
      var (waiting, late) := Registrations(actions[..n], states[..n + 1], k);
      hide RegisteredAs, Next, Numbering, DrainFits, LoopFits, Owed, Covered, Once, Notified, Bodies, Streams, Settled;
      RegistrationStep(states[n], actions[n], k, waiting, late);
    }
  }
}
