/** The RPC client's pending-call protocol: callers that send, one read loop that dispatches replies,
    and one shutdown that drains, interleaved one atomic step at a time. */
module RpcClient {
  import opened Options

  type Bytes = seq<int>

  datatype Kind = Unary | Streaming

  /** A decoded message, as far as the read loop looks at it. An empty `error` means no error. */
  datatype Flag = Response | StreamData | StreamEnd | StreamError
  datatype Message = Message(id: nat, flag: Flag, error: string, body: Bytes)

  datatype Outcome = Body(body: Bytes) | Failed(error: string)

  /** `called` lists the callbacks that have run, `late` those registered after completion, and
      `closes` counts how often the done channel has been closed (a second close would panic). */
  datatype Future = Future(result: Option<Outcome>, callback: Option<nat>, called: seq<nat>, late: multiset<nat>, closes: nat)

  /** `channel` is the bounded channel and `term` the terminal state. The rest is history: `got` lists
      the frames Recv has returned, `arrived` those the read loop has begun to push; `accepted` and
      `seen` are got + channel and arrived at the moment the terminal state was set. */
  datatype Stream = Stream(channel: seq<Bytes>, term: Option<string>, cancelled: bool,
                           got: seq<Bytes>, arrived: seq<Bytes>, accepted: seq<Bytes>, seen: seq<Bytes>)

  const CHANNEL_CAPACITY := 64

  datatype Entry = Call(future: Future) | Conn(stream: Stream)

  /** Where a SendAsync or SendStream call stands. */
  datatype Pc =
    | Admitted              // saw closed == 0
    | Numbered(id: nat)     // has its request id
    | Stored(id: nat)       // its entry is in the table
    | Rechecking(id: nat)   // saw closed == 1 on the second look
    | Cleared(id: nat)      // about to write
    | WriteFailed(id: nat)  // the write returned an error
    | Retracted(id: nat)    // deleted its own entry, about to fail the client
    | Returned(id: nat)     // handed its future or stream to the caller
    | Refused               // returned an error

  datatype Sender = Sender(kind: Kind, pc: Pc)

  /** Work in hand on one entry, split at its atomic points. */
  datatype Task =
    | Commit(id: nat, outcome: Outcome)
    | Notify(id: nat, callback: Option<nat>)
    | CloseDone(id: nat)
    | Terminate(id: nat, error: string)
    | Push(id: nat, body: Bytes)
    | Finished

  datatype Loop = Reading | Handling(msg: Message) | Busy(task: Task) | Failing(error: string) | Exited

  /** The shutdown that won the compare-and-swap. `must` holds the keys present when the current
      Range started; Range has to visit each of them unless it disappears first. */
  datatype Drain =
    | NotStarted
    | ClosingConn(error: string)
    | Ranging(kind: Kind, error: string, must: set<nat>)
    | Visiting(kind: Kind, error: string, must: set<nat>, id: nat, task: Task)
    | Drained

  datatype State = State(
    seq_: nat,
    closed: bool,
    table: set<nat>,
    entries: map<nat, Entry>,
    senders: map<nat, Sender>,
    loop: Loop,
    drain: Drain,
    received: seq<Message>)

  const INITIAL := State(0, false, {}, map[], map[], Reading, NotStarted, [])

  function KindOf(e: Entry): Kind {
    if e.Call? then Unary else Streaming
  }

  function KeysOfKind(s: State, kind: Kind): set<nat> {
    set k | k in s.table && k in s.entries && KindOf(s.entries[k]) == kind
  }

  function NewEntry(kind: Kind): Entry {
    match kind
    case Unary => Call(Future(None, None, [], multiset{}, 0))
    case Streaming => Conn(Stream([], None, false, [], [], [], []))
  }

  datatype Action =
    // a caller in SendAsyncWithCodec or SendStream
    | Begin(c: nat, kind: Kind)
    | TakeSeq(c: nat)
    | Store(c: nat)
    | Recheck(c: nat)
    | Reclaim(c: nat)
    | Write(c: nat, ok: bool)
    | Retract(c: nat)
    | FailAfterWrite(c: nat, error: string)
    // anyone calling Close
    | Close(error: string)
    // the read loop
    | Receive(msg: Message)
    | Dispatch
    | LoopWork(drop: bool)
    | ReadFails(error: string)
    | LoopFail
    // the shutdown in progress
    | ConnClosed
    | Visit(id: nat)
    | DrainWork
    | DrainDelete
    | RangeEnds
    // users of a future or a stream
    | OnComplete(id: nat, callback: nat)
    | Recv(id: nat)
    | RecvEnd(id: nat)
    | Cancel(id: nat)

  /** One atomic point of work on an entry. `drop` chooses, for a push, one of the two ready ways out
      other than sending. */
  predicate CanWork(entries: map<nat, Entry>, t: Task, drop: bool) {
    match t
    case Commit(k, _) => k in entries && entries[k].Call?
    case Notify(k, _) => k in entries && entries[k].Call?
    case CloseDone(k) => k in entries && entries[k].Call?
    case Terminate(k, _) => k in entries && entries[k].Conn?
    case Push(k, _) =>
      && k in entries && entries[k].Conn?
      && var st := entries[k].stream;
         if drop then st.cancelled || st.term.Some? else |st.channel| < CHANNEL_CAPACITY
    case Finished => false
  }

  function Work(entries: map<nat, Entry>, t: Task, drop: bool): (map<nat, Entry>, Task)
    requires CanWork(entries, t, drop)
  {
    match t
    case Commit(k, out) =>
      var f := entries[k].future;
      if f.result.Some? then (entries, Finished)
      else (entries[k := Call(f.(result := Some(out)))], Notify(k, f.callback))
    case Notify(k, cb) =>
      var f := entries[k].future;
      (if cb.Some? then entries[k := Call(f.(called := f.called + [cb.value]))] else entries, CloseDone(k))
    case CloseDone(k) =>
      var f := entries[k].future;
      (entries[k := Call(f.(closes := f.closes + 1))], Finished)
    case Terminate(k, err) =>
      var st := entries[k].stream;
      if st.term.Some? then (entries, Finished)
      else (entries[k := Conn(st.(term := Some(err), accepted := st.got + st.channel, seen := st.arrived))], Finished)
    case Push(k, body) =>
      var st := entries[k].stream;
      if drop then (entries, Finished) else (entries[k := Conn(st.(channel := st.channel + [body]))], Finished)
  }

  /** A callback is kept for completion, or runs at once. */
  function Registered(f: Future, cb: nat): Future {
    if f.result.None? then f.(callback := Some(cb)) else f.(called := f.called + [cb], late := f.late + multiset{cb})
  }

  function Taken(st: Stream): Stream
    requires st.channel != []
  {
    st.(channel := st.channel[1..], got := st.got + [st.channel[0]])
  }

  function Shutdown(s: State, error: string): State {
    if s.closed then s else s.(closed := true, drain := ClosingConn(error))
  }

  predicate At(s: State, c: nat, pc: Pc -> bool) {
    c in s.senders && pc(s.senders[c].pc)
  }

  function Move(s: State, c: nat, pc: Pc): State
    requires c in s.senders
  {
    s.(senders := s.senders[c := s.senders[c].(pc := pc)])
  }

  predicate Enabled(s: State, a: Action) {
    match a
    case Begin(c, _) => c !in s.senders
    case TakeSeq(c) => At(s, c, (pc: Pc) => pc.Admitted?)
    case Store(c) => At(s, c, (pc: Pc) => pc.Numbered?)
    case Recheck(c) => At(s, c, (pc: Pc) => pc.Stored?)
    case Reclaim(c) => At(s, c, (pc: Pc) => pc.Rechecking?)
    case Write(c, _) => At(s, c, (pc: Pc) => pc.Cleared?)
    case Retract(c) => At(s, c, (pc: Pc) => pc.WriteFailed?)
    case FailAfterWrite(c, _) => At(s, c, (pc: Pc) => pc.Retracted?)
    case Close(_) => true
    case Receive(_) => s.loop.Reading?
    case Dispatch => s.loop.Handling?
    case LoopWork(drop) => s.loop.Busy? && CanWork(s.entries, s.loop.task, drop)
    case ReadFails(_) => s.loop.Reading?
    case LoopFail => s.loop.Failing?
    case ConnClosed => s.drain.ClosingConn?
    case Visit(k) => s.drain.Ranging? && k in s.entries && KindOf(s.entries[k]) == s.drain.kind
    case DrainWork => s.drain.Visiting? && CanWork(s.entries, s.drain.task, false)
    case DrainDelete => s.drain.Visiting? && s.drain.task.Finished?
    case RangeEnds => s.drain.Ranging? && s.drain.must !! s.table
    case OnComplete(k, _) => k in s.entries && s.entries[k].Call?
    case Recv(k) => k in s.entries && s.entries[k].Conn? && s.entries[k].stream.channel != []
    case RecvEnd(k) =>
      && k in s.entries && s.entries[k].Conn?
      && s.entries[k].stream.term.Some? && s.entries[k].stream.channel == []
    case Cancel(k) => k in s.entries && s.entries[k].Conn?
  }

  function Next(s: State, a: Action): State
    requires Enabled(s, a)
  {
    match a
    case Begin(c, kind) => s.(senders := s.senders[c := Sender(kind, if s.closed then Refused else Admitted)])
    case TakeSeq(c) => Move(s.(seq_ := s.seq_ + 1), c, Numbered(s.seq_ + 1))
    case Store(c) =>
      var k := s.senders[c].pc.id;
      Move(s.(table := s.table + {k}, entries := s.entries[k := NewEntry(s.senders[c].kind)]), c, Stored(k))
    case Recheck(c) =>
      var k := s.senders[c].pc.id;
      Move(s, c, if s.closed then Rechecking(k) else Cleared(k))
    case Reclaim(c) =>
      var k := s.senders[c].pc.id;
      if k in s.table then Move(s.(table := s.table - {k}), c, Refused) else Move(s, c, Cleared(k))
    case Write(c, ok) =>
      var k := s.senders[c].pc.id;
      Move(s, c, if ok then Returned(k) else WriteFailed(k))
    case Retract(c) =>
      var k := s.senders[c].pc.id;
      Move(s.(table := s.table - {k}), c, Retracted(k))
    case FailAfterWrite(c, error) => Move(Shutdown(s, error), c, Refused)
    case Close(error) => Shutdown(s, error)
    case Receive(msg) => s.(loop := Handling(msg), received := s.received + [msg])
    case Dispatch => Dispatched(s, s.loop.msg)
    case LoopWork(drop) =>
      var (entries, t) := Work(s.entries, s.loop.task, drop);
      s.(entries := entries, loop := if t.Finished? then Reading else Busy(t))
    case ReadFails(error) => s.(loop := Failing(error))
    case LoopFail => Shutdown(s, s.loop.error).(loop := Exited)
    case ConnClosed => s.(drain := Ranging(Unary, s.drain.error, KeysOfKind(s, Unary)))
    case Visit(k) =>
      var d := s.drain;
      s.(drain := Visiting(d.kind, d.error, d.must, k, if d.kind.Unary? then Commit(k, Failed(d.error)) else Terminate(k, d.error)))
    case DrainWork =>
      var (entries, t) := Work(s.entries, s.drain.task, false);
      s.(entries := entries, drain := s.drain.(task := t))
    case DrainDelete => s.(table := s.table - {s.drain.id}, drain := Ranging(s.drain.kind, s.drain.error, s.drain.must))
    case RangeEnds =>
      s.(drain := if s.drain.kind.Unary? then Ranging(Streaming, s.drain.error, KeysOfKind(s, Streaming)) else Drained)
    case OnComplete(k, cb) => s.(entries := s.entries[k := Call(Registered(s.entries[k].future, cb))])
    case Recv(k) => s.(entries := s.entries[k := Conn(Taken(s.entries[k].stream))])
    case RecvEnd(k) => s
    case Cancel(k) =>
      var st := s.entries[k].stream;
      s.(entries := s.entries[k := Conn(st.(cancelled := true))])
  }

  function Dispatched(s: State, msg: Message): State {
    var k := msg.id;
    if k !in s.table || k !in s.entries then s.(loop := Reading)
    else
      match (msg.flag, s.entries[k])
      case (StreamData, Conn(st)) =>
        s.(entries := s.entries[k := Conn(st.(arrived := st.arrived + [msg.body]))], loop := Busy(Push(k, msg.body)))
      case (StreamEnd, Conn(_)) => s.(table := s.table - {k}, loop := Busy(Terminate(k, "EOF")))
      case (StreamError, Conn(_)) => s.(table := s.table - {k}, loop := Busy(Terminate(k, msg.error)))
      case (Response, Call(_)) =>
        s.(table := s.table - {k}, loop := Busy(Commit(k, if msg.error != "" then Failed(msg.error) else Body(msg.body))))
      case _ => s.(loop := Reading)
  }

  // ---- The invariant ----

  function Id(pc: Pc): Option<nat> {
    match pc
    case Numbered(k) => Some(k)
    case Stored(k) => Some(k)
    case Rechecking(k) => Some(k)
    case Cleared(k) => Some(k)
    case WriteFailed(k) => Some(k)
    case Retracted(k) => Some(k)
    case Returned(k) => Some(k)
    case _ => None
  }

  ghost predicate HasId(s: State, c: nat, k: nat) {
    c in s.senders && Id(s.senders[c].pc) == Some(k)
  }

  /** Request ids are never shared, and an entry exists from Store on, of its sender's kind. */
  ghost predicate Numbering(s: State) {
    && (forall k: nat :: k in s.table ==> k in s.entries)
    && (forall k: nat :: k in s.entries ==> k <= s.seq_)
    && (forall c: nat, k: nat :: HasId(s, c, k) ==>
          && k <= s.seq_
          && if s.senders[c].pc.Numbered? then k !in s.entries
             else k in s.entries && KindOf(s.entries[k]) == s.senders[c].kind)
    && (forall c: nat, d: nat, k: nat :: HasId(s, c, k) && HasId(s, d, k) ==> c == d)
  }

  ghost predicate Settled(s: State, k: nat) {
    k in s.entries &&
    match s.entries[k]
    case Call(f) => f.result.Some?
    case Conn(st) => st.term.Some?
  }

  /** Carried on, `t` settles entry `k`. */
  predicate Settles(t: Task, k: nat) {
    (t.Commit? || t.Terminate?) && t.id == k
  }

  ghost predicate InHand(s: State, k: nat) {
    s.loop.Busy? && Settles(s.loop.task, k)
  }

  predicate Waiting(pc: Pc) {
    pc.Stored? || pc.Rechecking? || pc.Cleared? || pc.WriteFailed? || pc.Returned?
  }

  /** A call that may still be handed to its caller is in the table, in the read loop's hands, or
      settled: it is never forgotten. */
  ghost predicate Owed(s: State) {
    forall c: nat, k: nat :: HasId(s, c, k) && Waiting(s.senders[c].pc) ==> k in s.table || InHand(s, k) || Settled(s, k)
  }

  predicate Committed(pc: Pc) {
    pc.Cleared? || pc.WriteFailed? || pc.Returned?
  }

  /** The drain is still going to come across entry `k`. */
  ghost predicate Ahead(s: State, k: nat) {
    k in s.entries &&
    match s.drain
    case NotStarted => true
    case ClosingConn(_) => true
    case Ranging(kind, _, must) => k in must || (kind.Unary? && s.entries[k].Conn?)
    case Visiting(kind, _, must, _, _) => k in must || (kind.Unary? && s.entries[k].Conn?)
    case Drained => false
  }

  /** A call past its second look at `closed` that is still in the table will be drained. */
  ghost predicate Covered(s: State) {
    forall c: nat, k: nat :: HasId(s, c, k) && Committed(s.senders[c].pc) && k in s.table ==> Ahead(s, k)
  }

  ghost predicate DrainFits(s: State) {
    && (s.closed <==> !s.drain.NotStarted?)
    && (s.drain.Ranging? || s.drain.Visiting? ==>
          forall k: nat :: k in s.drain.must ==> k in s.entries && KindOf(s.entries[k]) == s.drain.kind)
    && (s.drain.Visiting? ==>
          && s.drain.id in s.entries
          && KindOf(s.entries[s.drain.id]) == s.drain.kind
          && FitsKind(s.drain.task, s.drain.kind, s.drain.id)
          && (Settles(s.drain.task, s.drain.id) || Settled(s, s.drain.id)))
  }

  ghost predicate LoopFits(s: State) {
    s.loop.Busy? ==>
      !s.loop.task.Finished? && s.loop.task.id in s.entries && (s.entries[s.loop.task.id].Conn? <==> s.loop.task.Terminate? || s.loop.task.Push?)
  }

  predicate FitsKind(t: Task, kind: Kind, k: nat) {
    match t
    case Finished => true
    case Push(_, _) => false
    case Terminate(j, _) => kind.Streaming? && j == k
    case Commit(j, _) => kind.Unary? && j == k
    case Notify(j, _) => kind.Unary? && j == k
    case CloseDone(j) => kind.Unary? && j == k
  }

  predicate Owes(t: Task, k: nat) {
    (t.Notify? || t.CloseDone?) && t.id == k
  }

  function LoopTask(s: State): Task {
    if s.loop.Busy? then s.loop.task else Finished
  }

  function DrainTask(s: State): Task {
    if s.drain.Visiting? then s.drain.task else Finished
  }

  function Token(t: Task, k: nat): nat {
    if Owes(t, k) then 1 else 0
  }

  /** How many actors still have to notify or close entry `k`. */
  function Tokens(s: State, k: nat): nat {
    Token(LoopTask(s), k) + Token(DrainTask(s), k)
  }

  /** Closes still expected of a future, counting the one that completion asks for. */
  function Due(f: Future): int {
    (if f.result.Some? then 1 else 0) - f.closes
  }

  /** The done channel is closed once for a completed future, and never otherwise. */
  ghost predicate Once(s: State) {
    forall k: nat :: k in s.entries && s.entries[k].Call? ==>
      Due(s.entries[k].future) == Tokens(s, k)
  }

  predicate Pending(t: Task, k: nat) {
    t.Notify? && t.id == k
  }

  /** What has been called, given whether the call that completion asks for is still to come. */
  predicate CalledRight(f: Future, pending: bool) {
    && (f.result.None? ==> f.late == multiset{})
    && multiset(f.called) == f.late + (if f.result.Some? && f.callback.Some? && !pending then multiset{f.callback.value} else multiset{})
  }

  ghost predicate NotifyFits(entries: map<nat, Entry>, t: Task) {
    t.Notify? ==> t.id in entries && entries[t.id].Call? && entries[t.id].future.callback == t.callback && entries[t.id].future.result.Some?
  }

  /** The callback registered before completion runs once, after it; later ones run as registered. */
  ghost predicate Notified(s: State) {
    && NotifyFits(s.entries, LoopTask(s))
    && NotifyFits(s.entries, DrainTask(s))
    && forall k: nat :: k in s.entries && s.entries[k].Call? ==>
         CalledRight(s.entries[k].future, Pending(LoopTask(s), k) || Pending(DrainTask(s), k))
  }

  ghost predicate FromMessage(s: State, k: nat, body: Bytes) {
    exists m :: m in s.received && m.id == k && m.flag == Response && m.error == "" && m.body == body
  }

  /** A body always comes from a response that carries the call's own id. */
  ghost predicate Bodies(s: State) {
    && (s.loop.Handling? ==> s.loop.msg in s.received)
    && (s.loop.Busy? && s.loop.task.Commit? && s.loop.task.outcome.Body? ==> FromMessage(s, s.loop.task.id, s.loop.task.outcome.body))
    && (s.drain.Visiting? && s.drain.task.Commit? ==> s.drain.task.outcome.Failed?)
    && (forall k: nat :: k in s.entries && s.entries[k].Call? ==>
          var f := s.entries[k].future;
          f.result.Some? && f.result.value.Body? ==> FromMessage(s, k, f.result.value.body))
  }

  /** Frames keep their order; none is lost unless the stream was cancelled or terminated. */
  ghost predicate Streams(s: State) {
    forall k: nat :: k in s.entries && s.entries[k].Conn? ==> StreamRight(s.entries[k].stream, Pushing(LoopTask(s), k))
  }

  // ---- What a step can change ----

  /** Entries keep their keys and kinds, a settled entry stays settled with its first result, and only
      Store adds a key, to the entries and to the table. */
  lemma {:induction false} WorkFacts(entries: map<nat, Entry>, t: Task, drop: bool)
    requires CanWork(entries, t, drop)
    ensures var after := Work(entries, t, drop).0;
            && after.Keys == entries.Keys
            && (forall k :: k in entries && k != t.id ==> after[k] == entries[k])
            && (after[t.id].Call? <==> entries[t.id].Call?)
            && (entries[t.id].Call? && entries[t.id].future.result.Some? ==> after[t.id].future.result == entries[t.id].future.result)
            && (entries[t.id].Conn? && entries[t.id].stream.term.Some? ==> after[t.id].stream.term == entries[t.id].stream.term)
            && (t.Commit? ==> after[t.id].future.result.Some?)
            && (t.Terminate? ==> after[t.id].stream.term.Some?)
  {
  }

  ghost predicate Grows(s: State, s': State, added: set<nat>) {
    && s'.entries.Keys == s.entries.Keys + added
    && s'.table <= s.table + added
    && (forall k: nat :: k in s.entries && k !in added ==> KindOf(s'.entries[k]) == KindOf(s.entries[k]))
    && (forall k: nat :: k !in added && Settled(s, k) ==> Settled(s', k))
  }

  function AddedKeys(s: State, a: Action): set<nat>
    requires Enabled(s, a)
  {
    if a.Store? then {s.senders[a.c].pc.id} else {}
  }

  lemma {:induction false} StepGrows(s: State, a: Action)
    requires Enabled(s, a)
    ensures Grows(s, Next(s, a), AddedKeys(s, a))
  {
    if a.LoopWork? || a.DrainWork? {
      WorkGrows(s, a);
    } else {
      IdleGrows(s, a);
    }
  }

  lemma {:induction false} WorkGrows(s: State, a: Action)
    requires Enabled(s, a) && (a.LoopWork? || a.DrainWork?)
    ensures Grows(s, Next(s, a), {})
  {
    hide Work;
    if a.LoopWork? {
      WorkFacts(s.entries, s.loop.task, a.drop);
    } else {
      WorkFacts(s.entries, s.drain.task, false);
    }
  }

  lemma {:induction false} IdleGrows(s: State, a: Action)
    requires Enabled(s, a) && !a.LoopWork? && !a.DrainWork?
    ensures Grows(s, Next(s, a), AddedKeys(s, a))
  {
    if OnEntry(a) {
      EntryGrows(s, a);
    } else if a.Dispatch? {
      DispatchGrows(s);
    }
  }

  /** The actions that change one entry at once. */
  predicate OnEntry(a: Action) {
    a.Store? || a.OnComplete? || a.Recv? || a.Cancel?
  }

  lemma {:induction false} EntryGrows(s: State, a: Action)
    requires Enabled(s, a) && OnEntry(a)
    ensures Grows(s, Next(s, a), AddedKeys(s, a))
  {
  }

  lemma {:induction false} DispatchGrows(s: State)
    requires Enabled(s, Dispatch)
    ensures Grows(s, Next(s, Dispatch), {})
  {
  }

  function Actor(a: Action): Option<nat> {
    match a
    case Begin(c, _) => Some(c)
    case TakeSeq(c) => Some(c)
    case Store(c) => Some(c)
    case Recheck(c) => Some(c)
    case Reclaim(c) => Some(c)
    case Write(c, _) => Some(c)
    case Retract(c) => Some(c)
    case FailAfterWrite(c, _) => Some(c)
    case _ => None
  }

  /** Only the acting sender moves, and only along its own program. */
  lemma {:induction false} StepSenders(s: State, a: Action)
    requires Enabled(s, a)
    ensures var s' := Next(s, a);
            && (forall c: nat :: Actor(a) != Some(c) ==> (c in s'.senders <==> c in s.senders) && (c in s.senders ==> s'.senders[c] == s.senders[c]))
            && (a.Store? ==> s.senders[a.c].pc.Numbered? && s'.senders[a.c] == s.senders[a.c].(pc := Stored(s.senders[a.c].pc.id)))
            && (a.Recheck? ==> s'.senders[a.c].pc == if s.closed then Rechecking(s.senders[a.c].pc.id) else Cleared(s.senders[a.c].pc.id))
  {
  }

  /** What each kind of action leaves alone. */
  lemma {:induction false} Untouched(s: State, a: Action)
    requires Enabled(s, a)
    ensures var t := Next(s, a);
            && (!OnEntry(a) && !a.LoopWork? && !a.DrainWork? && !a.Dispatch? ==> t.entries == s.entries)
            && (!a.LoopWork? && !a.Dispatch? && !a.Receive? && !a.ReadFails? && !a.LoopFail? ==> t.loop == s.loop)
            && (!Draining(a) && !a.Close? && !a.FailAfterWrite? && !a.LoopFail? ==> t.drain == s.drain && t.closed == s.closed)
            && (!a.Receive? ==> t.received == s.received)
            && (Actor(a) == None ==> t.senders == s.senders && t.seq_ == s.seq_)
  {
  }

  predicate Draining(a: Action) {
    a.ConnClosed? || a.Visit? || a.DrainWork? || a.DrainDelete? || a.RangeEnds?
  }

  lemma {:induction false} StepIds(s: State, a: Action)
    requires Enabled(s, a)
    ensures forall c: nat, k: nat :: HasId(Next(s, a), c, k) ==> HasId(s, c, k) || (a == TakeSeq(c) && k == s.seq_ + 1)
    ensures forall c: nat, k: nat :: HasId(Next(s, a), c, k) ==> c in s.senders ==> Next(s, a).senders[c].kind == s.senders[c].kind
    ensures s.seq_ <= Next(s, a).seq_
  {
    if Actor(a) == None {
      Untouched(s, a);
      hide Next;
    }
  }

  lemma {:induction false} NumberingStep(s: State, a: Action)
    requires Enabled(s, a) && Numbering(s)
    ensures Numbering(Next(s, a))
  {
    if Actor(a) == None {
      StepGrows(s, a);
      Untouched(s, a);
      hide Next;
      var t := Next(s, a);
      assert forall c: nat, k: nat :: HasId(t, c, k) <==> HasId(s, c, k);
      assert t.entries.Keys == s.entries.Keys;
    } else {
      NumberingSender(s, a);
    }
  }

  lemma {:induction false} NumberingSender(s: State, a: Action)
    requires Enabled(s, a) && Numbering(s) && Actor(a).Some?
    ensures Numbering(Next(s, a))
  {
    StepGrows(s, a);
    StepIds(s, a);
    var s' := Next(s, a);
    forall c: nat, k: nat | HasId(s', c, k)
      ensures k <= s'.seq_
      ensures if s'.senders[c].pc.Numbered? then k !in s'.entries else k in s'.entries && KindOf(s'.entries[k]) == s'.senders[c].kind
    {
      if Actor(a) == Some(c) {
      } else {
        assert HasId(s, c, k);
        if a.Store? {
          assert HasId(s, a.c, s.senders[a.c].pc.id);
        }
      }
    }
    forall c: nat, d: nat, k: nat | HasId(s', c, k) && HasId(s', d, k) ensures c == d {
      if HasId(s, c, k) && HasId(s, d, k) {}
    }
  }

  lemma {:induction false} DrainFitsStep(s: State, a: Action)
    requires Enabled(s, a) && Numbering(s) && DrainFits(s)
    ensures DrainFits(Next(s, a))
  {
    if Draining(a) {
      DrainFitsDrain(s, a);
    } else if a.Close? || a.FailAfterWrite? || a.LoopFail? {
      hide Settled;
    } else {
      DrainFitsOthers(s, a);
    }
  }

  lemma {:induction false} DrainFitsDrain(s: State, a: Action)
    requires Enabled(s, a) && Numbering(s) && DrainFits(s) && Draining(a)
    ensures DrainFits(Next(s, a))
  {
    StepGrows(s, a);
    hide Settled;
    if a.DrainWork? {
      WorkFacts(s.entries, s.drain.task, false);
    }
  }

  lemma {:induction false} DrainFitsOthers(s: State, a: Action)
    requires Enabled(s, a) && Numbering(s) && DrainFits(s) && !Draining(a) && !a.Close? && !a.FailAfterWrite? && !a.LoopFail?
    ensures DrainFits(Next(s, a))
  {
    StepGrows(s, a);
    Untouched(s, a);
    if a.Store? {
      assert HasId(s, a.c, s.senders[a.c].pc.id);
    }
    hide Settled, Next;
  }

  lemma {:induction false} LoopFitsStep(s: State, a: Action)
    requires Enabled(s, a) && Numbering(s) && LoopFits(s)
    ensures LoopFits(Next(s, a))
  {
    StepGrows(s, a);
    match a
    case LoopWork(drop) => WorkFacts(s.entries, s.loop.task, drop);
    case Store(c) => assert HasId(s, c, s.senders[c].pc.id);
    case _ =>
  }

  /** What leaves the table, and into whose hands. */
  lemma {:induction false} StepTable(s: State, a: Action)
    requires Enabled(s, a) && Numbering(s) && DrainFits(s) && LoopFits(s)
    ensures var s' := Next(s, a);
            && (forall k: nat :: k in s.table && k !in s'.table ==>
                  InHand(s', k) || Settled(s', k) || (exists c: nat :: HasId(s, c, k) && s'.senders[c].pc in {Refused, Retracted(k)}))
            && (forall k: nat :: InHand(s, k) ==> InHand(s', k) || Settled(s', k))
  {
    StepGrows(s, a);
    match a
    case LoopWork(drop) => WorkFacts(s.entries, s.loop.task, drop);
    case Reclaim(c) => assert HasId(s, c, s.senders[c].pc.id);
    case Retract(c) => assert HasId(s, c, s.senders[c].pc.id);
    case _ =>
  }

  lemma {:induction false} OwedStep(s: State, a: Action)
    requires Enabled(s, a) && Numbering(s) && DrainFits(s) && LoopFits(s) && Owed(s)
    ensures Owed(Next(s, a))
  {
    StepGrows(s, a);
    StepTable(s, a);
    StepSenders(s, a);
    var s' := Next(s, a);
    forall c: nat, k: nat | HasId(s', c, k) && Waiting(s'.senders[c].pc)
      ensures k in s'.table || InHand(s', k) || Settled(s', k)
    {
      WaitingBefore(s, a, c, k);
    }
  }

  lemma {:induction false} WaitingBefore(s: State, a: Action, c: nat, k: nat)
    requires Enabled(s, a) && Numbering(s)
    requires HasId(Next(s, a), c, k) && Waiting(Next(s, a).senders[c].pc)
    ensures HasId(s, c, k)
    ensures if a == Store(c) then k in Next(s, a).table else Waiting(s.senders[c].pc)
    ensures forall d: nat :: HasId(s, d, k) ==> d == c
    ensures a.Store? && a.c != c ==> k !in AddedKeys(s, a)
  {
    Untouched(s, a);
    if Actor(a) == None {
      assert HasId(s, c, k);
    } else {
      WaitingSender(s, a, c, k);
    }
  }

  lemma {:induction false} WaitingSender(s: State, a: Action, c: nat, k: nat)
    requires Enabled(s, a) && Numbering(s) && Actor(a).Some?
    requires HasId(Next(s, a), c, k) && Waiting(Next(s, a).senders[c].pc)
    ensures HasId(s, c, k)
    ensures if a == Store(c) then k in Next(s, a).table else Waiting(s.senders[c].pc)
    ensures forall d: nat :: HasId(s, d, k) ==> d == c
    ensures a.Store? && a.c != c ==> k !in AddedKeys(s, a)
  {
    assert HasId(s, c, k);
    if a.Store? {
      assert HasId(s, a.c, s.senders[a.c].pc.id);
    }
  }

  lemma {:induction false} CoveredStep(s: State, a: Action)
    requires Enabled(s, a) && Numbering(s) && DrainFits(s) && Covered(s)
    ensures Covered(Next(s, a))
  {
    StepGrows(s, a);
    var s' := Next(s, a);
    forall c: nat, k: nat | HasId(s', c, k) && Committed(s'.senders[c].pc) && k in s'.table
      ensures Ahead(s', k)
    {
      WaitingBefore(s, a, c, k);
      match a
      case Store(d) => assert HasId(s, d, s.senders[d].pc.id);
      case _ =>
    }
  }

  lemma {:induction false} WorkDue(entries: map<nat, Entry>, t: Task, drop: bool, k: nat)
    requires CanWork(entries, t, drop) && k in entries && entries[k].Call?
    ensures var (after, t') := Work(entries, t, drop);
            k in after && after[k].Call? && Due(after[k].future) - Token(t', k) == Due(entries[k].future) - Token(t, k)
  {
  }

  /** Outside the working steps, tokens and completion stay as they are. */
  lemma {:induction false} IdleDue(s: State, a: Action, k: nat)
    requires Enabled(s, a) && Numbering(s) && DrainFits(s) && !a.LoopWork? && !a.DrainWork?
    requires k in Next(s, a).entries && Next(s, a).entries[k].Call?
    ensures DueStays(s, Next(s, a), k)
  {
    if OnEntry(a) {
      EntryDue(s, a, k);
    } else if a.Dispatch? {
      DispatchDue(s, k);
    }
  }

  ghost predicate DueStays(s: State, s': State, k: nat)
    requires k in s'.entries && s'.entries[k].Call?
  {
    && (k !in s.entries ==> s'.entries[k] == NewEntry(Unary))
    && (k in s.entries ==> s.entries[k].Call? && Due(s'.entries[k].future) == Due(s.entries[k].future))
    && Tokens(s', k) == Tokens(s, k)
  }

  lemma {:induction false} EntryDue(s: State, a: Action, k: nat)
    requires Enabled(s, a) && Numbering(s) && OnEntry(a)
    requires k in Next(s, a).entries && Next(s, a).entries[k].Call?
    ensures DueStays(s, Next(s, a), k)
  {
    if a.Store? {
      assert HasId(s, a.c, s.senders[a.c].pc.id);
    }
  }

  lemma {:induction false} DispatchDue(s: State, k: nat)
    requires Enabled(s, Dispatch)
    requires k in Next(s, Dispatch).entries && Next(s, Dispatch).entries[k].Call?
    ensures DueStays(s, Next(s, Dispatch), k)
  {
  }

  lemma {:induction false} OnceStep(s: State, a: Action)
    requires Enabled(s, a) && Numbering(s) && DrainFits(s) && LoopFits(s) && Once(s)
    ensures Once(Next(s, a))
  {
    StepGrows(s, a);
    var s' := Next(s, a);
    forall k: nat | k in s'.entries && s'.entries[k].Call?
      ensures Due(s'.entries[k].future) == Tokens(s', k)
    {
      if a.LoopWork? {
        WorkDue(s.entries, s.loop.task, a.drop, k);
      } else if a.DrainWork? {
        WorkDue(s.entries, s.drain.task, false, k);
      } else {
        IdleDue(s, a, k);
      }
    }
  }

  lemma {:induction false} WorkNotified(entries: map<nat, Entry>, t: Task, drop: bool, k: nat, other: bool)
    requires CanWork(entries, t, drop) && k in entries && entries[k].Call?
    requires NotifyFits(entries, t) && CalledRight(entries[k].future, Pending(t, k) || other)
    requires other ==> entries[k].future.result.Some? && !Pending(t, k)
    ensures var (after, t') := Work(entries, t, drop);
            k in after && after[k].Call? && CalledRight(after[k].future, Pending(t', k) || other)
  {
    var f := entries[k].future;
    if t.id != k || t.CloseDone? {
      WorkFacts(entries, t, drop);
    } else if t.Notify? {
      if t.callback.Some? {
        CallbackRuns(f, t.callback.value);
      }
    }
  }

  lemma {:induction false} CallbackRuns(f: Future, cb: nat)
    requires CalledRight(f, true) && f.result.Some? && f.callback == Some(cb)
    ensures CalledRight(f.(called := f.called + [cb]), false)
  {
  }

  lemma {:induction false} Registers(f: Future, cb: nat, pending: bool)
    requires CalledRight(f, pending)
    ensures CalledRight(if f.result.None? then f.(callback := Some(cb)) else f.(called := f.called + [cb], late := f.late + multiset{cb}), pending)
  {
    assert multiset(f.called + [cb]) == multiset(f.called) + multiset{cb};
  }

  lemma {:induction false} WorkNotifyFits(entries: map<nat, Entry>, t: Task, drop: bool, u: Task)
    requires CanWork(entries, t, drop) && NotifyFits(entries, u) && NotifyFits(entries, t)
    ensures NotifyFits(Work(entries, t, drop).0, u) && NotifyFits(Work(entries, t, drop).0, Work(entries, t, drop).1)
  {
  }

  lemma {:induction false} IdleNotified(s: State, a: Action, k: nat)
    requires Enabled(s, a) && Numbering(s) && DrainFits(s) && !a.LoopWork? && !a.DrainWork?
    requires k in Next(s, a).entries && Next(s, a).entries[k].Call?
    ensures var s' := Next(s, a);
            && (Pending(LoopTask(s'), k) <==> Pending(LoopTask(s), k)) && (Pending(DrainTask(s'), k) <==> Pending(DrainTask(s), k))
            && (a.Store? || k in s.entries)
            && if a.Store? && k !in s.entries then s'.entries[k] == NewEntry(Unary)
               else if a.OnComplete? && a.id == k then
                 var f := s.entries[k].future;
                 s'.entries[k].future == if f.result.None? then f.(callback := Some(a.callback)) else f.(called := f.called + [a.callback], late := f.late + multiset{a.callback})
               else k in s.entries && s'.entries[k] == s.entries[k]
  {
    Untouched(s, a);
    if a.Store? {
      assert HasId(s, a.c, s.senders[a.c].pc.id);
    } else if Actor(a).Some? && !a.FailAfterWrite? {
      hide Next;
    } else if Draining(a) {
      hide CalledRight;
    }
  }

  lemma {:induction false} IdleNotifyFits(s: State, a: Action)
    requires Enabled(s, a) && Numbering(s) && DrainFits(s) && Notified(s) && !a.LoopWork? && !a.DrainWork?
    ensures NotifyFits(Next(s, a).entries, LoopTask(Next(s, a))) && NotifyFits(Next(s, a).entries, DrainTask(Next(s, a)))
  {
    hide CalledRight;
    Untouched(s, a);
    if a.Store? {
      assert HasId(s, a.c, s.senders[a.c].pc.id);
    } else if Actor(a).Some? && !a.FailAfterWrite? {
      hide Next;
    }
  }

  lemma {:induction false} NotifiedIdleAt(s: State, a: Action, k: nat)
    requires Enabled(s, a) && Numbering(s) && DrainFits(s) && Notified(s) && !a.LoopWork? && !a.DrainWork?
    requires k in Next(s, a).entries && Next(s, a).entries[k].Call?
    ensures var s' := Next(s, a);
            CalledRight(s'.entries[k].future, Pending(LoopTask(s'), k) || Pending(DrainTask(s'), k))
  {
    var pending := Pending(LoopTask(s), k) || Pending(DrainTask(s), k);
    IdleNotified(s, a, k);
    FreshCalledRight(pending);
    hide CalledRight, Next;
    if a.OnComplete? && a.id == k {
      Registers(s.entries[k].future, a.callback, pending);
    }
  }

  lemma {:induction false} NotifiedWorkAt(s: State, a: Action, k: nat)
    requires Enabled(s, a) && Once(s) && Notified(s) && (a.LoopWork? || a.DrainWork?)
    requires k in s.entries && s.entries[k].Call?
    ensures var s' := Next(s, a);
            && k in s'.entries && s'.entries[k].Call?
            && CalledRight(s'.entries[k].future, Pending(LoopTask(s'), k) || Pending(DrainTask(s'), k))
  {
    hide CalledRight, Work;
    if a.LoopWork? {
      WorkNotified(s.entries, s.loop.task, a.drop, k, Pending(DrainTask(s), k));
    } else {
      WorkNotified(s.entries, s.drain.task, false, k, Pending(LoopTask(s), k));
    }
  }

  lemma {:induction false} NotifiedStep(s: State, a: Action)
    requires Enabled(s, a) && Numbering(s) && DrainFits(s) && LoopFits(s) && Once(s) && Notified(s)
    ensures Notified(Next(s, a))
  {
    hide CalledRight, Work;
    StepGrows(s, a);
    var s' := Next(s, a);
    if a.LoopWork? {
      WorkNotifyFits(s.entries, s.loop.task, a.drop, DrainTask(s));
    } else if a.DrainWork? {
      WorkNotifyFits(s.entries, s.drain.task, false, LoopTask(s));
    } else {
      IdleNotifyFits(s, a);
    }
    hide Next, NotifyFits;
    forall k: nat | k in s'.entries && s'.entries[k].Call?
      ensures CalledRight(s'.entries[k].future, Pending(LoopTask(s'), k) || Pending(DrainTask(s'), k))
    {
      if a.LoopWork? || a.DrainWork? {
        NotifiedWorkAt(s, a, k);
      } else {
        NotifiedIdleAt(s, a, k);
      }
    }
  }

  lemma {:induction false} FreshCalledRight(pending: bool)
    ensures CalledRight(NewEntry(Unary).future, pending)
  {
  }

  lemma {:induction false} ReceivedGrows(s: State, a: Action)
    requires Enabled(s, a)
    ensures forall m :: m in s.received ==> m in Next(s, a).received
    ensures forall k: nat, body :: FromMessage(s, k, body) ==> FromMessage(Next(s, a), k, body)
  {
    var s' := Next(s, a);
    assert forall m :: m in s.received ==> m in s'.received;
    forall k: nat, body | FromMessage(s, k, body) ensures FromMessage(s', k, body) {
      var m :| m in s.received && m.id == k && m.flag == Response && m.error == "" && m.body == body;
      assert m in s'.received;
    }
  }

  ghost predicate ResultFits(s: State, k: nat, r: Option<Outcome>) {
    r.Some? && r.value.Body? ==> FromMessage(s, k, r.value.body)
  }

  lemma {:induction false} WorkResult(s: State, t: Task, drop: bool, k: nat)
    requires CanWork(s.entries, t, drop) && k in s.entries && s.entries[k].Call?
    requires ResultFits(s, k, s.entries[k].future.result)
    requires t.Commit? ==> ResultFits(s, t.id, Some(t.outcome))
    ensures var (after, t') := Work(s.entries, t, drop);
            k in after && after[k].Call? && ResultFits(s, k, after[k].future.result) && !t'.Commit?
  {
  }

  lemma {:induction false} BodiesStep(s: State, a: Action)
    requires Enabled(s, a) && Numbering(s) && Bodies(s)
    ensures Bodies(Next(s, a))
  {
    if a.LoopWork? || a.DrainWork? {
      BodiesWork(s, a);
    } else {
      BodiesIdle(s, a);
    }
  }

  lemma {:induction false} BodiesWork(s: State, a: Action)
    requires Enabled(s, a) && Bodies(s) && (a.LoopWork? || a.DrainWork?)
    ensures Bodies(Next(s, a))
  {
    StepGrows(s, a);
    ReceivedGrows(s, a);
    var s' := Next(s, a);
    hide FromMessage;
    forall k: nat | k in s'.entries && s'.entries[k].Call? ensures ResultFits(s', k, s'.entries[k].future.result) {
      WorkResult(s, if a.LoopWork? then s.loop.task else s.drain.task, a.LoopWork? && a.drop, k);
    }
  }

  /** Only work changes results. */
  lemma {:induction false} ResultsStay(s: State, a: Action)
    requires Enabled(s, a) && Numbering(s) && !a.LoopWork? && !a.DrainWork?
    ensures var t := Next(s, a);
            forall k: nat :: k in t.entries && t.entries[k].Call? ==>
              if k in s.entries then s.entries[k].Call? && t.entries[k].future.result == s.entries[k].future.result
              else t.entries[k].future.result == None
  {
    Untouched(s, a);
    if a.Store? {
      assert HasId(s, a.c, s.senders[a.c].pc.id);
    } else if !OnEntry(a) && !a.Dispatch? {
      hide Next;
    }
  }

  lemma {:induction false} BodiesIdle(s: State, a: Action)
    requires Enabled(s, a) && Numbering(s) && Bodies(s) && !a.LoopWork? && !a.DrainWork?
    ensures Bodies(Next(s, a))
  {
    Untouched(s, a);
    ResultsStay(s, a);
    ReceivedGrows(s, a);
    hide FromMessage, Numbering;
    if a.Dispatch? {
      DispatchBody(s);
    }
  }

  lemma {:induction false} DispatchBody(s: State)
    requires Enabled(s, Dispatch) && s.loop.msg in s.received
    ensures var t := LoopTask(Next(s, Dispatch));
            t.Commit? && t.outcome.Body? ==> FromMessage(s, t.id, t.outcome.body) && FromMessage(Next(s, Dispatch), t.id, t.outcome.body)
  {
  }

  ghost predicate StreamRight(st: Stream, pushing: seq<Bytes>) {
    && |st.channel| <= CHANNEL_CAPACITY
    && (st.term.Some? ==> st.accepted <= st.got + st.channel)
    && (!st.cancelled && st.term.None? ==> st.arrived == st.got + st.channel + pushing)
    && (!st.cancelled && st.term.Some? ==> st.accepted <= st.seen && |st.seen| <= |st.accepted| + 1)
  }

  function Pushing(t: Task, k: nat): seq<Bytes> {
    if t.Push? && t.id == k then [t.body] else []
  }

  lemma {:induction false} WorkStream(entries: map<nat, Entry>, t: Task, drop: bool, k: nat)
    requires CanWork(entries, t, drop) && k in entries && entries[k].Conn?
    requires StreamRight(entries[k].stream, Pushing(t, k))
    ensures var (after, t') := Work(entries, t, drop);
            k in after && after[k].Conn? && StreamRight(after[k].stream, Pushing(t', k))
  {
  }

  lemma {:induction false} StreamsStep(s: State, a: Action)
    requires Enabled(s, a) && Numbering(s) && DrainFits(s) && LoopFits(s) && Streams(s)
    ensures Streams(Next(s, a))
  {
    StepGrows(s, a);
    var s' := Next(s, a);
    forall k: nat | k in s'.entries && s'.entries[k].Conn?
      ensures StreamRight(s'.entries[k].stream, Pushing(LoopTask(s'), k))
    {
      if a.LoopWork? {
        WorkStream(s.entries, s.loop.task, a.drop, k);
      } else if a.DrainWork? {
        DrainStream(s.entries, s.drain.task, k, Pushing(LoopTask(s), k));
      } else {
        IdleStream(s, a, k);
      }
    }
  }

  lemma {:induction false} DrainStream(entries: map<nat, Entry>, t: Task, k: nat, pushing: seq<Bytes>)
    requires CanWork(entries, t, false) && k in entries && entries[k].Conn? && !t.Push? && |pushing| <= 1
    requires StreamRight(entries[k].stream, pushing)
    ensures var (after, _) := Work(entries, t, false);
            k in after && after[k].Conn? && StreamRight(after[k].stream, pushing)
  {
  }

  lemma {:induction false} IdleStream(s: State, a: Action, k: nat)
    requires Enabled(s, a) && Numbering(s) && LoopFits(s) && Streams(s) && !a.LoopWork? && !a.DrainWork?
    requires k in Next(s, a).entries && Next(s, a).entries[k].Conn?
    ensures StreamRight(Next(s, a).entries[k].stream, Pushing(LoopTask(Next(s, a)), k))
  {
    if a.Dispatch? {
      DispatchStream(s, k);
    } else {
      StreamSame(s, a, k);
      if a.Recv? && a.id == k {
        var st := s.entries[k].stream;
        assert (st.got + [st.channel[0]]) + st.channel[1..] == st.got + st.channel;
      }
    }
  }

  lemma {:induction false} DispatchStream(s: State, k: nat)
    requires Enabled(s, Dispatch) && Streams(s) && k in s.entries && s.entries[k].Conn?
    ensures var s' := Next(s, Dispatch);
            k in s'.entries && s'.entries[k].Conn? && StreamRight(s'.entries[k].stream, Pushing(LoopTask(s'), k))
  {
  }

  lemma {:induction false} StreamSame(s: State, a: Action, k: nat)
    requires Enabled(s, a) && Numbering(s) && LoopFits(s) && !a.LoopWork? && !a.DrainWork? && !a.Dispatch?
    requires k in Next(s, a).entries && Next(s, a).entries[k].Conn?
    ensures var s' := Next(s, a);
            && Pushing(LoopTask(s'), k) == Pushing(LoopTask(s), k)
            && if a.Store? && k !in s.entries then s'.entries[k] == NewEntry(Streaming) && Pushing(LoopTask(s), k) == []
               else
                 && k in s.entries && s.entries[k].Conn?
                 && var st := s.entries[k].stream;
                    if a.Recv? && a.id == k then st.channel != [] && s'.entries[k].stream == st.(channel := st.channel[1..], got := st.got + [st.channel[0]])
                    else if a.Cancel? && a.id == k then s'.entries[k].stream == st.(cancelled := true)
                    else s'.entries[k] == s.entries[k]
  {
    if a.Store? {
      assert HasId(s, a.c, s.senders[a.c].pc.id);
    }
  }

  // ---- Whole runs ----

  ghost predicate Inv(s: State) {
    Numbering(s) && DrainFits(s) && LoopFits(s) && Owed(s) && Covered(s) && Once(s) && Notified(s) && Bodies(s) && Streams(s)
  }

  /** An interleaving: the actions in order, with the state before the first and after each. */
  ghost predicate Behavior(actions: seq<Action>, states: seq<State>) {
    && |states| == |actions| + 1
    && states[0] == INITIAL
    && forall i :: 0 <= i < |actions| ==> Enabled(states[i], actions[i]) && states[i + 1] == Next(states[i], actions[i])
  }

  lemma {:induction false} InvStep(s: State, a: Action)
    requires Inv(s) && Enabled(s, a)
    ensures Inv(Next(s, a))
  {
    hide Numbering, DrainFits, LoopFits, Owed, Covered, Once, Notified, Bodies, Streams, Next;
    NumberingStep(s, a);
    DrainFitsStep(s, a);
    LoopFitsStep(s, a);
    OwedStep(s, a);
    CoveredStep(s, a);
    OnceStep(s, a);
    NotifiedStep(s, a);
    BodiesStep(s, a);
    StreamsStep(s, a);
  }

  lemma {:induction false} AlwaysInv(actions: seq<Action>, states: seq<State>)
    requires Behavior(actions, states)
    ensures Inv(states[|actions|])
    decreases |actions|
  {
    if actions != [] {
      hide Inv, Next;
      var n := |actions| - 1;
      AlwaysInv(actions[..n], states[..n + 1]);
      InvStep(states[n], actions[n]);
    }
  }

  /** Nothing is in the shutdown's hands or in the read loop's. */
  predicate Quiescent(s: State) {
    s.drain.Drained? && (s.loop.Reading? || s.loop.Exited?)
  }

  /** No leaked call: in every interleaving, once the drain has finished and the read loop is idle,
      a future handed to a caller has completed, its done channel has been closed exactly once, its
      callback has run exactly once, and a stream handed to a caller has its terminal state. */
  lemma {:induction false} NoLeakedCall(actions: seq<Action>, states: seq<State>, c: nat)
    requires Behavior(actions, states) && Quiescent(states[|actions|])
    requires var s := states[|actions|]; c in s.senders && s.senders[c].pc.Returned?
    ensures var s := states[|actions|];
            var k := s.senders[c].pc.id;
            && k in s.entries && KindOf(s.entries[k]) == s.senders[c].kind && k !in s.table
            && match s.entries[k]
               case Call(f) =>
                 && f.result.Some? && f.closes == 1
                 && multiset(f.called) == f.late + (if f.callback.Some? then multiset{f.callback.value} else multiset{})
               case Conn(st) => st.term.Some?
  {
    AlwaysInv(actions, states);
    assert HasId(states[|actions|], c, states[|actions|].senders[c].pc.id);
  }

  /** At every moment of every interleaving the done channel has been closed at most once, and only
      for a completed future. */
  lemma {:induction false} NeverClosedTwice(actions: seq<Action>, states: seq<State>, k: nat)
    requires Behavior(actions, states)
    requires var s := states[|actions|]; k in s.entries && s.entries[k].Call?
    ensures var f := states[|actions|].entries[k].future;
            f.closes <= 1 && (f.closes == 1 ==> f.result.Some?)
  {
    AlwaysInv(actions, states);
  }

  /** The first result wins: a completed future never changes its result. */
  lemma {:induction false} FirstResultWins(s: State, a: Action, k: nat)
    requires Inv(s) && Enabled(s, a) && k in s.entries && s.entries[k].Call? && s.entries[k].future.result.Some?
    ensures var s' := Next(s, a);
            k in s'.entries && s'.entries[k].Call? && s'.entries[k].future.result == s.entries[k].future.result
  {
    hide Owed, Covered, Once, Notified, Bodies, Streams, LoopFits;
    StepGrows(s, a);
    if a.LoopWork? {
      WorkFacts(s.entries, s.loop.task, a.drop);
      hide Work;
    } else if a.DrainWork? {
      WorkFacts(s.entries, s.drain.task, false);
      hide Work;
    } else {
      ResultsStay(s, a);
      hide Next;
    }
  }

  /** A body reaches a caller only from an error-free response with that call's id. */
  lemma {:induction false} BodyIsOwn(actions: seq<Action>, states: seq<State>, k: nat)
    requires Behavior(actions, states)
    requires var s := states[|actions|];
             k in s.entries && s.entries[k].Call? && s.entries[k].future.result.Some? && s.entries[k].future.result.value.Body?
    ensures var s := states[|actions|]; FromMessage(s, k, s.entries[k].future.result.value.body)
  {
    AlwaysInv(actions, states);
  }

  /** When Recv reports the terminal state, every frame accepted before termination has already been
      received, and in the order in which the frames were pushed. */
  lemma {:induction false} FramesBeforeTheEnd(actions: seq<Action>, states: seq<State>, k: nat)
    requires Behavior(actions, states) && Enabled(states[|actions|], RecvEnd(k))
    ensures var st := states[|actions|].entries[k].stream; st.accepted <= st.got
  {
    AlwaysInv(actions, states);
    var st := states[|actions|].entries[k].stream;
    assert st.got + st.channel == st.got;
  }

  /** While a stream is neither cancelled nor terminated, every frame that arrived for it has been
      received or is buffered, in order, but for one still being pushed; and that is what had been
      accepted at termination. */
  lemma {:induction false} NothingDropped(actions: seq<Action>, states: seq<State>, k: nat)
    requires Behavior(actions, states)
    requires var s := states[|actions|]; k in s.entries && s.entries[k].Conn? && !s.entries[k].stream.cancelled
    ensures var st := states[|actions|].entries[k].stream;
            if st.term.None? then st.got + st.channel <= st.arrived && |st.arrived| <= |st.got| + |st.channel| + 1
            else st.accepted <= st.seen && |st.seen| <= |st.accepted| + 1
  {
    AlwaysInv(actions, states);
  }

  // ---- Progress ----

  /** How far the drain is from its end: the part it is in, the keys it still has to visit, and the work on
      the key in hand. */
  function Part(d: Drain): nat {
    match d
    case NotStarted => 4
    case ClosingConn(_) => 3
    case Ranging(kind, _, _) => if kind.Unary? then 2 else 1
    case Visiting(kind, _, _, _, _) => if kind.Unary? then 2 else 1
    case Drained => 0
  }

  function ToVisit(s: State): set<nat> {
    if s.drain.Ranging? || s.drain.Visiting? then s.drain.must * s.table else {}
  }

  function Rest(t: Task): nat {
    match t
    case Commit(_, _) => 3
    case Notify(_, _) => 2
    case Finished => 0
    case _ => 1
  }

  function InHandLeft(s: State): nat {
    match s.drain
    case Ranging(_, _, _) => 5
    case Visiting(_, _, _, k, task) => Rest(task) + if k in ToVisit(s) then 0 else 6
    case _ => 0
  }

  ghost predicate Closer(s: State, t: State) {
    || Part(t.drain) < Part(s.drain)
    || (Part(t.drain) == Part(s.drain) &&
         (|ToVisit(t)| < |ToVisit(s)| || (|ToVisit(t)| == |ToVisit(s)| && InHandLeft(t) < InHandLeft(s))))
  }

  lemma {:induction false} RangeGoesOn(s: State) returns (a: Action)
    requires DrainFits(s) && s.drain.Ranging?
    ensures Draining(a) && Enabled(s, a) && Closer(s, Next(s, a))
  {
    if s.drain.must !! s.table {
      a := RangeEnds;
    } else {
      var k :| k in s.drain.must && k in s.table;
      a := Visit(k);
      assert ToVisit(Next(s, a)) == ToVisit(s);
    }
  }

  lemma {:induction false} VisitGoesOn(s: State) returns (a: Action)
    requires DrainFits(s) && s.drain.Visiting?
    ensures Draining(a) && Enabled(s, a) && Closer(s, Next(s, a))
  {
    if s.drain.task.Finished? {
      a := DrainDelete;
      AheadShrinks(s);
    } else {
      a := DrainWork;
      WorkRests(s.entries, s.drain.task);
      hide Work;
      assert ToVisit(Next(s, a)) == ToVisit(s);
    }
  }

  lemma {:induction false} WorkRests(entries: map<nat, Entry>, t: Task)
    requires CanWork(entries, t, false)
    ensures Rest(Work(entries, t, false).1) < Rest(t)
  {
  }

  /** The shutdown in progress can always go on, and comes closer to its end. */
  lemma {:induction false} DrainGoesOn(s: State) returns (a: Action)
    requires Inv(s) && s.closed && !s.drain.Drained?
    ensures Draining(a) && Enabled(s, a) && Closer(s, Next(s, a))
  {
    if s.drain.ClosingConn? {
      a := ConnClosed;
    } else if s.drain.Ranging? {
      a := RangeGoesOn(s);
    } else {
      a := VisitGoesOn(s);
    }
  }

  lemma {:induction false} AheadShrinks(s: State)
    requires s.drain.Visiting? && Enabled(s, DrainDelete)
    ensures var t := Next(s, DrainDelete);
            if s.drain.id in ToVisit(s) then |ToVisit(t)| < |ToVisit(s)| else ToVisit(t) == ToVisit(s)
  {
    var t := Next(s, DrainDelete);
    assert ToVisit(t) == ToVisit(s) - {s.drain.id};
  }

  /** A run of the drain alone. */
  ghost predicate DrainRun(s: State, run: seq<Action>, t: State)
    decreases |run|
  {
    if run == [] then s == t
    else Draining(run[0]) && Enabled(s, run[0]) && DrainRun(Next(s, run[0]), run[1..], t)
  }

  /** Nobody can keep a shutdown from ending: wherever it stands, whatever callers and the read loop have done,
      finitely many steps of its own finish it. */
  lemma {:induction false} DrainFinishes(s: State) returns (run: seq<Action>, t: State)
    requires Inv(s) && s.closed
    ensures DrainRun(s, run, t) && t.drain.Drained? && Inv(t)
    decreases Part(s.drain), |ToVisit(s)|, InHandLeft(s)
  {
    hide Inv, Next, Enabled, Draining;
    if s.drain.Drained? {
      run, t := [], s;
      return;
    }
    var a := DrainGoesOn(s);
    InvStep(s, a);
    assert Next(s, a).closed by { StaysClosed(s, a); }
    var rest;
    rest, t := DrainFinishes(Next(s, a));
    run := [a] + rest;
  }

  lemma {:induction false} StaysClosed(s: State, a: Action)
    requires Enabled(s, a) && Draining(a) && s.closed
    ensures Next(s, a).closed
  {
  }

  /** Once the drain has finished, what a caller holds is settled or about to be settled by the read loop. */
  lemma {:induction false} ReturnedSettled(s: State, c: nat, k: nat)
    requires Inv(s) && s.drain.Drained? && HasId(s, c, k) && s.senders[c].pc.Returned? && !InHand(s, k)
    ensures Settled(s, k)
  {
    hide Numbering, DrainFits, LoopFits, Once, Notified, Bodies, Streams;
    assert k in s.table ==> Ahead(s, k);
  }

  /** Once the drain has finished the read loop can go on with what it has in hand, unless it pushes to a full
      stream that no caller holds. */
  lemma {:induction false} LoopGoesOn(actions: seq<Action>, states: seq<State>)
    requires Behavior(actions, states)
    requires var s := states[|actions|]; s.drain.Drained? && s.loop.Busy?
    ensures var s := states[|actions|];
            || (exists drop :: Enabled(s, LoopWork(drop)))
            || (s.loop.task.Push? && forall c: nat :: HasId(s, c, s.loop.task.id) ==> !s.senders[c].pc.Returned?)
  {
    AlwaysInv(actions, states);
    hide Numbering, Owed, Covered, Once, Notified, Bodies, DrainFits, Streams, Next;
    var s := states[|actions|];
    var task := s.loop.task;
    if !task.Push? {
      assert Enabled(s, LoopWork(false));
    } else if exists c: nat :: HasId(s, c, task.id) && s.senders[c].pc.Returned? {
      var c: nat :| HasId(s, c, task.id) && s.senders[c].pc.Returned?;
      ReturnedSettled(s, c, task.id);
      assert Enabled(s, LoopWork(true));
    }
  }
}
