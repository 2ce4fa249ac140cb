/** Futures and streams as objects: a method called without interference does what the steps of the
    client protocol do one after the other. */
module RpcObjects {
  import opened Options
  import opened RpcClient

  function Steps(t: Task): nat {
    match t
    case Commit(_, _) => 3
    case Notify(_, _) => 2
    case Finished => 0
    case _ => 1
  }

  /** A task carried through to its end. */
  function Run(entries: map<nat, Entry>, t: Task): map<nat, Entry>
    decreases Steps(t)
  {
    if t.Finished? || !CanWork(entries, t, false) then entries
    else var (after, rest) := Work(entries, t, false); Run(after, rest)
  }

  class FutureObject {
    var result: Option<Outcome>
    var onComplete: Option<nat>
    var doneClosed: bool

    // The callbacks that have run, and those among them that were registered after completion.
    ghost var called: seq<nat>
    ghost var late: multiset<nat>

    /** Between calls the done channel is closed exactly when there is a result. */
    ghost predicate Valid()
      reads this
    {
      doneClosed <==> result.Some?
    }

    ghost function Value(): Future
      reads this
    {
      Future(result, onComplete, called, late, if doneClosed then 1 else 0)
    }

    constructor ()
      ensures Valid() && Call(Value()) == NewEntry(Unary)
    {
      result, onComplete, doneClosed, called, late := None, None, false, [], multiset{};
    }

    /** Closing the channel twice would panic. */
    method CloseDone()
      requires !doneClosed
      modifies this`doneClosed
      ensures doneClosed
    {
      doneClosed := true;
    }

    method Done(outcome: Outcome)
      requires Valid()
      modifies this
      ensures Valid() && map[0 := Call(Value())] == Run(map[0 := Call(old(Value()))], Commit(0, outcome))
      ensures result == if old(result).Some? then old(result) else Some(outcome)
    {
      if result.Some? {
        return;
      }
      ghost var start := map[0 := Call(Value())];
      result := Some(outcome);
      ghost var committed := map[0 := Call(Value())];
      assert start[0 := Call(Value())] == committed;
      if onComplete.Some? {
        called := called + [onComplete.value];
      }
      ghost var notified := map[0 := Call(Value())];
      assert committed[0 := Call(Value())] == notified;
      CloseDone();
      ghost var closed := map[0 := Call(Value())];
      assert notified[0 := Call(Value())] == closed;
      assert Run(closed, Finished) == closed;
      assert Run(notified, Task.CloseDone(0)) == closed;
      assert Run(committed, Notify(0, onComplete)) == closed;
      assert Run(start, Commit(0, outcome)) == closed;
    }

    method OnComplete(callback: nat)
      requires Valid()
      modifies this
      ensures Valid() && Value() == Registered(old(Value()), callback)
    {
      if result.None? {
        onComplete := Some(callback);
        return;
      }
      called, late := called + [callback], late + multiset{callback};
    }

    /** Once the channel is closed. */
    method Wait() returns (outcome: Outcome)
      requires Valid() && doneClosed
      ensures Value().result == Some(outcome)
    {
      outcome := result.value;
    }
  }

  datatype Received = Frame(body: Bytes) | Ended(error: string) | Cancelled

  class ClientStreamConn {
    var ch: seq<Bytes>
    var termErr: Option<string>
    var cancelled: bool

    ghost var got: seq<Bytes>
    ghost var arrived: seq<Bytes>
    ghost var accepted: seq<Bytes>
    ghost var seen: seq<Bytes>

    ghost function Value(): Stream
      reads this
    {
      Stream(ch, termErr, cancelled, got, arrived, accepted, seen)
    }

    constructor ()
      ensures Conn(Value()) == NewEntry(Streaming)
    {
      ch, termErr, cancelled := [], None, false;
      got, arrived, accepted, seen := [], [], [], [];
    }

    /** The select takes any way out that is ready; `drop` tells whether it takes one other than sending. */
    method Push(body: Bytes, drop: bool)
      requires CanWork(map[0 := Conn(Value())], Task.Push(0, body), drop)
      modifies this`ch
      ensures map[0 := Conn(Value())] == Work(map[0 := Conn(old(Value()))], Task.Push(0, body), drop).0
      ensures |ch| <= if drop then |old(ch)| else CHANNEL_CAPACITY
    {
      if !drop {
        ch := ch + [body];
      }
    }

    /** Only the first terminal state counts. */
    method Terminate(error: string)
      modifies this`termErr, this`accepted, this`seen
      ensures map[0 := Conn(Value())] == Run(map[0 := Conn(old(Value()))], Task.Terminate(0, error))
      ensures termErr == if old(termErr).Some? then old(termErr) else Some(error)
    {
      if termErr == None {
        termErr := Some(error);
        accepted, seen := got + ch, arrived;
      }
    }

    /** A buffered frame goes before any terminal state; `noticed` tells whether a cancelled context is
        noticed first when both are there. */
    method Recv(noticed: bool) returns (r: Received)
      requires ch != [] || termErr.Some? || cancelled
      modifies this`ch, this`got
      ensures if old(ch) != [] then r == Frame(old(ch)[0]) && Value() == Taken(old(Value()))
              else Value() == old(Value()) && r == if termErr.Some? && !(cancelled && noticed) then Ended(termErr.value) else Cancelled
    {
      if |ch| > 0 {
        r := Frame(ch[0]);
        ch, got := ch[1..], got + [ch[0]];
      } else if termErr.Some? && !(cancelled && noticed) {
        r := Ended(termErr.value);
      } else {
        r := Cancelled;
      }
    }
  }
}
