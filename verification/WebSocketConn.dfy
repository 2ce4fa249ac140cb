/** The connection object: reading consumes the input step by step, writing appends to the output. */
module WebSocketConn {
  import opened ByteStrings
  import opened WebSocket
  import W = WebSocket

  class WSConn {
    // What the peer has sent and not been read yet, and what was written to the peer.
    var input: bytes
    var output: bytes
    var maxMessageSize: int

    constructor (input: bytes, maxMessageSize: int)
      ensures this.input == input && this.maxMessageSize == maxMessageSize && output == []
    {
      this.input, this.maxMessageSize, this.output := input, maxMessageSize, [];
    }

    /** Fills the buffer from the input, or takes all there is and fails. */
    method ReadFull(buf: array<byte>) returns (err: Outcome)
      modifies this`input, buf
      ensures if |old(input)| >= buf.Length
              then err == Fine && buf[..] == old(input)[..buf.Length] && input == old(input)[buf.Length..]
              else err.Err? && Cut(old(input)) == Bad(err.error, input)
    {
      if |input| < buf.Length {
        err := Err(if |input| == 0 then Eof else UnexpectedEof);
        input := [];
        return;
      }
      forall i | 0 <= i < buf.Length {
        buf[i] := input[i];
      }
      input := input[buf.Length..];
      err := Fine;
    }

    method ReadFrameHeader() returns (opcode: nat, fin: bool, length: nat, err: Outcome)
      modifies this`input
      ensures match err
              case Fine => W.ReadFrame(old(input), Limit(maxMessageSize)) == W.ReadLength(opcode, fin, length, input, Limit(maxMessageSize))
              case Err(e) => W.ReadFrame(old(input), Limit(maxMessageSize)) == Bad(e, input)
    {
      hide ReadLength;
      var header := new byte[2];
      opcode, fin, length := 0, false, 0;
      err := ReadFull(header);
      if err.Err? {
        return;
      }
      assert header[..][0] == header[0] && header[..][1] == header[1];
      fin := header[0] >= 128;
      if header[0] / 16 % 8 != 0 {
        err := Err(InvalidFrame);
        return;
      }
      opcode := header[0] % 16;
      var masked := header[1] >= 128;
      length := header[1] % 128;
      if IsControl(opcode) {
        if !fin || length > 125 {
          err := Err(InvalidFrame);
          return;
        }
      } else if opcode != CONTINUATION && !IsData(opcode) {
        err := Err(InvalidFrame);
        return;
      }
      if !masked {
        err := Err(InvalidFrame);
      }
    }

    method ReadExtendedLength(opcode: nat, fin: bool, length: nat) returns (full: nat, err: Outcome)
      modifies this`input
      ensures match err
              case Fine => ReadLength(opcode, fin, length, old(input), Limit(maxMessageSize)) == ReadPayload(opcode, fin, full, input, Limit(maxMessageSize))
              case Err(e) => ReadLength(opcode, fin, length, old(input), Limit(maxMessageSize)) == Bad(e, input)
    {
      hide ReadPayload;
      full, err := length, Fine;
      if length == 126 {
        var ext := new byte[2];
        err := ReadFull(ext);
        full := Be(ext[..]);
      } else if length == 127 {
        var ext := new byte[8];
        err := ReadFull(ext);
        full := Be(ext[..]);
      }
    }

    method ReadFrame() returns (opcode: nat, fin: bool, payload: bytes, err: Outcome)
      modifies this`input
      ensures match W.ReadFrame(old(input), Limit(maxMessageSize))
              case Frame(o, f, p, rest) => err == Fine && opcode == o && fin == f && payload == p && input == rest
              case Bad(e, left) => err == Err(e) && input == left
    {
      hide W.ReadFrame, ReadLength;
      var length: nat;
      payload := [];
      opcode, fin, length, err := ReadFrameHeader();
      if err.Err? {
        return;
      }
      length, err := ReadExtendedLength(opcode, fin, length);
      if err.Err? {
        return;
      }
      if length > Limit(maxMessageSize) {
        err := Err(InvalidFrame);
        return;
      }
      var maskKey := new byte[4];
      err := ReadFull(maskKey);
      if err.Err? {
        return;
      }
      var data := new byte[length];
      err := ReadFull(data);
      if err.Err? {
        return;
      }
      Unmask(data, maskKey[..]);
      payload := data[..];
    }

    /** Unmasks in place. */
    static method Unmask(data: array<byte>, mask: bytes)
      requires |mask| == 4
      modifies data
      ensures data[..] == Masked(old(data[..]), mask)
    {
      for i := 0 to data.Length
        invariant data[..i] == Masked(old(data[..]), mask)[..i]
        invariant data[i..] == old(data[i..])
      {
        assert data[i] == data[i..][0] == old(data[..])[i];
        data[i] := Xor(data[i], mask[i % 4]);
      }
    }

    method ReadMessage() returns (opcode: nat, payload: bytes, err: Outcome)
      modifies this`input
      ensures match W.ReadMessage(old(input), Limit(maxMessageSize))
              case Message(o, p, rest) => err == Fine && opcode == o && payload == p && input == rest
              case Failed(e, left) => err == Err(e) && input == left
    {
      hide W.ReadFrame;
      var msgType: nat, buf: bytes := 0, [];
      while true
        invariant Collect(input, Limit(maxMessageSize), msgType, buf) == W.ReadMessage(old(input), Limit(maxMessageSize))
        invariant msgType == 0 ==> buf == []
        decreases |input|
      {
        var code, fin, data, error := ReadFrame();
        if error.Err? {
          return 0, [], error;
        }
        if IsControl(code) {
          return code, data, Fine;
        } else if code == CONTINUATION {
          if msgType == 0 || |buf| + |data| > Limit(maxMessageSize) {
            return 0, [], Err(InvalidFrame);
          }
          buf := buf + data;
          if fin {
            return msgType, buf, Fine;
          }
        } else {
          if msgType != 0 {
            return 0, [], Err(InvalidFrame);
          }
          if fin {
            return code, data, Fine;
          }
          msgType, buf := code, buf + data;
          assert buf == data;
        }
      }
    }

    /** The read loop of a server: every message is handed on, pings and a close are answered. */
    method Listen() returns (items: seq<Item>, err: Outcome)
      modifies this`input, this`output
      ensures items == ReadAll(old(input), Limit(maxMessageSize))
      ensures output == old(output) + Replies(items)
      ensures err == Fine <==> items != [] && items[|items| - 1].opcode == CLOSE
    {
      hide W.ReadMessage, Reply, ReadAll, Replies, Collect, W.ReadFrame, IsControl, Limit;
      RepliesNone();
      items := [];
      assert old(output) + [] == old(output);
      while true
        invariant items + ReadAll(input, Limit(maxMessageSize)) == ReadAll(old(input), Limit(maxMessageSize))
        invariant output == old(output) + Replies(items)
        invariant items != [] ==> items[|items| - 1].opcode != CLOSE
        decreases |input|
      {
        ghost var unread, sofar := input, items;
        var opcode, payload, error := ReadMessage();
        ReadAllTurn(unread, Limit(maxMessageSize));
        if error.Err? {
          assert items + [] == items;
          return items, error;
        }
        MessageBounded(unread, Limit(maxMessageSize));
        items := items + [Item(opcode, payload)];
        Answer(opcode, payload);
        RepliesMore(sofar, Item(opcode, payload));
        if opcode == CLOSE {
          return items, Fine;
        }
        RegroupItems(sofar, Item(opcode, payload), ReadAll(input, Limit(maxMessageSize)));
      }
    }

    method Answer(opcode: nat, payload: bytes)
      requires opcode == PING ==> |payload| <= 125
      modifies this`output
      ensures output == old(output) + Reply(Item(opcode, payload))
    {
      if opcode == PING {
        WriteFrame(PONG, payload);
      } else if opcode == CLOSE {
        var code := if |payload| < 2 then CLOSE_NORMAL else Be(payload[..2]);
        WriteFrame(CLOSE, FormatClose(code, []));
      }
    }

    method WriteFrame(opcode: nat, payload: bytes)
      requires opcode < 16 && Fits(Long, |payload|)
      modifies this`output
      ensures output == old(output) + ServerWire(opcode, payload)
    {
      var length := |payload|;
      var header: array<byte>;
      if length <= 125 {
        header := new byte[2];
        header[0], header[1] := 128 + opcode, length;
      } else if length <= 65535 {
        header := new byte[4];
        header[0], header[1] := 128 + opcode, 126;
        PutBigEndian(header, 2, length);
      } else {
        header := new byte[10];
        header[0], header[1] := 128 + opcode, 127;
        PutBigEndian(header, 8, length);
      }
      output := output + (header[..] + payload);
      assert header[..] == [128 + opcode] + LengthBytes(Minimal(length), 0, length);
    }

    /** Writes a number after the first two bytes. */
    static method PutBigEndian(header: array<byte>, n: nat, v: nat)
      requires header.Length == 2 + n
      modifies header
      ensures header[..] == old(header[..2]) + PutBe(n, v)
    {
      var rest: nat, i := v, n;
      while i > 0
        invariant 0 <= i <= n && header[..2] == old(header[..2])
        invariant PutBe(n, v) == PutBe(i, rest) + header[2 + i..]
      {
        ghost var whole := rest;
        header[1 + i] := rest % 256;
        i, rest := i - 1, rest / 256;
        assert PutBe(i + 1, whole) == PutBe(i, rest) + [whole % 256];
      }
      assert PutBe(0, rest) == [];
    }
  }

  lemma {:induction false} RegroupItems(items: seq<Item>, item: Item, more: seq<Item>)
    ensures items + ([item] + more) == (items + [item]) + more
  {
  }
}
