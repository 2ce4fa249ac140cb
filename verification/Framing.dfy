/** The RPC wire format and the resynchronising parser that cuts a byte stream into frames. */
module Framing {
  import opened ByteStrings
  import opened Options

  const TWO_32 := 0x1_0000_0000

  // ---- Numbers ----

  function U32(b: bytes): (n: nat)
    requires |b| == 4
    ensures n < TWO_32
  {
    PutBeOf(b);
    Powers();
    Be(b)
  }

  function PutU32(n: nat): (b: bytes)
    requires n < TWO_32
    ensures |b| == 4 && U32(b) == n
  {
    Powers();
    BePut(4, n);
    PutBe(4, n)
  }

  // ---- Frames ----

  const MAGIC: bytes := [0x12, 0x34]

  predicate AtMagic(b: bytes) {
    |b| >= 2 && b[0] == 0x12 && b[1] == 0x34
  }

  function FrameLen(b: bytes): (n: nat)
    requires |b| >= 10
    ensures n >= 10
  {
    10 + U32(b[2..6]) + U32(b[6..10])
  }

  function Frame(header: bytes, body: bytes): bytes
    requires |header| < TWO_32 && |body| < TWO_32
  {
    MAGIC + PutU32(|header|) + PutU32(|body|) + header + body
  }

  // ---- The parser, on values ----

  /** Garbage before the next magic number is dropped; a last single byte stays, it may be half of one. */
  function Skip(b: bytes): (r: bytes)
    ensures |r| <= |b| && (|r| >= 2 ==> AtMagic(r))
  {
    if |b| >= 2 && !AtMagic(b) then Skip(b[1..]) else b
  }

  /** One packet and what remains, or no packet and what is kept for later. */
  function ReadOne(b: bytes): (r: (Option<bytes>, bytes))
    ensures r.0.Some? ==> |r.1| < |b|
  {
    var s := Skip(b);
    if |s| < 10 || |s| < FrameLen(s) then (None, s) else (Some(s[..FrameLen(s)]), s[FrameLen(s)..])
  }

  /** All packets of a byte sequence, greedily, and what is kept for later. */
  function Parse(b: bytes): (seq<bytes>, bytes)
    decreases |b|
  {
    match ReadOne(b)
    case (None, rest) => ([], rest)
    case (Some(p), rest) => var (ps, last) := Parse(rest); ([p] + ps, last)
  }

  // ---- Chunking does not matter ----

  lemma {:induction false} SkipAppend(a: bytes, b: bytes)
    ensures if AtMagic(Skip(a)) then Skip(a + b) == Skip(a) + b else Skip(a + b) == Skip(Skip(a) + b)
  {
    if |a| >= 2 && !AtMagic(a) {
      assert (a + b)[1..] == a[1..] + b;
      SkipAppend(a[1..], b);
    }
  }

  lemma {:induction false} ReadAppend(a: bytes, b: bytes)
    ensures match ReadOne(a)
            case (Some(p), rest) => ReadOne(a + b) == (Some(p), rest + b)
            case (None, rest) => ReadOne(a + b) == ReadOne(rest + b)
  {
    var s := Skip(a);
    SkipAppend(a, b);
    if AtMagic(s) {
      assert Skip(s + b) == s + b;
      if |s| >= 10 {
        assert (s + b)[2..6] == s[2..6] && (s + b)[6..10] == s[6..10];
        var n := FrameLen(s);
        if |s| >= n {
          assert (s + b)[..n] == s[..n] && (s + b)[n..] == s[n..] + b;
        }
      }
    }
  }

  /** Parsing more input continues from what was kept. */
  lemma {:induction false} ParseAppend(a: bytes, b: bytes)
    ensures var (ps, kept) := Parse(a);
            var (more, last) := Parse(kept + b);
            Parse(a + b) == (ps + more, last)
    decreases |a|
  {
    ReadAppend(a, b);
    match ReadOne(a)
    case (None, kept) =>
      assert [] + Parse(kept + b).0 == Parse(kept + b).0;
    case (Some(p), rest) =>
      ParseAppend(rest, b);
      var (ps, kept) := Parse(rest);
      var more := Parse(kept + b).0;
      assert [p] + (ps + more) == ([p] + ps) + more;
  }

  function Concat(chunks: seq<bytes>): bytes {
    if chunks == [] then [] else chunks[0] + Concat(chunks[1..])
  }

  /** Writing chunks one after another and draining the packets in between. */
  function Feed(kept: bytes, chunks: seq<bytes>): (seq<bytes>, bytes)
    decreases |chunks|
  {
    if chunks == [] then ([], kept)
    else
      var (ps, kept') := Parse(kept + chunks[0]);
      var (more, last) := Feed(kept', chunks[1..]);
      (ps + more, last)
  }

  lemma {:induction false} FeedParse(kept: bytes, chunks: seq<bytes>)
    requires Parse(kept) == ([], kept)
    ensures Feed(kept, chunks) == Parse(kept + Concat(chunks))
    decreases |chunks|
  {
    hide Parse;
    if chunks == [] {
      assert kept + [] == kept;
    } else {
      var (ps, kept') := Parse(kept + chunks[0]);
      Drained(kept + chunks[0]);
      FeedParse(kept', chunks[1..]);
      ParseAppend(kept + chunks[0], Concat(chunks[1..]));
      assert (kept + chunks[0]) + Concat(chunks[1..]) == kept + Concat(chunks);
    }
  }

  /** What is kept contains no further packet. */
  lemma {:induction false} Drained(b: bytes)
    ensures Parse(Parse(b).1) == ([], Parse(b).1)
    decreases |b|
  {
    match ReadOne(b)
    case (None, kept) => assert Skip(kept) == kept;
    case (Some(_), rest) => Drained(rest);
  }

  /** Stream framing is independent of chunking: the packets of any split of a byte stream are those
      of one greedy parse of the whole. */
  lemma {:induction false} ChunkingIrrelevant(chunks: seq<bytes>)
    ensures Feed([], chunks) == Parse(Concat(chunks))
  {
    assert [] + Concat(chunks) == Concat(chunks);
    FeedParse([], chunks);
  }

  // ---- Frames survive garbage ----

  predicate NoMagic(g: bytes) {
    forall i :: 0 <= i < |g| - 1 ==> !(g[i] == 0x12 && g[i + 1] == 0x34)
  }

  lemma {:induction false} SkipGarbage(g: bytes, f: bytes)
    requires NoMagic(g) && AtMagic(f)
    ensures Skip(g + f) == f
  {
    if g == [] {
      assert g + f == f;
    } else {
      assert (g + f)[1..] == g[1..] + f;
      assert NoMagic(g[1..]);
      SkipGarbage(g[1..], f);
    }
  }

  lemma {:induction false} FrameLength(header: bytes, body: bytes, rest: bytes)
    requires |header| < TWO_32 && |body| < TWO_32
    ensures var f := Frame(header, body);
            |f| == 10 + |header| + |body| && AtMagic(f + rest) && FrameLen(f + rest) == |f|
  {
    var f := Frame(header, body) + rest;
    assert f[2..6] == PutU32(|header|) && f[6..10] == PutU32(|body|);
  }

  /** A frame behind garbage is read as it was written. */
  lemma {:induction false} ReadFrame(g: bytes, header: bytes, body: bytes, rest: bytes)
    requires NoMagic(g) && |header| < TWO_32 && |body| < TWO_32
    ensures ReadOne(g + Frame(header, body) + rest) == (Some(Frame(header, body)), rest)
  {
    hide Frame, NoMagic;
    var f := Frame(header, body);
    FrameLength(header, body, rest);
    SkipGarbage(g, f + rest);
    hide Skip, AtMagic, FrameLen;
    assert g + f + rest == g + (f + rest);
    assert (f + rest)[..|f|] == f && (f + rest)[|f|..] == rest;
  }

  datatype Item = Item(garbage: bytes, header: bytes, body: bytes)

  predicate Sendable(items: seq<Item>) {
    forall i :: 0 <= i < |items| ==> NoMagic(items[i].garbage) && |items[i].header| < TWO_32 && |items[i].body| < TWO_32
  }

  function Wire(items: seq<Item>, tail: bytes): bytes
    requires Sendable(items)
  {
    if items == [] then tail
    else items[0].garbage + Frame(items[0].header, items[0].body) + Wire(items[1..], tail)
  }

  function Frames(items: seq<Item>): seq<bytes>
    requires Sendable(items)
  {
    if items == [] then [] else [Frame(items[0].header, items[0].body)] + Frames(items[1..])
  }

  lemma {:induction false} SkipAll(g: bytes)
    requires NoMagic(g)
    ensures |Skip(g)| <= 1
  {
    if |g| >= 2 {
      assert NoMagic(g[1..]);
      SkipAll(g[1..]);
    }
  }

  /** Any concatenation of frames, with garbage before, between and after them that is free of the magic
      pair, parses to exactly those frames, keeping at most one byte. */
  lemma {:induction false} WireParses(items: seq<Item>, tail: bytes)
    requires Sendable(items) && NoMagic(tail)
    ensures Parse(Wire(items, tail)).0 == Frames(items) && |Parse(Wire(items, tail)).1| <= 1
    decreases |items|
  {
    if items == [] {
      SkipAll(tail);
    } else {
      ReadFrame(items[0].garbage, items[0].header, items[0].body, Wire(items[1..], tail));
      WireParses(items[1..], tail);
    }
  }

  // ---- Decode ----

  datatype Decoded = Parts(header: bytes, body: bytes) | TooShort | BadMagic | Incomplete | SliceFault

  /** The framing part of Decode. The slice bounds are computed in 32 bits, as in the source. */
  function DecodeParts(data: bytes): Decoded {
    if |data| < 10 then TooShort
    else if !AtMagic(data) then BadMagic
    else
      var h, b := U32(data[2..6]), U32(data[6..10]);
      if |data| < 10 + h + b then Incomplete
      else
        var headerEnd, bodyEnd := (10 + h) % TWO_32, (10 + h + b) % TWO_32;
        if 10 <= headerEnd <= bodyEnd <= |data| then Parts(data[10..headerEnd], data[headerEnd..bodyEnd]) else SliceFault
  }

  /** Every packet the parser returns passes Decode's framing checks; its slices are in range exactly
      when the frame is shorter than 2^32 bytes. */
  lemma {:induction false} PacketsDecode(b: bytes, i: nat)
    requires i < |Parse(b).0|
    ensures var p := Parse(b).0[i];
            && |p| >= 10 && AtMagic(p) && |p| == FrameLen(p)
            && (DecodeParts(p).Parts? <==> |p| < TWO_32)
            && (DecodeParts(p).Parts? || DecodeParts(p) == SliceFault)
    decreases |b|
  {
    var (p, rest) := ReadOne(b);
    if i == 0 {
      var s := Skip(b);
      var q := p.value;
      assert q[2..6] == s[2..6] && q[6..10] == s[6..10];
      SlicesInRange(U32(q[2..6]), U32(q[6..10]));
    } else {
      PacketsDecode(rest, i - 1);
    }
  }

  lemma {:induction false} SlicesInRange(h: nat, b: nat)
    requires h < TWO_32 && b < TWO_32
    ensures var e, f := (10 + h) % TWO_32, (10 + h + b) % TWO_32;
            if 10 + h + b < TWO_32 then e == 10 + h && f == 10 + h + b else !(10 <= e <= f)
  {
  }

  lemma {:induction false} DecodeFrame(header: bytes, body: bytes)
    requires 10 + |header| + |body| < TWO_32
    ensures DecodeParts(Frame(header, body)) == Parts(header, body)
  {
    var f := Frame(header, body);
    FrameLength(header, body, []);
    assert f + [] == f;
    SlicesInRange(|header|, |body|);
    assert f[2..6] == PutU32(|header|) && f[6..10] == PutU32(|body|);
    assert f[10..10 + |header|] == header && f[10 + |header|..] == body;
  }

  // ---- Messages ----

  /** The header codec and the compressors, which the framing treats as given. Compression 0 is none. */
  datatype Codec<!H> = Codec(
    marshal: H -> bytes,
    unmarshal: bytes -> Option<H>,
    compression: H -> nat,
    compress: (bytes, nat) -> Option<bytes>,
    decompress: (bytes, nat) -> Option<bytes>)

  ghost predicate Inverse<H(!new)>(c: Codec<H>) {
    && (forall h :: c.unmarshal(c.marshal(h)) == Some(h))
    && (forall b, k, z :: c.compress(b, k) == Some(z) ==> c.decompress(z, k) == Some(b))
  }

  datatype Message<H> = Message(header: H, body: bytes)

  /** Only a compressor can fail. */
  function PackedBody<H>(c: Codec<H>, m: Message<H>): (packed: Option<bytes>)
    ensures packed.None? ==> c.compression(m.header) != 0 && c.compress(m.body, c.compression(m.header)).None?
  {
    if c.compression(m.header) == 0 then Some(m.body) else c.compress(m.body, c.compression(m.header))
  }

  /** Fills the frame buffer in place: magic, two lengths, header bytes, body bytes. */
  method Encode<H>(c: Codec<H>, m: Message<H>) returns (data: Option<bytes>)
    requires PackedBody(c, m).Some? ==> 10 + |c.marshal(m.header)| + |PackedBody(c, m).value| < TWO_32
    ensures data == match PackedBody(c, m) case None => None case Some(b) => Some(Frame(c.marshal(m.header), b))
  {
    var packed := PackedBody(c, m);
    if packed.None? {
      return None;
    }
    var headerBytes, bodyBytes := c.marshal(m.header), packed.value;
    var headerLen, bodyLen := |headerBytes|, |bodyBytes|;
    var buf := new byte[2 + 4 + 4 + headerLen + bodyLen](_ => 0);
    ghost var blank := buf[..];
    PutAt(buf, 0, MAGIC);
    PutAt(buf, 2, PutU32(headerLen));
    PutAt(buf, 6, PutU32(bodyLen));
    PutAt(buf, 10, headerBytes);
    PutAt(buf, 10 + headerLen, bodyBytes);
    Assembled(blank, headerBytes, bodyBytes);
    return Some(buf[..]);
  }

  function Overlay(s: bytes, at: nat, src: bytes): (r: bytes)
    requires at + |src| <= |s|
    ensures |r| == |s|
  {
    s[..at] + src + s[at + |src|..]
  }

  method PutAt(buf: array<byte>, at: nat, src: bytes)
    requires at + |src| <= buf.Length
    modifies buf
    ensures buf[..] == Overlay(old(buf[..]), at, src)
  {
    for i := 0 to |src|
      invariant forall k :: 0 <= k < buf.Length ==> buf[k] == if at <= k < at + i then src[k - at] else old(buf[k])
    {
      buf[at + i] := src[i];
    }
  }

  /** The five copies together make up the frame, whatever the buffer held. */
  lemma {:induction false} Assembled(blank: bytes, header: bytes, body: bytes)
    requires |header| < TWO_32 && |body| < TWO_32 && |blank| == 10 + |header| + |body|
    ensures Overlay(Overlay(Overlay(Overlay(Overlay(blank, 0, MAGIC), 2, PutU32(|header|)), 6, PutU32(|body|)), 10, header), 10 + |header|, body)
            == Frame(header, body)
  {
    hide PutU32;
    var a := Overlay(Overlay(blank, 0, MAGIC), 2, PutU32(|header|));
    assert a[..6] == MAGIC + PutU32(|header|);
    var b := Overlay(a, 6, PutU32(|body|));
    assert b[..10] == MAGIC + PutU32(|header|) + PutU32(|body|);
  }

  function Decode<H>(c: Codec<H>, data: bytes): Option<Message<H>> {
    match DecodeParts(data)
    case Parts(headerBytes, bodyBytes) =>
      (match c.unmarshal(headerBytes)
       case None => None
       case Some(h) =>
         if c.compression(h) == 0 then Some(Message(h, bodyBytes))
         else
           match c.decompress(bodyBytes, c.compression(h))
           case None => None
           case Some(b) => Some(Message(h, b)))
    case _ => None
  }

  /** Round trip: an encoded message decodes to itself. */
  lemma {:induction false} RoundTrip<H(!new)>(c: Codec<H>, m: Message<H>)
    requires Inverse(c) && PackedBody(c, m).Some?
    requires 10 + |c.marshal(m.header)| + |PackedBody(c, m).value| < TWO_32
    ensures Decode(c, Frame(c.marshal(m.header), PackedBody(c, m).value)) == Some(m)
  {
    DecodeFrame(c.marshal(m.header), PackedBody(c, m).value);
  }

  lemma {:induction false} FrameIs(data: bytes)
    requires |data| >= 10 && AtMagic(data) && |data| >= FrameLen(data)
    ensures var h, n := U32(data[2..6]), FrameLen(data);
            data == Frame(data[10..10 + h], data[10 + h..n]) + data[n..]
  {
    Powers();
    PutBeOf(data[2..6]);
    PutBeOf(data[6..10]);
    var h, n := U32(data[2..6]), FrameLen(data);
    assert PutU32(h) == data[2..6] && PutU32(n - 10 - h) == data[6..10];
    hide U32, PutU32;
    assert MAGIC == data[..2];
    assert data == data[..2] + data[2..6] + data[6..10] + data[10..10 + h] + data[10 + h..n] + data[n..];
  }

  /** What the two parts of a frame say of a message. */
  ghost predicate Carries<H(!new)>(c: Codec<H>, header: bytes, body: bytes, m: Message<H>) {
    && c.unmarshal(header) == Some(m.header)
    && if c.compression(m.header) == 0 then body == m.body else c.decompress(body, c.compression(m.header)) == Some(m.body)
  }

  /** Nothing decodes but bytes that begin with a frame whose parts carry the message. */
  lemma {:induction false} DecodeOnlyFrames<H(!new)>(c: Codec<H>, data: bytes, m: Message<H>)
    ensures Decode(c, data) == Some(m) <==>
            exists header, body, more :: |header| < TWO_32 && |body| < TWO_32 && 10 + |header| + |body| < TWO_32
                                         && data == Frame(header, body) + more && Carries(c, header, body, m)
  {
    if Decode(c, data) == Some(m) {
      var h, b := U32(data[2..6]), U32(data[6..10]);
      SlicesInRange(h, b);
      FrameIs(data);
      var n := FrameLen(data);
      assert Carries(c, data[10..10 + h], data[10 + h..n], m);
    }
    forall header: bytes, body: bytes, more: bytes
      | |header| < TWO_32 && |body| < TWO_32 && 10 + |header| + |body| < TWO_32 && data == Frame(header, body) + more && Carries(c, header, body, m)
      ensures Decode(c, data) == Some(m)
    {
      PartsOfFrame(header, body, more);
    }
  }

  lemma {:induction false} PartsOfFrame(header: bytes, body: bytes, more: bytes)
    requires 10 + |header| + |body| < TWO_32
    ensures DecodeParts(Frame(header, body) + more) == Parts(header, body)
  {
    var data := Frame(header, body) + more;
    FrameLength(header, body, more);
    SlicesInRange(|header|, |body|);
    assert data[2..6] == PutU32(|header|) && data[6..10] == PutU32(|body|);
    assert data[10..10 + |header|] == header && data[10 + |header|..10 + |header| + |body|] == body;
  }

  // ---- The buffer and the connection ----

  class PacketBuffer {
    var buf: bytes

    constructor ()
      ensures buf == []
    {
      buf := [];
    }

    method Write(data: bytes)
      modifies this
      ensures buf == old(buf) + data
    {
      buf := buf + data;
    }

    /** The next complete packet, or none. */
    method Read() returns (packet: Option<bytes>)
      modifies this
      ensures (packet, buf) == ReadOne(old(buf))
    {
      while |buf| >= 2 && !AtMagic(buf)
        invariant Skip(buf) == Skip(old(buf))
        decreases |buf|
      {
        buf := buf[1..];
      }
      if |buf| < 10 {
        return None;
      }
      var totalLen := 10 + U32(buf[2..6]) + U32(buf[6..10]);
      if |buf| < totalLen {
        return None;
      }
      packet := Some(buf[..totalLen]);
      buf := buf[totalLen..];
    }
  }

  /** What reading a connection comes to: a message, a packet that cannot be decoded, or the error that ended the
      connection. */
  datatype Received<H> = Received(message: Message<H>) | Undecodable | Broken(error: int)

  function Outcome<H>(c: Codec<H>, packet: bytes): Received<H> {
    match Decode(c, packet)
    case Some(m) => Received(m)
    case None => Undecodable
  }

  /** Messages that were encoded and sent, with garbage before each that is free of the magic pair. */
  ghost predicate Sent<H(!new)>(c: Codec<H>, items: seq<Item>, ms: seq<Message<H>>) {
    && |items| == |ms| && Sendable(items)
    && forall i :: 0 <= i < |ms| ==>
         && items[i].header == c.marshal(ms[i].header) && PackedBody(c, ms[i]) == Some(items[i].body)
         && 10 + |items[i].header| + |items[i].body| < TWO_32
  }

  /** What reading on and on comes to while there are packets. */
  function ReceivedFrom<H>(c: Codec<H>, b: bytes): seq<Received<H>>
    decreases |b|
  {
    match ReadOne(b)
    case (None, _) => []
    case (Some(p), rest) => [Outcome(c, p)] + ReceivedFrom(c, rest)
  }

  /** All messages sent are received, in order, as they were, whatever garbage was between them. */
  lemma {:induction false} AllReceived<H(!new)>(c: Codec<H>, items: seq<Item>, ms: seq<Message<H>>, tail: bytes)
    requires Inverse(c) && Sent(c, items, ms) && NoMagic(tail)
    ensures ReceivedFrom(c, Wire(items, tail)) == seq(|ms|, i requires 0 <= i < |ms| => Received.Received(ms[i]))
    decreases |items|
  {
    if items == [] {
      SkipAll(tail);
    } else {
      var rest := Wire(items[1..], tail);
      ReadFrame(items[0].garbage, items[0].header, items[0].body, rest);
      RoundTrip(c, ms[0]);
      AllReceived(c, items[1..], ms[1..], tail);
    }
  }

  /** What can be read is a message that the first packet carries, or else cannot be decoded. */
  lemma {:induction false} ReceivedIff<H(!new)>(c: Codec<H>, packet: bytes, m: Message<H>)
    ensures !Outcome(c, packet).Broken?
    ensures Outcome(c, packet) == Received.Received(m) <==>
            exists header, body, more :: |header| < TWO_32 && |body| < TWO_32 && 10 + |header| + |body| < TWO_32
                                         && packet == Frame(header, body) + more && Carries(c, header, body, m)
  {
    DecodeOnlyFrames(c, packet, m);
  }

  /** A connection whose reads return the bytes of `incoming` chunk by chunk, then an error: end of file or
      another one. */
  class Connection {
    const buffer: PacketBuffer
    const failure: int
    var incoming: seq<bytes>

    constructor (incoming: seq<bytes>, failure: int)
      ensures fresh(buffer) && buffer.buf == [] && this.incoming == incoming && this.failure == failure
    {
      buffer := new PacketBuffer();
      this.incoming, this.failure := incoming, failure;
    }

    /** Everything not yet returned: what is buffered and what is still to come. */
    ghost function Pending(): bytes
      reads this, buffer
    {
      buffer.buf + Concat(incoming)
    }

    /** Decodes the first packet of the pending bytes and leaves the rest pending, however the bytes arrive;
        returns the error when the connection has ended and the pending bytes hold no packet. */
    method Read<H>(c: Codec<H>) returns (r: Received<H>)
      modifies this, buffer
      ensures var (packet, rest) := ReadOne(old(Pending()));
              && Pending() == rest
              && r == (match packet case Some(p) => Outcome(c, p) case None => Broken(failure))
              && (packet.None? ==> incoming == [])
    {
      while true
        invariant ReadOne(Pending()) == ReadOne(old(Pending()))
        decreases |incoming|
      {
        ReadAppend(buffer.buf, Concat(incoming));
        var packet := buffer.Read();
        if packet.Some? {
          return Outcome(c, packet.value);
        }
        if |incoming| == 0 {
          KeptStays(old(Pending()));
          assert buffer.buf + [] == buffer.buf;
          return Broken(failure);
        }
        var tmp := incoming[0];
        assert buffer.buf + Concat(incoming) == (buffer.buf + tmp) + Concat(incoming[1..]);
        incoming := incoming[1..];
        buffer.Write(tmp);
      }
    }
  }

  lemma {:induction false} KeptStays(b: bytes)
    ensures ReadOne(b).0.None? ==> ReadOne(ReadOne(b).1) == ReadOne(b)
  {
    assert Skip(Skip(b)) == Skip(b);
  }
}
