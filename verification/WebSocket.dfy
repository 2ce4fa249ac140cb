/** WebSocket frames and messages on the server side of a connection (RFC 6455, sections 5.2 to 5.5). */
module WebSocket {
  import opened ByteStrings

  datatype Error = Eof | UnexpectedEof | InvalidFrame

  datatype Outcome = Fine | Err(error: Error)

  const CONTINUATION := 0
  const TEXT := 1
  const BINARY := 2
  const CLOSE := 8
  const PING := 9
  const PONG := 10
  const MAX_FRAME_SIZE := 65536
  const CLOSE_NORMAL := 1000

  predicate IsData(opcode: nat) {
    opcode == TEXT || opcode == BINARY
  }

  predicate IsControl(opcode: nat) {
    opcode == CLOSE || opcode == PING || opcode == PONG
  }

  /** A limit that is not positive stands for the default of 64 KiB. */
  function Limit(maxMessageSize: int): (n: nat)
    ensures n > 0 && (n == maxMessageSize || n == 0x1_0000)
    ensures n != maxMessageSize ==> maxMessageSize <= 0
  {
    if maxMessageSize > 0 then maxMessageSize else MAX_FRAME_SIZE
  }

  // ---- Masks ----

  /** Exclusive or of the lowest `n` bits, bit by bit. */
  function XorBits(a: nat, b: nat, n: nat): (r: nat)
  {
    if n == 0 then 0 else 2 * XorBits(a / 2, b / 2, n - 1) + (a + b) % 2
  }

  function Pow2(n: nat): (p: nat)
    ensures p > 0
  {
    if n == 0 then 1 else 2 * Pow2(n - 1)
  }

  lemma {:induction false} LowBit(a: nat, b: nat, h: nat)
    ensures var x := 2 * h + (a + b) % 2; x / 2 == h && (x + b) % 2 == a % 2
  {
  }

  lemma {:induction false} XorBitsTwice(a: nat, b: nat, n: nat)
    requires a < Pow2(n)
    ensures XorBits(XorBits(a, b, n), b, n) == a
  {
    if n > 0 {
      XorBitsTwice(a / 2, b / 2, n - 1);
      LowBit(a, b, XorBits(a / 2, b / 2, n - 1));
    }
  }

  lemma {:induction false} XorIsByte(a: nat, b: nat, n: nat)
    ensures XorBits(a, b, n) < Pow2(n)
  {
    if n > 0 {
      XorIsByte(a / 2, b / 2, n - 1);
    }
  }

  lemma {:induction false} EightBits()
    ensures Pow2(8) == 0x100
  {
    assert Pow2(4) == 2 * Pow2(3) == 4 * Pow2(2) == 8 * Pow2(1) == 16;
    assert Pow2(8) == 2 * Pow2(7) == 4 * Pow2(6) == 8 * Pow2(5) == 16 * Pow2(4);
  }

  function Xor(a: byte, b: byte): byte {
    XorIsByte(a, b, 8);
    EightBits();
    XorBits(a, b, 8)
  }

  lemma {:induction false} XorTwice(a: byte, b: byte)
    ensures Xor(Xor(a, b), b) == a
  {
    EightBits();
    XorBitsTwice(a, b, 8);
  }

  /** Masking (section 5.3): unmasking is the same operation. */
  function Masked(p: bytes, mask: bytes): (r: bytes)
    requires |mask| == 4
    ensures |r| == |p|
  {
    seq(|p|, i requires 0 <= i < |p| => Xor(p[i], mask[i % 4]))
  }

  lemma {:induction false} MaskedTwice(p: bytes, mask: bytes)
    requires |mask| == 4
    ensures Masked(Masked(p, mask), mask) == p
  {
    forall i | 0 <= i < |p| ensures Masked(Masked(p, mask), mask)[i] == p[i] {
      XorTwice(p[i], mask[i % 4]);
    }
  }

  /** Binary digit number `i`, from the lowest. */
  function Bit(n: nat, i: nat): (d: nat)
    ensures d < 2
  {
    if i == 0 then n % 2 else Bit(n / 2, i - 1)
  }

  lemma {:induction false} XorBit(a: nat, b: nat, n: nat, i: nat)
    requires i < n
    ensures Bit(XorBits(a, b, n), i) == 1 <==> Bit(a, i) != Bit(b, i)
  {
    LowBit(a, b, XorBits(a / 2, b / 2, n - 1));
    if i > 0 {
      XorBit(a / 2, b / 2, n - 1, i - 1);
    }
  }

  /** What a masked byte is: its bit is set exactly where that of the byte and that of the mask byte at the same
      place modulo 4 differ. */
  lemma {:induction false} MaskedBits(p: bytes, mask: bytes, j: nat, i: nat)
    requires |mask| == 4 && j < |p| && i < 8
    ensures Bit(Masked(p, mask)[j], i) == 1 <==> Bit(p[j], i) != Bit(mask[j % 4], i)
  {
    XorBit(p[j], mask[j % 4], 8, i);
  }

  lemma {:induction false} SameBits(a: nat, b: nat, n: nat)
    requires a < Pow2(n) && b < Pow2(n) && forall i :: 0 <= i < n ==> Bit(a, i) == Bit(b, i)
    ensures a == b
  {
    if n > 0 {
      assert Bit(a, 0) == Bit(b, 0);
      forall i | 0 <= i < n - 1 ensures Bit(a / 2, i) == Bit(b / 2, i) {
        assert Bit(a, i + 1) == Bit(b, i + 1);
      }
      SameBits(a / 2, b / 2, n - 1);
    }
  }

  /** Nothing else has those bits. */
  lemma {:induction false} MaskedUnique(p: bytes, mask: bytes, q: bytes)
    requires |mask| == 4 && |q| == |p|
    requires forall j, i :: 0 <= j < |p| && 0 <= i < 8 ==> (Bit(q[j], i) == 1 <==> Bit(p[j], i) != Bit(mask[j % 4], i))
    ensures q == Masked(p, mask)
  {
    EightBits();
    forall j | 0 <= j < |p| ensures q[j] == Masked(p, mask)[j] {
      forall i | 0 <= i < 8 ensures Bit(q[j], i) == Bit(Masked(p, mask)[j], i) {
        MaskedBits(p, mask, j, i);
      }
      SameBits(q[j], Masked(p, mask)[j], 8);
    }
  }

  // ---- Reading a frame, on values ----

  /** Either a frame and what remains unread, or an error and what remains unread. */
  datatype FrameResult =
    | Frame(opcode: nat, fin: bool, payload: bytes, rest: bytes)
    | Bad(error: Error, left: bytes)

  function Cut(input: bytes): FrameResult {
    Bad(if input == [] then Eof else UnexpectedEof, [])
  }

  /** Which first two bytes go together: control frames are whole and short. */
  predicate Allowed(opcode: nat, fin: bool, length: nat) {
    opcode == CONTINUATION || IsData(opcode) || (IsControl(opcode) && fin && length <= 125)
  }

  function ReadFrame(input: bytes, limit: nat): (r: FrameResult)
    ensures r.Frame? ==> |r.rest| < |input|
  {
    if |input| < 2 then Cut(input)
    else
      var opcode, fin, length := input[0] % 16, input[0] >= 128, input[1] % 128;
      if input[0] / 16 % 8 != 0 || !Allowed(opcode, fin, length) || input[1] < 128 then Bad(InvalidFrame, input[2..])
      else ReadLength(opcode, fin, length, input[2..], limit)
  }

  function Extension(length: nat): nat {
    if length == 126 then 2 else if length == 127 then 8 else 0
  }

  function ReadLength(opcode: nat, fin: bool, length: nat, input: bytes, limit: nat): (r: FrameResult)
    ensures r.Frame? ==> |r.rest| < |input|
  {
    var n := Extension(length);
    if |input| < n then Cut(input)
    else ReadPayload(opcode, fin, if n == 0 then length else Be(input[..n]), input[n..], limit)
  }

  function ReadPayload(opcode: nat, fin: bool, length: nat, input: bytes, limit: nat): (r: FrameResult)
    ensures r.Frame? ==> |r.rest| < |input|
  {
    if length > limit then Bad(InvalidFrame, input)
    else if |input| < 4 then Cut(input)
    else if |input| - 4 < length then Cut(input[4..])
    else Frame(opcode, fin, Masked(input[4..4 + length], input[..4]), input[4 + length..])
  }

  // ---- Frames on the wire ----

  /** The three ways to write a length. */
  datatype Form = Short | Medium | Long

  predicate Fits(form: Form, n: nat) {
    match form
    case Short => n <= 125
    case Medium => n < 0x1_0000
    case Long => n < 0x1_0000_0000_0000_0000
  }

  function LengthBytes(form: Form, flag: nat, n: nat): bytes
    requires flag <= 128 && Fits(form, n)
  {
    match form
    case Short => [flag + n]
    case Medium => [flag + 126] + PutBe(2, n)
    case Long => [flag + 127] + PutBe(8, n)
  }

  datatype ClientFrame = ClientFrame(opcode: nat, fin: bool, form: Form, mask: bytes, payload: bytes)
  {
    predicate Valid() {
      && |mask| == 4 && Fits(form, |payload|)
      && (opcode == CONTINUATION || IsData(opcode) || (IsControl(opcode) && fin && form == Short))
    }

    function Wire(): (r: bytes)
      requires Valid()
    {
      [(if fin then 128 else 0) + opcode] + LengthBytes(form, 128, |payload|) + mask + Masked(payload, mask)
    }
  }

  lemma {:induction false} ExtensionRead(n: nat, e: nat, tail: bytes)
    requires n < Pow256(e)
    ensures |PutBe(e, n) + tail| >= e && Be((PutBe(e, n) + tail)[..e]) == n && (PutBe(e, n) + tail)[e..] == tail
  {
    BePut(e, n);
    assert (PutBe(e, n) + tail)[..e] == PutBe(e, n);
  }

  lemma {:induction false} LengthRead(f: ClientFrame, tail: bytes, limit: nat)
    requires f.Valid()
    ensures var l := LengthBytes(f.form, 128, |f.payload|);
            && Allowed(f.opcode, f.fin, l[0] % 128)
            && ReadLength(f.opcode, f.fin, l[0] % 128, l[1..] + tail, limit) == ReadPayload(f.opcode, f.fin, |f.payload|, tail, limit)
  {
    hide ReadPayload, Be, PutBe, Pow256;
    Powers();
    var n := |f.payload|;
    var l := LengthBytes(f.form, 128, n);
    if f.form == Short {
      assert l[1..] + tail == tail;
    } else {
      var e := if f.form == Medium then 2 else 8;
      assert l[1..] == PutBe(e, n);
      ExtensionRead(n, e, tail);
    }
  }

  lemma {:induction false} FirstByte(fin: bool, opcode: nat)
    requires opcode < 16
    ensures var b := (if fin then 128 else 0) + opcode; b < 0x100 && b / 16 % 8 == 0 && b % 16 == opcode && (b >= 128 <==> fin)
  {
  }

  lemma {:induction false} HeaderDecodes(input: bytes, fin: bool, opcode: nat, limit: nat)
    requires |input| >= 2 && opcode < 16 && input[0] == (if fin then 128 else 0) + opcode && input[1] >= 128
    requires Allowed(opcode, fin, input[1] % 128)
    ensures ReadFrame(input, limit) == ReadLength(opcode, fin, input[1] % 128, input[2..], limit)
  {
    hide ReadLength, Allowed;
    FirstByte(fin, opcode);
  }

  lemma {:induction false} Behind(b: byte, l: bytes, tail: bytes)
    requires l != []
    ensures ([b] + l + tail)[1] == l[0] && ([b] + l + tail)[2..] == l[1..] + tail
  {
  }

  lemma {:induction false} HeaderRead(f: ClientFrame, tail: bytes, limit: nat)
    requires f.Valid()
    ensures ReadFrame([(if f.fin then 128 else 0) + f.opcode] + LengthBytes(f.form, 128, |f.payload|) + tail, limit)
            == ReadPayload(f.opcode, f.fin, |f.payload|, tail, limit)
  {
    var l := LengthBytes(f.form, 128, |f.payload|);
    var b: byte := (if f.fin then 128 else 0) + f.opcode;
    var input := [b] + l + tail;
    assert l[0] >= 128;
    hide ReadFrame, ReadLength, ReadPayload, LengthBytes, Allowed, Fits;
    LengthRead(f, tail, limit);
    Behind(b, l, tail);
    HeaderDecodes(input, f.fin, f.opcode, limit);
  }

  lemma {:induction false} PayloadRead(opcode: nat, fin: bool, payload: bytes, mask: bytes, rest: bytes, limit: nat)
    requires |mask| == 4
    ensures var r := ReadPayload(opcode, fin, |payload|, mask + Masked(payload, mask) + rest, limit);
            if |payload| <= limit then r == Frame(opcode, fin, payload, rest)
            else r.Bad? && r.error == InvalidFrame
  {
    hide Masked;
    var data := Masked(payload, mask);
    var tail := mask + data + rest;
    assert tail[..4] == mask && tail[4..4 + |data|] == data && tail[4 + |data|..] == rest;
    MaskedTwice(payload, mask);
  }

  /** Any validly masked client frame within the limit is recovered, whichever form its length has; one
      above the limit is refused. */
  lemma {:induction false} FrameRoundTrip(f: ClientFrame, rest: bytes, limit: nat)
    requires f.Valid()
    ensures var r := ReadFrame(f.Wire() + rest, limit);
            if |f.payload| <= limit then r == Frame(f.opcode, f.fin, f.payload, rest)
            else r.Bad? && r.error == InvalidFrame
  {
    hide ReadFrame, ReadPayload, LengthBytes, Masked, Fits;
    var tail := f.mask + Masked(f.payload, f.mask) + rest;
    HeaderRead(f, tail, limit);
    assert f.Wire() + rest == [(if f.fin then 128 else 0) + f.opcode] + LengthBytes(f.form, 128, |f.payload|) + tail;
    PayloadRead(f.opcode, f.fin, f.payload, f.mask, rest, limit);
  }

  /** The masked text message of section 5.7. */
  lemma {:induction false} Hello()
    ensures ReadFrame([0x81, 0x85, 0x37, 0xfa, 0x21, 0x3d, 0x7f, 0x9f, 0x4d, 0x51, 0x58], MAX_FRAME_SIZE)
            == Frame(TEXT, true, [0x48, 0x65, 0x6c, 0x6c, 0x6f], [])
  {
    var mask: bytes, hello: bytes := [0x37, 0xfa, 0x21, 0x3d], [0x48, 0x65, 0x6c, 0x6c, 0x6f];
    var f := ClientFrame(TEXT, true, Short, mask, hello);
    HelloMasked(mask, hello);
    hide Masked, ReadFrame;
    assert f.Wire() + [] == [0x81, 0x85, 0x37, 0xfa, 0x21, 0x3d, 0x7f, 0x9f, 0x4d, 0x51, 0x58];
    FrameRoundTrip(f, [], MAX_FRAME_SIZE);
  }

  lemma {:induction false} XorDigits(a: nat, b: nat, n: nat)
    ensures XorBits(a, b, n + 4)
            == 16 * XorBits(a / 16, b / 16, n) + FourBits(a, b)
  {
    assert XorBits(a, b, n + 4) == 2 * XorBits(a / 2, b / 2, n + 3) + (a + b) % 2;
    assert XorBits(a / 2, b / 2, n + 3) == 2 * XorBits(a / 4, b / 4, n + 2) + (a / 2 + b / 2) % 2;
    assert XorBits(a / 4, b / 4, n + 2) == 2 * XorBits(a / 8, b / 8, n + 1) + (a / 4 + b / 4) % 2;
    assert XorBits(a / 8, b / 8, n + 1) == 2 * XorBits(a / 16, b / 16, n) + (a / 8 + b / 8) % 2;
  }

  function FourBits(a: nat, b: nat): nat {
    8 * ((a / 8 + b / 8) % 2) + 4 * ((a / 4 + b / 4) % 2) + 2 * ((a / 2 + b / 2) % 2) + (a + b) % 2
  }

  lemma {:induction false} XorByte(a: byte, b: byte)
    ensures Xor(a, b) == 16 * FourBits(a / 16, b / 16) + FourBits(a, b)
  {
    XorDigits(a, b, 4);
    XorDigits(a / 16, b / 16, 0);
    XorNone(a / 16 / 16, b / 16 / 16);
    hide XorBits;
  }

  lemma {:induction false} XorNone(a: nat, b: nat)
    ensures XorBits(a, b, 0) == 0
  {
  }

  lemma {:induction false} HelloMasked(mask: bytes, hello: bytes)
    requires mask == [0x37, 0xfa, 0x21, 0x3d] && hello == [0x48, 0x65, 0x6c, 0x6c, 0x6f]
    ensures Masked(hello, mask) == [0x7f, 0x9f, 0x4d, 0x51, 0x58]
  {
    hide Xor, XorBits;
    HelloXor();
    LoXor();
  }

  lemma {:induction false} HelloXor()
    ensures Xor(0x48, 0x37) == 0x7f && Xor(0x65, 0xfa) == 0x9f && Xor(0x6c, 0x21) == 0x4d
  {
    hide Xor, XorBits;
    assert Xor(0x48, 0x37) == 0x7f by { XorIs(0x48, 0x37, 7, 15); }
    assert Xor(0x65, 0xfa) == 0x9f by { XorIs(0x65, 0xfa, 9, 15); }
    assert Xor(0x6c, 0x21) == 0x4d by { XorIs(0x6c, 0x21, 4, 13); }
  }

  lemma {:induction false} LoXor()
    ensures Xor(0x6c, 0x3d) == 0x51 && Xor(0x6f, 0x37) == 0x58
  {
    hide Xor, XorBits;
    assert Xor(0x6c, 0x3d) == 0x51 by { XorIs(0x6c, 0x3d, 5, 1); }
    assert Xor(0x6f, 0x37) == 0x58 by { XorIs(0x6f, 0x37, 5, 8); }
  }

  lemma {:induction false} XorIs(a: byte, b: byte, high: nat, low: nat)
    requires FourBits(a / 16, b / 16) == high && FourBits(a, b) == low
    ensures Xor(a, b) == 16 * high + low
  {
    XorByte(a, b);
  }

  /** A frame that is cut short is not an invalid one.  The input counts as ended cleanly where one of the parts
      that are read at a time ends: the first two bytes, the longer length, the mask. */
  lemma {:induction false} CutShort(f: ClientFrame, k: nat, limit: nat)
    requires f.Valid() && |f.payload| <= limit && k < |f.Wire()|
    ensures var r, e := ReadFrame(f.Wire()[..k], limit), |LengthBytes(f.form, 128, |f.payload|)| - 1;
            && r.Bad? && r.left == []
            && r.error == if k == 0 || k == 2 || k == 2 + e || k == 6 + e then Eof else UnexpectedEof
  {
    if k >= 2 {
      var l, data := LengthBytes(f.form, 128, |f.payload|), Masked(f.payload, f.mask);
      var first: byte := (if f.fin then 128 else 0) + f.opcode;
      var tail := f.mask + data;
      assert f.Wire() == [first] + l + tail;
      Behind(first, l, tail);
      var w := f.Wire()[..k];
      assert w[2..] == (l[1..] + tail)[..k - 2];
      hide ReadFrame, ReadLength, Masked, LengthBytes, Be, PutBe, Pow256;
      LengthCut(f, tail, k - 2, limit);
      HeaderDecodes(w, f.fin, f.opcode, limit);
    }
  }

  lemma {:induction false} LengthCut(f: ClientFrame, tail: bytes, k: nat, limit: nat)
    requires f.Valid() && |f.payload| <= limit && |tail| == 4 + |f.payload|
    requires k < |LengthBytes(f.form, 128, |f.payload|)| - 1 + |tail|
    ensures var l := LengthBytes(f.form, 128, |f.payload|);
            var e, r := |l| - 1, ReadLength(f.opcode, f.fin, l[0] % 128, (l[1..] + tail)[..k], limit);
            && l[0] >= 128 && Allowed(f.opcode, f.fin, l[0] % 128)
            && r.Bad? && r.left == [] && r.error == if k == 0 || k == e || k == 4 + e then Eof else UnexpectedEof
  {
    hide Be, PutBe, Pow256;
    Powers();
    var n := |f.payload|;
    var l := LengthBytes(f.form, 128, n);
    var e := |l| - 1;
    var w := (l[1..] + tail)[..k];
    if k >= e {
      assert w[..e] == l[1..] && w[e..] == tail[..k - e];
      if f.form != Short {
        assert l[1..] == PutBe(e, n);
        BePut(e, n);
      }
      assert ReadLength(f.opcode, f.fin, l[0] % 128, w, limit) == ReadPayload(f.opcode, f.fin, n, w[e..], limit);
    }
  }

  function FormOf(length: nat): Form {
    if length == 126 then Medium else if length == 127 then Long else Short
  }

  lemma {:induction false} LengthWritten(length: nat, input: bytes)
    requires length < 128 && |input| >= Extension(length)
    ensures var e, form := Extension(length), FormOf(length);
            var n := if e == 0 then length else Be(input[..e]);
            Fits(form, n) && LengthBytes(form, 128, n) == [128 + length] + input[..e]
  {
    Powers();
    PutBeOf(input[..Extension(length)]);
  }

  lemma {:induction false} PayloadInverse(opcode: nat, fin: bool, length: nat, input: bytes, limit: nat) returns (f: ClientFrame)
    requires length < 128 && Allowed(opcode, fin, length) && ReadLength(opcode, fin, length, input, limit).Frame?
    ensures var r, e := ReadLength(opcode, fin, length, input, limit), Extension(length);
            && f.Valid() && |f.payload| <= limit
            && f == ClientFrame(r.opcode, r.fin, FormOf(length), f.mask, r.payload) && r.opcode == opcode && r.fin == fin
            && |f.payload| == (if e == 0 then length else Be(input[..e]))
            && input[e..] == f.mask + Masked(f.payload, f.mask) + r.rest
  {
    hide Masked, Be, LengthBytes;
    var e := Extension(length);
    LengthWritten(length, input);
    var n := if e == 0 then length else Be(input[..e]);
    var r := ReadPayload(opcode, fin, n, input[e..], limit);
    f := ClientFrame(opcode, fin, FormOf(length), input[e..][..4], r.payload);
    MaskInverse(opcode, fin, n, input[e..], limit);
  }

  lemma {:induction false} MaskInverse(opcode: nat, fin: bool, n: nat, input: bytes, limit: nat)
    requires ReadPayload(opcode, fin, n, input, limit).Frame?
    ensures var r := ReadPayload(opcode, fin, n, input, limit);
            && n <= limit && |input| >= 4 && |r.payload| == n && r.opcode == opcode && r.fin == fin
            && input == input[..4] + Masked(r.payload, input[..4]) + r.rest
  {
    hide Masked;
    var data := input[4..4 + n];
    MaskedTwice(data, input[..4]);
    assert input == input[..4] + data + input[4 + n..];
  }

  /** Conversely nothing else is accepted: a frame is read only off the wire form of a valid masked frame
      within the limit, and the unread input is what follows it. */
  lemma {:induction false} FrameInverse(input: bytes, limit: nat) returns (f: ClientFrame)
    requires ReadFrame(input, limit).Frame?
    ensures var r := ReadFrame(input, limit);
            && f.Valid() && |f.payload| <= limit
            && f.opcode == r.opcode && f.fin == r.fin && f.payload == r.payload
            && input == f.Wire() + r.rest
  {
    hide LengthBytes, Masked, ReadLength, ReadPayload, Be;
    HeaderBits(input[0]);
    f := LengthInverse(input[0] % 16, input[0] >= 128, input[1] % 128, input[2..], limit);
    ghost var l := LengthBytes(f.form, 128, |f.payload|);
    ghost var tail := f.mask + Masked(f.payload, f.mask) + ReadFrame(input, limit).rest;
    assert input == [input[0]] + ([input[1]] + input[2..]);
  }

  lemma {:induction false} LengthInverse(opcode: nat, fin: bool, length: nat, input: bytes, limit: nat) returns (f: ClientFrame)
    requires length < 128 && Allowed(opcode, fin, length) && ReadLength(opcode, fin, length, input, limit).Frame?
    ensures var r := ReadLength(opcode, fin, length, input, limit);
            && f.Valid() && |f.payload| <= limit
            && f.opcode == r.opcode == opcode && f.fin == r.fin == fin && f.payload == r.payload
            && [128 + length] + input == LengthBytes(f.form, 128, |f.payload|) + f.mask + Masked(f.payload, f.mask) + r.rest
  {
    f := PayloadInverse(opcode, fin, length, input, limit);
    hide Masked, ReadLength, ReadPayload, Be, LengthBytes;
    hide Extension, ClientFrame.Valid, Fits;
    var e := Extension(length);
    LengthWritten(length, input);
    ghost var r := ReadLength(opcode, fin, length, input, limit);
    Regroup([128 + length], input, e, f.mask, Masked(f.payload, f.mask), r.rest);
  }

  lemma {:induction false} Regroup(a: bytes, input: bytes, e: nat, m: bytes, d: bytes, rest: bytes)
    requires e <= |input| && input[e..] == m + d + rest
    ensures a + input == (a + input[..e]) + m + d + rest
  {
    assert input == input[..e] + input[e..];
  }

  lemma {:induction false} HeaderBits(b: byte)
    requires b / 16 % 8 == 0
    ensures b == (if b >= 128 then 128 else 0) + b % 16
  {
  }

  // ---- Reading a message, on values ----

  datatype MessageResult =
    | Message(opcode: nat, payload: bytes, rest: bytes)
    | Failed(error: Error, left: bytes)

  /** `kind` is the opcode of the message being put together, or 0; `buf` is what it holds so far. */
  function Collect(input: bytes, limit: nat, kind: nat, buf: bytes): (r: MessageResult)
    ensures r.Message? ==> |r.rest| < |input|
    decreases |input|
  {
    match ReadFrame(input, limit)
    case Bad(error, left) => Failed(error, left)
    case Frame(opcode, fin, data, rest) =>
      if IsControl(opcode) then Message(opcode, data, rest)
      else if opcode == CONTINUATION then
        if kind == 0 || |buf| + |data| > limit then Failed(InvalidFrame, rest)
        else if fin then Message(kind, buf + data, rest)
        else Collect(rest, limit, kind, buf + data)
      else if kind != 0 then Failed(InvalidFrame, rest)
      else if fin then Message(opcode, data, rest)
      else Collect(rest, limit, opcode, data)
  }

  function ReadMessage(input: bytes, limit: nat): (r: MessageResult)
    ensures r.Message? ==> |r.rest| < |input|
  {
    Collect(input, limit, 0, [])
  }

  function Wires(fs: seq<ClientFrame>): bytes
    requires forall i :: 0 <= i < |fs| ==> fs[i].Valid()
  {
    if fs == [] then [] else fs[0].Wire() + Wires(fs[1..])
  }

  function Joined(fs: seq<ClientFrame>): bytes {
    if fs == [] then [] else fs[0].payload + Joined(fs[1..])
  }

  /** The fragments of a message (section 5.4), or what is left of them once the first was read (`begun`). */
  ghost predicate Fragments(fs: seq<ClientFrame>, opcode: nat, begun: bool) {
    && fs != [] && IsData(opcode)
    && (forall i :: 0 <= i < |fs| ==> fs[i].Valid())
    && (forall i :: 0 <= i < |fs| ==> fs[i].opcode == (if i == 0 && !begun then opcode else CONTINUATION))
    && (forall i :: 0 <= i < |fs| ==> (fs[i].fin <==> i == |fs| - 1))
  }

  lemma {:induction false} FragmentsTail(fs: seq<ClientFrame>, opcode: nat, begun: bool)
    requires Fragments(fs, opcode, begun) && |fs| > 1
    ensures Fragments(fs[1..], opcode, true)
  {
  }

  lemma {:induction false} CollectFragments(fs: seq<ClientFrame>, opcode: nat, begun: bool, buf: bytes, limit: nat, rest: bytes)
    requires Fragments(fs, opcode, begun) && |buf| <= limit && (!begun ==> buf == [])
    ensures var r := Collect(Wires(fs) + rest, limit, if begun then opcode else 0, buf);
            if |buf| + |Joined(fs)| <= limit then r == Message(opcode, buf + Joined(fs), rest)
            else r.Failed? && r.error == InvalidFrame
    decreases fs
  {
    hide ReadFrame, ClientFrame.Valid, ClientFrame.Wire;
    var f, more := fs[0], Wires(fs[1..]) + rest;
    assert Wires(fs) + rest == f.Wire() + more;
    FrameRoundTrip(f, more, limit);
    assert buf + Joined(fs) == (buf + f.payload) + Joined(fs[1..]);
    if |fs| == 1 {
      assert fs[1..] == [];
      assert more == rest;
    } else if |buf| + |f.payload| <= limit {
      FragmentsTail(fs, opcode, begun);
      CollectFragments(fs[1..], opcode, true, buf + f.payload, limit, rest);
      assert !begun ==> buf + f.payload == f.payload;
    }
  }

  /** Reassembly: a message cut into fragments in any way, with no control frame between them, is read as
      the concatenation of its fragments if that is within the limit, and refused otherwise. */
  lemma {:induction false} Reassembles(fs: seq<ClientFrame>, opcode: nat, limit: nat, rest: bytes)
    requires Fragments(fs, opcode, false)
    ensures var r := ReadMessage(Wires(fs) + rest, limit);
            if |Joined(fs)| <= limit then r == Message(opcode, Joined(fs), rest)
            else r.Failed? && r.error == InvalidFrame
  {
    CollectFragments(fs, opcode, false, [], limit, rest);
  }

  lemma {:induction false} OneFrame(f: ClientFrame)
    requires f.Valid()
    ensures Joined([f]) == f.payload && Wires([f]) == f.Wire()
  {
    hide ClientFrame.Wire;
    assert [f][1..] == [];
    assert f.payload + [] == f.payload && f.Wire() + [] == f.Wire();
  }

  lemma {:induction false} CollectSound(input: bytes, limit: nat, kind: nat, buf: bytes) returns (fs: seq<ClientFrame>)
    requires var r := Collect(input, limit, kind, buf); r.Message? && !IsControl(r.opcode)
    requires (kind == 0 && buf == []) || IsData(kind)
    ensures var r := Collect(input, limit, kind, buf);
            && Fragments(fs, r.opcode, kind != 0) && (kind != 0 ==> r.opcode == kind)
            && r.payload == buf + Joined(fs) && |r.payload| <= limit && input == Wires(fs) + r.rest
    decreases |input|
  {
    hide ReadFrame, ClientFrame.Wire;
    var r := Collect(input, limit, kind, buf);
    var first := ReadFrame(input, limit);
    var f := FrameInverse(input, limit);
    if first.fin {
      fs := [f];
      OneFrame(f);
    } else {
      var next := if kind == 0 then f.opcode else kind;
      assert kind == 0 ==> buf + f.payload == f.payload;
      var more := CollectSound(first.rest, limit, next, buf + f.payload);
      fs := [f] + more;
      assert fs[1..] == more;
      assert buf + Joined(fs) == (buf + f.payload) + Joined(more);
      assert Wires(fs) + r.rest == f.Wire() + (Wires(more) + r.rest);
    }
  }

  /** Data messages are exactly the fragmented messages within the limit. */
  lemma {:induction false} DataMessageIff(input: bytes, limit: nat, opcode: nat, payload: bytes, rest: bytes)
    requires IsData(opcode)
    ensures ReadMessage(input, limit) == Message(opcode, payload, rest) <==>
            exists fs :: Fragments(fs, opcode, false) && input == Wires(fs) + rest && payload == Joined(fs) && |payload| <= limit
  {
    if ReadMessage(input, limit) == Message(opcode, payload, rest) {
      var fs := CollectSound(input, limit, 0, []);
      assert [] + Joined(fs) == Joined(fs);
    }
    forall fs | Fragments(fs, opcode, false) && input == Wires(fs) + rest && payload == Joined(fs) && |payload| <= limit
      ensures ReadMessage(input, limit) == Message(opcode, payload, rest)
    {
      Reassembles(fs, opcode, limit, rest);
    }
  }

  /** Whatever arrives, a returned message is a data message within the limit or a control message of at
      most 125 bytes. */
  lemma {:induction false} MessageBounded(input: bytes, limit: nat)
    requires ReadMessage(input, limit).Message?
    ensures var r := ReadMessage(input, limit);
            |r.payload| <= limit && (IsData(r.opcode) || (IsControl(r.opcode) && |r.payload| <= 125))
  {
    CollectBounded(input, limit, 0, []);
  }

  lemma {:induction false} CollectBounded(input: bytes, limit: nat, kind: nat, buf: bytes)
    requires Collect(input, limit, kind, buf).Message? && (kind == 0 || IsData(kind))
    ensures var r := Collect(input, limit, kind, buf);
            |r.payload| <= limit && (IsData(r.opcode) || (IsControl(r.opcode) && |r.payload| <= 125))
    decreases |input|
  {
    var f := FrameInverse(input, limit);
    var first := ReadFrame(input, limit);
    hide ReadFrame;
    if !IsControl(f.opcode) && !f.fin {
      if f.opcode == CONTINUATION {
        CollectBounded(first.rest, limit, kind, buf + f.payload);
      } else {
        CollectBounded(first.rest, limit, f.opcode, f.payload);
      }
    }
  }

  // ---- Control frames between fragments ----

  datatype Item = Item(opcode: nat, payload: bytes)

  /** The messages that the callers of readMessage take: until an error, or a close message. */
  function ReadAll(input: bytes, limit: nat): seq<Item>
    decreases |input|
  {
    match ReadMessage(input, limit)
    case Failed(_, _) => []
    case Message(opcode, payload, rest) => [Item(opcode, payload)] + if opcode == CLOSE then [] else ReadAll(rest, limit)
  }

  lemma {:induction false} ReadAllNothing(limit: nat)
    ensures ReadAll([], limit) == []
  {
  }

  lemma {:induction false} ReadAllControl(c: ClientFrame, rest: bytes, limit: nat)
    requires c.Valid() && IsControl(c.opcode) && |c.payload| <= limit
    ensures ReadAll(c.Wire() + rest, limit) == [Item(c.opcode, c.payload)] + if c.opcode == CLOSE then [] else ReadAll(rest, limit)
  {
    FrameRoundTrip(c, rest, limit);
    hide ReadFrame;
  }

  lemma {:induction false} ReadAllMessage(fs: seq<ClientFrame>, opcode: nat, rest: bytes, limit: nat)
    requires Fragments(fs, opcode, false) && |Joined(fs)| <= limit
    ensures ReadAll(Wires(fs) + rest, limit) == [Item(opcode, Joined(fs))] + ReadAll(rest, limit)
  {
    Reassembles(fs, opcode, limit, rest);
  }

  lemma {:induction false} JoinedPrefix(fs: seq<ClientFrame>, k: nat)
    requires k <= |fs| && forall i :: 0 <= i < |fs| ==> fs[i].Valid()
    ensures Wires(fs) == Wires(fs[..k]) + Wires(fs[k..])
    ensures |Joined(fs[..k])| <= |Joined(fs)|
  {
    if k > 0 {
      JoinedPrefix(fs[1..], k - 1);
      assert fs[..k][1..] == fs[1..][..k - 1] && fs[1..][k - 1..] == fs[k..];
    } else {
      assert fs[0..] == fs && fs[..0] == [];
    }
  }

  /** Reading goes on behind the first fragments of a message with what they hold. */
  lemma {:induction false} CollectPrefix(fs: seq<ClientFrame>, opcode: nat, begun: bool, buf: bytes, k: nat, limit: nat, tail: bytes)
    requires Fragments(fs, opcode, begun) && k < |fs| && (!begun ==> buf == []) && |buf| + |Joined(fs[..k])| <= limit
    ensures Collect(Wires(fs[..k]) + tail, limit, if begun then opcode else 0, buf)
            == Collect(tail, limit, if begun || k > 0 then opcode else 0, buf + Joined(fs[..k]))
    decreases k
  {
    hide ReadFrame, ClientFrame.Wire;
    if k == 0 {
      assert Wires(fs[..0]) + tail == tail && buf + Joined(fs[..0]) == buf;
    } else {
      var f, gs := fs[0], fs[1..];
      var more := Wires(gs[..k - 1]) + tail;
      assert fs[..k][1..] == gs[..k - 1];
      assert Wires(fs[..k]) + tail == f.Wire() + more;
      assert buf + Joined(fs[..k]) == (buf + f.payload) + Joined(gs[..k - 1]);
      FrameRoundTrip(f, more, limit);
      FragmentsTail(fs, opcode, begun);
      assert !begun ==> buf + f.payload == f.payload;
      CollectPrefix(gs, opcode, true, buf + f.payload, k - 1, limit, tail);
    }
  }

  /** A control frame is returned at once, and takes the fragments read before it with it. */
  lemma {:induction false} CollectInterrupted(fs: seq<ClientFrame>, opcode: nat, k: nat, c: ClientFrame, limit: nat, rest: bytes)
    requires Fragments(fs, opcode, false) && k < |fs| && |Joined(fs[..k])| <= limit
    requires c.Valid() && IsControl(c.opcode) && |c.payload| <= limit
    ensures ReadMessage(Wires(fs[..k]) + (c.Wire() + rest), limit) == Message(c.opcode, c.payload, rest)
  {
    hide ReadFrame, ClientFrame.Wire;
    CollectPrefix(fs, opcode, false, [], k, limit, c.Wire() + rest);
    FrameRoundTrip(c, rest, limit);
  }

  /** A continuation that continues nothing, and a new data frame before the last fragment, are refused. */
  lemma {:induction false} Misplaced(fs: seq<ClientFrame>, opcode: nat, k: nat, g: ClientFrame, limit: nat, rest: bytes)
    requires Fragments(fs, opcode, false) && k < |fs| && |Joined(fs[..k])| <= limit
    requires g.Valid() && (if k == 0 then g.opcode == CONTINUATION else IsData(g.opcode))
    ensures var r := ReadMessage(Wires(fs[..k]) + (g.Wire() + rest), limit); r.Failed? && r.error == InvalidFrame
  {
    hide ReadFrame, ClientFrame.Wire;
    CollectPrefix(fs, opcode, false, [], k, limit, g.Wire() + rest);
    FrameRoundTrip(g, rest, limit);
  }

  /** What is left of a fragmented message is refused. */
  lemma {:induction false} Orphaned(fs: seq<ClientFrame>, limit: nat, opcode: nat)
    requires Fragments(fs, opcode, true)
    ensures ReadAll(Wires(fs), limit) == []
  {
    FrameRoundTrip(fs[0], Wires(fs[1..]), limit);
    hide ReadFrame;
  }

  /** A control frame among the frames of a message.  For a ping or a pong both messages are read exactly when it
      comes before the first fragment or after the last: in between, where section 5.4 allows it, the data
      message is lost and reading ends with an error.  A close frame ends reading, so the data message is read
      exactly when the close frame comes after the last fragment. */
  lemma {:induction false} ControlAmongFragments(fs: seq<ClientFrame>, opcode: nat, c: ClientFrame, k: nat, limit: nat)
    requires Fragments(fs, opcode, false) && |Joined(fs)| <= limit && k <= |fs|
    requires c.Valid() && IsControl(c.opcode) && |c.payload| <= limit
    ensures var control, data := Item(c.opcode, c.payload), Item(opcode, Joined(fs));
            ReadAll(Wires(fs[..k]) + c.Wire() + Wires(fs[k..]), limit) ==
              if k == |fs| then [data, control]
              else if k == 0 && c.opcode != CLOSE then [control, data]
              else [control]
  {
    hide ReadFrame, ClientFrame.Wire, Collect;
    var after := Wires(fs[k..]);
    assert Wires(fs[..k]) + c.Wire() + after == Wires(fs[..k]) + (c.Wire() + after);
    if k == 0 {
      assert fs[..0] == [] && fs[0..] == fs && Wires([]) + (c.Wire() + after) == c.Wire() + after;
      ReadAllControl(c, after, limit);
      assert Wires(fs) + [] == Wires(fs);
      ReadAllMessage(fs, opcode, [], limit);
      ReadAllNothing(limit);
    } else if k == |fs| {
      assert fs[..k] == fs && fs[k..] == [];
      ReadAllMessage(fs, opcode, c.Wire() + after, limit);
      ReadAllControl(c, [], limit);
      ReadAllNothing(limit);
    } else {
      JoinedPrefix(fs, k);
      CollectInterrupted(fs, opcode, k, c, limit, after);
      assert Fragments(fs[k..], opcode, true);
      Orphaned(fs[k..], limit, opcode);
    }
  }

  // ---- Writing a frame ----

  function Minimal(n: nat): Form {
    if n <= 125 then Short else if n <= 65535 then Medium else Long
  }

  function ServerWire(opcode: nat, payload: bytes): bytes
    requires opcode < 16 && Fits(Long, |payload|)
  {
    [128 + opcode] + LengthBytes(Minimal(|payload|), 0, |payload|) + payload
  }

  /** The reading side of section 5.2 for a peer of the server: frames without a mask. */
  datatype PeerFrame = PeerFrame(opcode: nat, fin: bool, form: Form, payload: bytes, rest: bytes) | Incomplete

  function PeerRead(input: bytes): PeerFrame {
    if |input| < 2 || input[1] >= 128 then Incomplete
    else
      var length, tail := input[1], input[2..];
      var e := Extension(length);
      if |tail| < e then Incomplete
      else
        var n, data := if e == 0 then length else Be(tail[..e]), tail[e..];
        if |data| < n then Incomplete else PeerFrame(input[0] % 16, input[0] >= 128, FormOf(length), data[..n], data[n..])
  }

  lemma {:induction false} PeerReadLength(form: Form, payload: bytes, rest: bytes, first: byte)
    requires Fits(form, |payload|)
    ensures PeerRead([first] + LengthBytes(form, 0, |payload|) + payload + rest)
            == PeerFrame(first % 16, first >= 128, form, payload, rest)
  {
    Powers();
    var n := |payload|;
    var l := LengthBytes(form, 0, n);
    var input := [first] + l + payload + rest;
    assert input == [first] + l + (payload + rest);
    Behind(first, l, payload + rest);
    var e := Extension(l[0]);
    assert |l| == 1 + e;
    assert input[2..][..e] == l[1..];
    assert input[2..][e..] == payload + rest;
    if e > 0 {
      BePut(e, n);
      assert l[1..] == PutBe(e, n);
    }
  }

  /** Server frames read back whole at the peer, and no shorter form would hold their length. */
  lemma {:induction false} ServerFrameReads(opcode: nat, payload: bytes, rest: bytes)
    requires opcode < 16 && Fits(Long, |payload|)
    ensures PeerRead(ServerWire(opcode, payload) + rest) == PeerFrame(opcode, true, Minimal(|payload|), payload, rest)
    ensures forall form :: Fits(form, |payload|) ==> |LengthBytes(Minimal(|payload|), 0, |payload|)| <= |LengthBytes(form, 0, |payload|)|
  {
    PeerReadLength(Minimal(|payload|), payload, rest, 128 + opcode);
  }

  /** Frames without a mask are refused: a server does not take its own frames. */
  lemma {:induction false} UnmaskedRefused(opcode: nat, payload: bytes, rest: bytes, limit: nat)
    requires opcode < 16 && Fits(Long, |payload|)
    ensures var r := ReadFrame(ServerWire(opcode, payload) + rest, limit); r.Bad? && r.error == InvalidFrame
  {
    var l := LengthBytes(Minimal(|payload|), 0, |payload|);
    var input := ServerWire(opcode, payload) + rest;
    assert input[1] == l[0];
  }

  // ---- Close payloads (section 5.5.1) ----

  function ParseClose(payload: bytes, utf8: bytes -> bool): (int, bytes) {
    if |payload| < 2 then (CLOSE_NORMAL, [])
    else (Be(payload[..2]), if utf8(payload[2..]) then payload[2..] else [])
  }

  /** The code is cut to 16 bits. */
  function FormatClose(code: int, text: bytes): (r: bytes) {
    PutBe(2, code % 0x1_0000) + text
  }

  lemma {:induction false} CloseRoundTrip(code: int, text: bytes, utf8: bytes -> bool)
    ensures ParseClose(FormatClose(code, text), utf8) == (code, text) <==> 0 <= code < 0x1_0000 && (text == [] || utf8(text))
  {
    Powers();
    BePut(2, code % 0x1_0000);
    var p := FormatClose(code, text);
    assert p[..2] == PutBe(2, code % 0x1_0000) && p[2..] == text;
  }

  lemma {:induction false} CloseReformats(payload: bytes, utf8: bytes -> bool)
    ensures var (code, text) := ParseClose(payload, utf8);
            FormatClose(code, text) == payload <==> |payload| >= 2 && (|payload| == 2 || utf8(payload[2..]))
  {
    Powers();
    if |payload| >= 2 {
      PutBeOf(payload[..2]);
      var (code, text) := ParseClose(payload, utf8);
      assert FormatClose(code, text) == payload[..2] + text;
      assert payload == payload[..2] + payload[2..];
    }
  }

  // ---- What a listening server answers ----

  function Reply(item: Item): bytes {
    if item.opcode == PING && Fits(Long, |item.payload|) then ServerWire(PONG, item.payload)
    else if item.opcode == CLOSE then
      var code := if |item.payload| < 2 then CLOSE_NORMAL else Be(item.payload[..2]);
      ServerWire(CLOSE, FormatClose(code, []))
    else []
  }

  function Replies(items: seq<Item>): bytes {
    if items == [] then [] else Replies(items[..|items| - 1]) + Reply(items[|items| - 1])
  }

  lemma {:induction false} RepliesNone()
    ensures Replies([]) == []
  {
  }

  lemma {:induction false} RepliesMore(items: seq<Item>, item: Item)
    ensures Replies(items + [item]) == Replies(items) + Reply(item)
  {
    assert (items + [item])[..|items|] == items;
  }

  lemma {:induction false} ReadAllTurn(input: bytes, limit: nat)
    ensures ReadAll(input, limit) ==
            match ReadMessage(input, limit)
            case Failed(_, _) => []
            case Message(opcode, payload, rest) => [Item(opcode, payload)] + if opcode == CLOSE then [] else ReadAll(rest, limit)
  {
  }

  /** A close frame is answered by one with its own code, 1000 if it has none; the text is not sent back. */
  lemma {:induction false} CloseEchoed(payload: bytes, rest: bytes, utf8: bytes -> bool)
    ensures var r, code := PeerRead(Reply(Item(CLOSE, payload)) + rest), ParseClose(payload, utf8).0;
            && r.PeerFrame? && r.opcode == CLOSE && r.fin && r.rest == rest && ParseClose(r.payload, utf8) == (code, [])
            && if |payload| < 2 then code == 1000 else code == 0x100 * (payload[0] as int) + payload[1] as int
  {
    var code := CloseCode(payload);
    ServerFrameReads(CLOSE, FormatClose(code, []), rest);
    hide PeerRead, ServerWire;
    CloseRoundTrip(code, [], utf8);
  }

  lemma {:induction false} CloseCode(payload: bytes) returns (code: nat)
    ensures code == if |payload| < 2 then CLOSE_NORMAL else Be(payload[..2])
    ensures |payload| >= 2 ==> code == 0x100 * (payload[0] as int) + payload[1] as int && PutBe(2, code) == payload[..2]
    ensures code < 0x1_0000 && FormatClose(code, []) == PutBe(2, code)
  {
    Powers();
    code := CLOSE_NORMAL;
    if |payload| >= 2 {
      code := Be(payload[..2]);
      PutBeOf(payload[..2]);
      assert payload[..2][..1] == [payload[0]];
      assert [payload[0]][..0] == [];
    }
  }

  /** What the peer reads until its input ends. */
  function PeerReads(input: bytes): seq<PeerFrame>
    decreases |input|
  {
    var r := PeerRead(input);
    if r.PeerFrame? then [r.(rest := [])] + PeerReads(r.rest) else []
  }

  /** The answer that section 5.5 asks for, if any. */
  function Answers(item: Item): seq<PeerFrame> {
    if item.opcode == PING then [PeerFrame(PONG, true, Short, item.payload, [])]
    else if item.opcode == CLOSE then
      [PeerFrame(CLOSE, true, Short, if |item.payload| < 2 then PutBe(2, CLOSE_NORMAL) else item.payload[..2], [])]
    else []
  }

  function AnswersTo(items: seq<Item>): seq<PeerFrame> {
    if items == [] then [] else AnswersTo(items[..|items| - 1]) + Answers(items[|items| - 1])
  }

  lemma {:induction false} OneAnswer(input: bytes)
    requires PeerRead(input).PeerFrame?
    ensures var r := PeerRead(input); PeerReads(input) == [r.(rest := [])] + PeerReads(r.rest)
  {
  }

  lemma {:induction false} ReplyRead(item: Item, rest: bytes)
    requires item.opcode == PING ==> |item.payload| <= 125
    ensures PeerReads(Reply(item) + rest) == Answers(item) + PeerReads(rest)
  {
    hide PeerReads;
    if item.opcode == PING {
      ServerFrameReads(PONG, item.payload, rest);
      hide PeerRead, ServerWire;
      OneAnswer(Reply(item) + rest);
    } else if item.opcode == CLOSE {
      var code := CloseCode(item.payload);
      ServerFrameReads(CLOSE, FormatClose(code, []), rest);
      hide PeerRead, ServerWire, FormatClose;
      OneAnswer(Reply(item) + rest);
    } else {
      assert [] + rest == rest;
    }
  }

  /** Whatever a listening server reads, its peer gets one pong for each ping, with the payload of the ping, and one
      close frame for a close, with its code, in this order, and nothing else. */
  lemma {:induction false} AnsweredInOrder(items: seq<Item>, rest: bytes)
    requires forall i :: 0 <= i < |items| && items[i].opcode == PING ==> |items[i].payload| <= 125
    ensures PeerReads(Replies(items) + rest) == AnswersTo(items) + PeerReads(rest)
    decreases |items|
  {
    hide PeerRead, Reply, Answers, PeerReads;
    if items == [] {
      assert Replies(items) + rest == rest;
    } else {
      var n := |items| - 1;
      ReplyRead(items[n], rest);
      assert Replies(items) + rest == Replies(items[..n]) + (Reply(items[n]) + rest);
      AnsweredInOrder(items[..n], Reply(items[n]) + rest);
      assert AnswersTo(items) + PeerReads(rest) == AnswersTo(items[..n]) + (Answers(items[n]) + PeerReads(rest));
    }
  }

  /** What is read off an input may be answered so. */
  lemma {:induction false} ReadAllBounded(input: bytes, limit: nat, i: nat)
    requires i < |ReadAll(input, limit)|
    ensures var item := ReadAll(input, limit)[i];
            |item.payload| <= limit && (IsData(item.opcode) || (IsControl(item.opcode) && |item.payload| <= 125))
            && (item.opcode == CLOSE ==> i == |ReadAll(input, limit)| - 1)
    decreases |input|
  {
    MessageBounded(input, limit);
    var r := ReadMessage(input, limit);
    hide ReadMessage;
    if i > 0 {
      ReadAllBounded(r.rest, limit, i - 1);
    }
  }
}
