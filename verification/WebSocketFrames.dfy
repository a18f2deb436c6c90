/** The frame format of RFC 6455, as the probe's client writes and reads it (sections 5.2, 5.3
    and 5.5 of RFC 6455). Received frames are unmasked, sent frames are masked. */
module WebSocketFrames {
  import opened Wrappers

  type Byte = bv8

  const FRAME_LIMIT := 65536

  datatype Frame = Frame(fin: bool, opcode: Byte, payload: seq<Byte>)

  datatype Fault =
    | Closed               // the stream ended
    | SendFailed           // `sendall` raised
    | ReservedBit | BadOpcode | MaskBit | NonMinimalLength | BadLength | FrameTooLong
    | BadControlFrame | BadClose
    | StrayContinuation | NestedMessage | MessageTooLong | NotText | PeerClosed

  datatype Parsed = Got(frame: Frame, rest: seq<Byte>) | Bad(fault: Fault)

  predicate LegalOpcode(op: Byte) { op == 0 || op == 1 || op == 2 || op == 8 || op == 9 || op == 10 }

  predicate Control(op: Byte) { op >= 8 }

  // ---- Big-endian lengths ----

  function Pow256(k: nat): nat { if k == 0 then 1 else 256 * Pow256(k - 1) }

  lemma NextByte(b: Byte)
    requires b as nat < 255
    ensures (b + 1) as nat == b as nat + 1
  {
  }

  function ToByte(n: nat): (b: Byte)
    requires n < 256
    ensures b as nat == n
  {
    if n == 0 then 0 else
    NextByte(ToByte(n - 1));
    ToByte(n - 1) + 1
  }

  /** `struct.pack` in network order. */
  function ToBytes(n: nat, k: nat): (s: seq<Byte>)
    ensures |s| == k
  {
    if k == 0 then [] else ToBytes(n / 256, k - 1) + [ToByte(n % 256)]
  }

  /** `struct.unpack` in network order. */
  function FromBytes(s: seq<Byte>): nat {
    if s == [] then 0 else 256 * FromBytes(s[..|s| - 1]) + s[|s| - 1] as nat
  }

  lemma SameByte(a: Byte, b: Byte)
    requires a as nat == b as nat
    ensures a == b
  {
    assert (a as nat) as Byte == a && (b as nat) as Byte == b;
  }

  lemma Digits(high: nat, low: nat)
    requires low < 256
    ensures (256 * high + low) / 256 == high && (256 * high + low) % 256 == low
  {
  }

  lemma {:induction false} FromToBytes(n: nat, k: nat)
    requires n < Pow256(k)
    ensures FromBytes(ToBytes(n, k)) == n
  {
    if k != 0 {
      FromToBytes(n / 256, k - 1);
      assert ToBytes(n, k)[..k - 1] == ToBytes(n / 256, k - 1);
    }
  }

  lemma OneMoreByte(high: nat, last: Byte, k: nat)
    ensures ToBytes(256 * high + last as nat, k + 1) == ToBytes(high, k) + [last]
  {
    SameByte(ToByte(last as nat), last);
    Digits(high, last as nat);
  }

  lemma {:induction false} ToFromBytes(s: seq<Byte>)
    ensures FromBytes(s) < Pow256(|s|) && ToBytes(FromBytes(s), |s|) == s
  {
    if s != [] {
      var front, last := s[..|s| - 1], s[|s| - 1];
      ToFromBytes(front);
      OneMoreByte(FromBytes(front), last, |front|);
      assert s == front + [last];
    }
  }

  lemma Pow256Values()
    ensures Pow256(2) == 65536 && Pow256(8) == 0x1_0000_0000_0000_0000
  {
    assert Pow256(0) == 1;
    assert Pow256(1) == 256;
    assert Pow256(2) == 65536;
    assert Pow256(3) == 0x100_0000;
    assert Pow256(4) == 0x1_0000_0000;
    assert Pow256(5) == 0x100_0000_0000;
    assert Pow256(6) == 0x1_0000_0000_0000;
    assert Pow256(7) == 0x100_0000_0000_0000;
  }

  // ---- Headers ----

  /** The length field: one byte carrying the mask bit, and 0, 2 or 8 more. */
  function LengthField(n: nat, maskBit: Byte): seq<Byte> {
    if n < 126 then [maskBit | ToByte(n)]
    else if n <= 0xFFFF then [maskBit | 126] + ToBytes(n, 2)
    else [maskBit | 127] + ToBytes(n, 8)
  }

  datatype Length = Length(value: nat, size: nat) | NoLength(fault: Fault)

  /** Read the length field at the start of `s`, whose first byte is `second`. */
  function ReadLength(s: seq<Byte>): Length
    requires s != []
  {
    var code := (s[0] & 0x7F) as nat;
    if code < 126 then Length(code, 1)
    else if code == 126 then
      if |s| < 3 then NoLength(Closed)
      else
        var n := FromBytes(s[1..3]);
        if n < 126 then NoLength(NonMinimalLength) else Length(n, 3)
    else if |s| < 9 then NoLength(Closed)
    else
      var n := FromBytes(s[1..9]);
      if n >= 0x8000_0000_0000_0000 then NoLength(BadLength)
      else if n < 65536 then NoLength(NonMinimalLength)
      else Length(n, 9)
  }

  lemma LowBits(b: Byte)
    ensures (b & 0x7F) as nat < 128
    ensures (b & 0x7F) as nat == 126 ==> b == (b & 0x80) | 126
    ensures (b & 0x7F) as nat == 127 ==> b == (b & 0x80) | 127
  {
  }

  lemma OneByteLength(b: Byte)
    requires (b & 0x7F) as nat < 126
    ensures b == (b & 0x80) | ToByte((b & 0x7F) as nat)
  {
    SameByte(ToByte((b & 0x7F) as nat), b & 0x7F);
  }

  lemma SmallLength(n: nat, maskBit: Byte)
    requires n < 126 && (maskBit == 0 || maskBit == 0x80)
    ensures ((maskBit | ToByte(n)) & 0x7F) as nat == n && (maskBit | ToByte(n)) & 0x80 == maskBit
  {
    var b := ToByte(n);
    assert b < 126;
    assert (maskBit | b) & 0x7F == b;
  }

  /** A length field reads back, and only the minimal field does. */
  lemma ReadLengthField(n: nat, maskBit: Byte, more: seq<Byte>)
    requires n < 0x8000_0000_0000_0000 && (maskBit == 0 || maskBit == 0x80)
    ensures var s := LengthField(n, maskBit) + more;
            ReadLength(s) == Length(n, |LengthField(n, maskBit)|) && s[0] & 0x80 == maskBit
  {
    Pow256Values();
    var s := LengthField(n, maskBit) + more;
    if n < 126 {
      SmallLength(n, maskBit);
    } else if n <= 0xFFFF {
      FromToBytes(n, 2);
      assert s[1..3] == ToBytes(n, 2);
    } else {
      FromToBytes(n, 8);
      assert s[1..9] == ToBytes(n, 8);
    }
  }

  lemma LongLength(s: seq<Byte>, k: nat)
    requires k <= 8 && |s| > k
    ensures s[..k + 1] == [s[0]] + ToBytes(FromBytes(s[1..k + 1]), k)
    ensures FromBytes(s[1..k + 1]) < Pow256(k)
  {
    ToFromBytes(s[1..k + 1]);
    assert s[..k + 1] == [s[0]] + s[1..k + 1];
  }

  lemma ReadLengthMinimal(s: seq<Byte>)
    requires s != [] && ReadLength(s).Length?
    ensures var l := ReadLength(s);
            l.size <= |s| && s[..l.size] == LengthField(l.value, s[0] & 0x80)
  {
    Pow256Values();
    LowBits(s[0]);
    var code := (s[0] & 0x7F) as nat;
    if code < 126 {
      OneByteLength(s[0]);
    } else if code == 126 {
      LongLength(s, 2);
    } else {
      LongLength(s, 8);
    }
  }

  // ---- Masking ----

  function Masked(payload: seq<Byte>, key: seq<Byte>): (s: seq<Byte>)
    requires |key| == 4
    ensures |s| == |payload|
  {
    seq(|payload|, i requires 0 <= i < |payload| => payload[i] ^ key[i % 4])
  }

  lemma Unmasks(payload: seq<Byte>, key: seq<Byte>)
    requires |key| == 4
    ensures Masked(Masked(payload, key), key) == payload
  {
    forall i | 0 <= i < |payload| ensures Masked(Masked(payload, key), key)[i] == payload[i] {
      XorTwice(payload[i], key[i % 4]);
    }
  }

  lemma XorTwice(a: Byte, b: Byte)
    ensures (a ^ b) ^ b == a
  {
  }

  // ---- Whole frames ----

  function FirstByte(f: Frame): Byte { (if f.fin then 0x80 else 0) | f.opcode }

  /** A frame on the wire: masked under `key`, or unmasked. */
  function Encode(f: Frame, key: Option<seq<Byte>>): seq<Byte>
    requires key.Some? ==> |key.value| == 4
  {
    Header(f, if key.Some? then 0x80 else 0) + Body(f, key)
  }

  function Header(f: Frame, maskBit: Byte): seq<Byte> { [FirstByte(f)] + LengthField(|f.payload|, maskBit) }

  function Body(f: Frame, key: Option<seq<Byte>>): seq<Byte>
    requires key.Some? ==> |key.value| == 4
  {
    if key.Some? then key.value + Masked(f.payload, key.value) else f.payload
  }

  /** What may travel in a frame, apart from the content of close frames. */
  predicate WellFormed(f: Frame) {
    LegalOpcode(f.opcode) && |f.payload| <= FRAME_LIMIT &&
    (Control(f.opcode) ==> f.fin && |f.payload| <= 125)
  }

  /** Read one frame: unmasked as the probe's client does, or masked as its peer does. */
  function ReadFrame(s: seq<Byte>, masked: bool): Parsed {
    if |s| < 2 then Bad(Closed) else
    var fin := s[0] & 0x80 != 0;
    var opcode := s[0] & 0x0F;
    if s[0] & 0x70 != 0 then Bad(ReservedBit)
    else if !LegalOpcode(opcode) then Bad(BadOpcode)
    else if (s[1] & 0x80 != 0) != masked then Bad(MaskBit)
    else ReadSized(s, masked, fin, opcode)
  }

  /** A frame from its length on. */
  function ReadSized(s: seq<Byte>, masked: bool, fin: bool, opcode: Byte): Parsed
    requires |s| >= 2
  {
    var l := ReadLength(s[1..]);
    if l.NoLength? then Bad(l.fault)
    else if l.value > FRAME_LIMIT then Bad(FrameTooLong)
    else if Control(opcode) && (!fin || l.value > 125) then Bad(BadControlFrame)
    else ReadPayload(s, masked, fin, opcode, 1 + l.size, l.value)
  }

  /** The payload of `n` bytes after a header of `h`. */
  function ReadPayload(s: seq<Byte>, masked: bool, fin: bool, opcode: Byte, h: nat, n: nat): Parsed {
    if !masked then
      if |s| < h + n then Bad(Closed) else Got(Frame(fin, opcode, s[h..h + n]), s[h + n..])
    else if |s| < h + 4 + n then Bad(Closed)
    else Got(Frame(fin, opcode, Masked(s[h + 4..h + 4 + n], s[h..h + 4])), s[h + 4 + n..])
  }

  lemma Middle(a: seq<Byte>, b: seq<Byte>, c: seq<Byte>)
    ensures var s := a + (b + c);
            s[|a|..|a| + |b|] == b && s[|a| + |b|..] == c
  {
  }

  lemma PayloadRoundTrip(header: seq<Byte>, f: Frame, key: Option<seq<Byte>>, more: seq<Byte>)
    requires key.Some? ==> |key.value| == 4
    ensures ReadPayload(header + (Body(f, key) + more), key.Some?, f.fin, f.opcode, |header|, |f.payload|)
            == Got(f, more)
  {
    if key.Some? {
      var masked := Masked(f.payload, key.value);
      var s := header + (Body(f, key) + more);
      assert s == header + (key.value + (masked + more));
      assert s == (header + key.value) + (masked + more);
      Middle(header, key.value, masked + more);
      Middle(header + key.value, masked, more);
      Unmasks(f.payload, key.value);
    } else {
      Middle(header, f.payload, more);
    }
  }

  lemma FirstByteBits(f: Frame)
    requires f.opcode <= 0x0F
    ensures var b := FirstByte(f);
            b & 0x70 == 0 && b & 0x0F == f.opcode && (b & 0x80 != 0 <==> f.fin)
  {
  }

  lemma FirstByteBack(b: Byte)
    requires b & 0x70 == 0
    ensures FirstByte(Frame(b & 0x80 != 0, b & 0x0F, [])) == b
  {
  }

  lemma ReadFrameVia(s: seq<Byte>, f: Frame, masked: bool, h: nat)
    requires |s| >= 2 && s[0] == FirstByte(f) && WellFormed(f)
    requires (s[1] & 0x80 != 0) == masked && h >= 1 && ReadLength(s[1..]) == Length(|f.payload|, h - 1)
    ensures ReadFrame(s, masked) == ReadPayload(s, masked, f.fin, f.opcode, h, |f.payload|)
  {
    FirstByteBits(f);
  }

  lemma HeaderReads(f: Frame, maskBit: Byte, tail: seq<Byte>)
    requires WellFormed(f) && (maskBit == 0 || maskBit == 0x80)
    ensures var s := Header(f, maskBit) + tail;
            ReadFrame(s, maskBit != 0)
            == ReadPayload(s, maskBit != 0, f.fin, f.opcode, |Header(f, maskBit)|, |f.payload|)
  {
    var s := Header(f, maskBit) + tail;
    ReadLengthField(|f.payload|, maskBit, tail);
    assert s[1..] == LengthField(|f.payload|, maskBit) + tail;
    ReadFrameVia(s, f, maskBit != 0, |Header(f, maskBit)|);
  }

  /** Frame round trip: every well-formed frame reads back from its own bytes, masked or not, and
      nothing after it is touched. */
  lemma FrameRoundTrip(f: Frame, key: Option<seq<Byte>>, more: seq<Byte>)
    requires WellFormed(f) && (key.Some? ==> |key.value| == 4)
    ensures ReadFrame(Encode(f, key) + more, key.Some?) == Got(f, more)
  {
    var maskBit: Byte := if key.Some? then 0x80 else 0;
    var tail := Body(f, key) + more;
    HeaderReads(f, maskBit, tail);
    PayloadRoundTrip(Header(f, maskBit), f, key, more);
    assert Encode(f, key) + more == Header(f, maskBit) + tail;
  }

  /** The reader accepts nothing else: what it reads unmasked is exactly the encoding of a
      well-formed frame. */
  lemma ReadFrameIsEncoded(s: seq<Byte>)
    requires ReadFrame(s, false).Got?
    ensures var p := ReadFrame(s, false);
            WellFormed(p.frame) && s == Encode(p.frame, None) + p.rest
  {
    var p := ReadFrame(s, false);
    var l := ReadLength(s[1..]);
    ReadLengthMinimal(s[1..]);
    FirstByteBack(s[0]);
    var field := LengthField(l.value, 0);
    assert s[1..][..l.size] == field;
    SplitAfterHeader(s, field, l.value);
  }

  lemma SplitAfterHeader(s: seq<Byte>, field: seq<Byte>, n: nat)
    requires 1 + |field| + n <= |s| && s[1..][..|field|] == field
    ensures s == [s[0]] + field + s[1 + |field|..1 + |field| + n] + s[1 + |field| + n..]
  {
    assert s[1..1 + |field|] == s[1..][..|field|];
  }

  // ---- Close frames ----

  predicate Between(b: Byte, low: nat, high: nat) { low <= b as nat <= high }

  predicate Continues(b: Byte) { Between(b, 0x80, 0xBF) }

  /** Well-formed UTF-8, as a strict decoder accepts it. */
  predicate Utf8(s: seq<Byte>)
    decreases |s|
  {
    s == [] ||
    (var b := s[0];
     if Between(b, 0, 0x7F) then Utf8(s[1..])
     else if Between(b, 0xC2, 0xDF) then |s| >= 2 && Continues(s[1]) && Utf8(s[2..])
     else if Between(b, 0xE0, 0xEF) then
       |s| >= 3 && Continues(s[1]) && Continues(s[2])
       && (b as nat == 0xE0 ==> s[1] as nat >= 0xA0) && (b as nat == 0xED ==> s[1] as nat <= 0x9F) && Utf8(s[3..])
     else
       Between(b, 0xF0, 0xF4) && |s| >= 4 && Continues(s[1]) && Continues(s[2]) && Continues(s[3])
       && (b as nat == 0xF0 ==> s[1] as nat >= 0x90) && (b as nat == 0xF4 ==> s[1] as nat <= 0x8F) && Utf8(s[4..]))
  }

  predicate CloseOk(payload: seq<Byte>) {
    |payload| == 0 ||
    (|payload| >= 2 &&
     var code := FromBytes(payload[..2]);
     (1000 <= code <= 1003 || 1007 <= code <= 1014 || 3000 <= code <= 4999) && Utf8(payload[2..]))
  }

  predicate Acceptable(f: Frame) { WellFormed(f) && (f.opcode == 8 ==> CloseOk(f.payload)) }

  /** `_receive_frame` over the whole pending stream. */
  function Receive(s: seq<Byte>): Parsed {
    var p := ReadFrame(s, false);
    if p.Got? && p.frame.opcode == 8 && !CloseOk(p.frame.payload) then Bad(BadClose) else p
  }

  /** The client accepts a frame exactly when the stream starts with that frame's bytes. */
  lemma ReceiveIff(s: seq<Byte>, f: Frame, rest: seq<Byte>)
    ensures Receive(s) == Got(f, rest) <==> Acceptable(f) && s == Encode(f, None) + rest
  {
    if Receive(s) == Got(f, rest) { ReadFrameIsEncoded(s); }
    if Acceptable(f) && s == Encode(f, None) + rest { FrameRoundTrip(f, None, rest); }
  }

  /** The client's writer: `None` stands for the exceptions of `_frame`. */
  function ClientFrame(payload: seq<Byte>, opcode: Byte, key: seq<Byte>): Option<seq<Byte>>
    requires |key| == 4
  {
    if !LegalOpcode(opcode) || (Control(opcode) && |payload| > 125) || |payload| > FRAME_LIMIT then None
    else Some(Encode(Frame(true, opcode, payload), Some(key)))
  }

  /** Whatever the writer accepts, its peer reads back in full. */
  lemma ClientFrameRoundTrip(payload: seq<Byte>, opcode: Byte, key: seq<Byte>, more: seq<Byte>)
    requires |key| == 4 && ClientFrame(payload, opcode, key).Some?
    ensures ReadFrame(ClientFrame(payload, opcode, key).value + more, true)
            == Got(Frame(true, opcode, payload), more)
  {
    FrameRoundTrip(Frame(true, opcode, payload), Some(key), more);
  }
}
