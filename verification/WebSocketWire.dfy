/** Frames byte by byte: what stands on the wire, said without the functions that write and read it
    (section 5.2 of RFC 6455), and which close payloads are accepted (section 5.5.1). */
module WebSocketWire {
  import opened Wrappers
  import opened WebSocketFrames

  function HeaderSize(n: nat): nat { if n < 126 then 2 else if n <= 65535 then 4 else 10 }

  /** The header of frame `f` stands at the start of `w`. */
  ghost predicate HeaderOf(w: seq<Byte>, f: Frame, masked: bool) {
    var n := |f.payload|;
    && |w| >= HeaderSize(n)
    && (w[0] & 0x80 != 0 <==> f.fin) && w[0] & 0x70 == 0 && w[0] & 0x0F == f.opcode
    && (w[1] & 0x80 != 0 <==> masked)
    && (n < 126 ==> (w[1] & 0x7F) as nat == n)
    && (126 <= n <= 65535 ==> w[1] & 0x7F == 126 && 256 * w[2] as nat + w[3] as nat == n)
    && (n == 65536 ==> w[1] & 0x7F == 127 && w[2..10] == [0, 0, 0, 0, 0, 1, 0, 0])
  }

  lemma TwoBytes(n: nat)
    requires n <= 65535
    ensures var b := ToBytes(n, 2); 256 * b[0] as nat + b[1] as nat == n
  {
    var high := ToBytes(n / 256, 1);
    assert high == ToBytes(n / 256 / 256, 0) + [ToByte(n / 256 % 256)];
    assert ToBytes(n, 2) == high + [ToByte(n % 256)];
  }

  lemma ZeroByte()
    ensures ToByte(0) == 0 && ToByte(1) == 1
  {
    assert ToByte(1) == ToByte(0) + 1;
  }

  lemma {:induction false} Zeros(k: nat)
    ensures ToBytes(0, k) == seq(k, _ => 0)
  {
    if k > 0 {
      Zeros(k - 1);
      ZeroByte();
    }
  }

  const LONGEST: nat := 65536

  lemma LongBytes()
    ensures ToBytes(LONGEST, 8) == [0, 0, 0, 0, 0, 1, 0, 0]
  {
    ZeroByte();
    Zeros(5);
    var one: nat := 1;
    assert ToBytes(one, 6) == ToBytes(0, 5) + [ToByte(1)];
    assert ToBytes(256, 7) == ToBytes(one, 6) + [ToByte(0)];
    assert ToBytes(LONGEST, 8) == ToBytes(256, 7) + [ToByte(0)];
  }

  lemma LengthOnWire(n: nat, maskBit: Byte)
    requires n <= 65536 && (maskBit == 0 || maskBit == 0x80)
    ensures var l := LengthField(n, maskBit);
            && |l| == HeaderSize(n) - 1 && l[0] & 0x80 == maskBit
            && (n < 126 ==> (l[0] & 0x7F) as nat == n)
            && (126 <= n <= 65535 ==> l[0] & 0x7F == 126 && 256 * l[1] as nat + l[2] as nat == n)
            && (n == 65536 ==> l[0] & 0x7F == 127 && l[1..9] == [0, 0, 0, 0, 0, 1, 0, 0])
  {
    if n < 126 {
      SmallLength(n, maskBit);
    } else if n <= 65535 {
      TwoBytes(n);
      LongCodes(maskBit);
    } else {
      LongBytes();
      LongCodes(maskBit);
    }
  }

  lemma LongCodes(maskBit: Byte)
    requires maskBit == 0 || maskBit == 0x80
    ensures (maskBit | 126) & 0x80 == maskBit && (maskBit | 126) & 0x7F == 126
    ensures (maskBit | 127) & 0x80 == maskBit && (maskBit | 127) & 0x7F == 127
  {
  }

  lemma JoinsHeader(first: Byte, l: seq<Byte>, f: Frame, masked: bool, more: seq<Byte>)
    requires (first & 0x80 != 0 <==> f.fin) && first & 0x70 == 0 && first & 0x0F == f.opcode
    requires var n := |f.payload|;
             && |l| == HeaderSize(n) - 1 && (l[0] & 0x80 != 0 <==> masked)
             && (n < 126 ==> (l[0] & 0x7F) as nat == n)
             && (126 <= n <= 65535 ==> l[0] & 0x7F == 126 && 256 * l[1] as nat + l[2] as nat == n)
             && (n == 65536 ==> l[0] & 0x7F == 127 && l[1..9] == [0, 0, 0, 0, 0, 1, 0, 0])
    ensures HeaderOf([first] + l + more, f, masked)
  {
    var w := [first] + l + more;
    assert w[0] == first && forall i :: 0 <= i < |l| ==> w[1 + i] == l[i];
    if |f.payload| == 65536 {
      assert w[2..10] == l[1..9];
    }
  }

  lemma HeaderOnWire(f: Frame, masked: bool, more: seq<Byte>)
    requires WellFormed(f)
    ensures var header := Header(f, if masked then 0x80 else 0);
            |header| == HeaderSize(|f.payload|) && HeaderOf(header + more, f, masked)
  {
    var maskBit: Byte := if masked then 0x80 else 0;
    var first, l := FirstByte(f), LengthField(|f.payload|, maskBit);
    FirstByteBits(f);
    LengthOnWire(|f.payload|, maskBit);
    JoinsHeader(first, l, f, masked, more);
  }

  /** What the server sends and the client accepts: the header, then the payload as it is. */
  lemma ServerFrameOnWire(s: seq<Byte>, f: Frame, rest: seq<Byte>)
    requires Receive(s) == Got(f, rest)
    ensures HeaderOf(s, f, false) && s[HeaderSize(|f.payload|)..] == f.payload + rest
  {
    ReceiveIff(s, f, rest);
    HeaderOnWire(f, false, f.payload + rest);
    assert s == Header(f, 0) + (f.payload + rest);
  }

  /** What the client sends: the header of one final frame, the four bytes of the key, and every byte of
      the payload under the key byte of its place. It sends exactly the legal frames. */
  lemma ClientFrameOnWire(payload: seq<Byte>, opcode: Byte, key: seq<Byte>)
    requires |key| == 4
    ensures ClientFrame(payload, opcode, key).Some?
            <==> opcode in {0, 1, 2, 8, 9, 10} && (opcode in {8, 9, 10} ==> |payload| <= 125) && |payload| <= 65536
    ensures ClientFrame(payload, opcode, key).Some? ==>
              var w, h := ClientFrame(payload, opcode, key).value, HeaderSize(|payload|);
              && HeaderOf(w, Frame(true, opcode, payload), true)
              && |w| == h + 4 + |payload| && w[h..h + 4] == key
              && forall i :: 0 <= i < |payload| ==> w[h + 4 + i] ^ key[i % 4] == payload[i]
  {
    ClientFrameLegal(payload, opcode, key);
    if ClientFrame(payload, opcode, key).Some? {
      ClientFrameBytes(payload, opcode, key);
    }
  }

  lemma ClientFrameLegal(payload: seq<Byte>, opcode: Byte, key: seq<Byte>)
    requires |key| == 4
    ensures ClientFrame(payload, opcode, key).Some?
            <==> opcode in {0, 1, 2, 8, 9, 10} && (opcode in {8, 9, 10} ==> |payload| <= 125) && |payload| <= 65536
    ensures ClientFrame(payload, opcode, key).Some? ==>
              && WellFormed(Frame(true, opcode, payload))
              && ClientFrame(payload, opcode, key).value
                 == Header(Frame(true, opcode, payload), 0x80) + key + Masked(payload, key)
  {
  }

  lemma ClientFrameBytes(payload: seq<Byte>, opcode: Byte, key: seq<Byte>)
    requires |key| == 4 && WellFormed(Frame(true, opcode, payload))
    ensures var w := Header(Frame(true, opcode, payload), 0x80) + key + Masked(payload, key);
            var h := HeaderSize(|payload|);
            && HeaderOf(w, Frame(true, opcode, payload), true)
            && |w| == h + 4 + |payload| && w[h..h + 4] == key
            && forall i :: 0 <= i < |payload| ==> w[h + 4 + i] ^ key[i % 4] == payload[i]
  {
    var f := Frame(true, opcode, payload);
    var header, masked := Header(f, 0x80), Masked(payload, key);
    HeaderOnWire(f, true, key + masked);
    assert header + key + masked == header + (key + masked);
    MaskOnWire(header, payload, key);
  }

  lemma MaskOnWire(header: seq<Byte>, payload: seq<Byte>, key: seq<Byte>)
    requires |key| == 4
    ensures var w, h := header + (key + Masked(payload, key)), |header|;
            && |w| == h + 4 + |payload| && w[h..h + 4] == key
            && forall i :: 0 <= i < |payload| ==> w[h + 4 + i] ^ key[i % 4] == payload[i]
  {
    var w, h := header + (key + Masked(payload, key)), |header|;
    forall i | 0 <= i < |payload|
      ensures w[h + 4 + i] ^ key[i % 4] == payload[i]
    {
      assert w[h + 4 + i] == Masked(payload, key)[i];
      XorTwice(payload[i], key[i % 4]);
    }
  }

  // ---- Close payloads ----

  /** A Unicode scalar value: any code point but the surrogates. */
  predicate Scalar(c: nat) { c < 0xD800 || 0xE000 <= c < 0x11_0000 }

  /** The byte `base + n`. */
  function Above(base: nat, n: nat): (b: Byte)
    requires base + n < 256
    ensures b as nat == base + n
  {
    ToByte(base + n)
  }

  /** The UTF-8 encoding of one scalar value: a leading byte, and continuation bytes of six bits each. */
  function EncodeScalar(c: nat): seq<Byte>
    requires Scalar(c)
  {
    if c < 0x80 then [Above(0, c)]
    else if c < 0x800 then [Above(0xC0, c / 64), Above(0x80, c % 64)]
    else if c < 0x1_0000 then [Above(0xE0, c / 4096), Above(0x80, c / 64 % 64), Above(0x80, c % 64)]
    else [Above(0xF0, c / 262144), Above(0x80, c / 4096 % 64), Above(0x80, c / 64 % 64), Above(0x80, c % 64)]
  }

  ghost predicate Scalars(cs: seq<nat>) { forall c :: c in cs ==> Scalar(c) }

  function EncodeText(cs: seq<nat>): seq<Byte>
    requires Scalars(cs)
  {
    if cs == [] then [] else EncodeScalar(cs[0]) + EncodeText(cs[1..])
  }

  lemma Digits64(a: nat, b: nat, c: nat)
    requires b < 64 && c == 64 * a + b
    ensures c / 64 == a && c % 64 == b
  {
  }

  lemma Digits4096(x: nat, y: nat, z: nat, c: nat)
    requires y < 64 && z < 64 && c == 4096 * x + 64 * y + z
    ensures c / 4096 == x && c / 64 % 64 == y && c % 64 == z
  {
    Digits64(64 * x + y, z, c);
    Digits64(x, y, 64 * x + y);
  }

  lemma Digits262144(x: nat, y: nat, z: nat, w: nat, c: nat)
    requires y < 64 && z < 64 && w < 64 && c == 262144 * x + 4096 * y + 64 * z + w
    ensures c / 262144 == x && c / 4096 % 64 == y && c / 64 % 64 == z && c % 64 == w
  {
    Digits4096(64 * x + y, z, w, c);
    Digits64(x, y, 64 * x + y);
  }

  lemma IsAbove(base: nat, n: nat, b: Byte)
    requires base + n == b as nat
    ensures base + n < 256 && Above(base, n) == b
  {
    SameByte(Above(base, n), b);
  }

  lemma TwoByteScalar(b0: Byte, b1: Byte) returns (c: nat)
    requires Between(b0, 0xC2, 0xDF) && Continues(b1)
    ensures Scalar(c) && EncodeScalar(c) == [b0, b1]
  {
    var x, y := b0 as nat - 0xC0, b1 as nat - 0x80;
    c := 64 * x + y;
    Digits64(x, y, c);
    IsAbove(0xC0, x, b0);
    IsAbove(0x80, y, b1);
  }

  lemma ThreeByteScalar(b0: Byte, b1: Byte, b2: Byte) returns (c: nat)
    requires Between(b0, 0xE0, 0xEF) && Continues(b1) && Continues(b2)
    requires (b0 as nat == 0xE0 ==> b1 as nat >= 0xA0) && (b0 as nat == 0xED ==> b1 as nat <= 0x9F)
    ensures Scalar(c) && EncodeScalar(c) == [b0, b1, b2]
  {
    var x, y, z := b0 as nat - 0xE0, b1 as nat - 0x80, b2 as nat - 0x80;
    c := 4096 * x + 64 * y + z;
    Digits4096(x, y, z, c);
    IsAbove(0xE0, x, b0);
    IsAbove(0x80, y, b1);
    IsAbove(0x80, z, b2);
  }

  lemma FourByteScalar(b0: Byte, b1: Byte, b2: Byte, b3: Byte) returns (c: nat)
    requires Between(b0, 0xF0, 0xF4) && Continues(b1) && Continues(b2) && Continues(b3)
    requires (b0 as nat == 0xF0 ==> b1 as nat >= 0x90) && (b0 as nat == 0xF4 ==> b1 as nat <= 0x8F)
    ensures Scalar(c) && EncodeScalar(c) == [b0, b1, b2, b3]
  {
    var x, y, z, w := b0 as nat - 0xF0, b1 as nat - 0x80, b2 as nat - 0x80, b3 as nat - 0x80;
    c := 262144 * x + 4096 * y + 64 * z + w;
    Digits262144(x, y, z, w, c);
    IsAbove(0xF0, x, b0);
    IsAbove(0x80, y, b1);
    IsAbove(0x80, z, b2);
    IsAbove(0x80, w, b3);
  }

  lemma FirstShort(s: seq<Byte>) returns (c: nat, k: nat)
    requires s != [] && Utf8(s) && s[0] as nat < 0xE0
    ensures Scalar(c) && 1 <= k <= |s| && s[..k] == EncodeScalar(c) && Utf8(s[k..])
  {
    if s[0] as nat < 0x80 {
      c, k := s[0] as nat, 1;
      IsAbove(0, c, s[0]);
      assert EncodeScalar(c) == [s[0]];
    } else {
      c := TwoByteScalar(s[0], s[1]);
      k := 2;
      assert s[..2] == [s[0], s[1]];
    }
  }

  /** The scalar value at the start of well-formed text, and how many bytes it takes. */
  lemma FirstScalar(s: seq<Byte>) returns (c: nat, k: nat)
    requires s != [] && Utf8(s)
    ensures Scalar(c) && 1 <= k <= |s| && s[..k] == EncodeScalar(c) && Utf8(s[k..])
  {
    if s[0] as nat < 0xE0 {
      c, k := FirstShort(s);
    } else if Between(s[0], 0xE0, 0xEF) {
      c := ThreeByteScalar(s[0], s[1], s[2]);
      k := 3;
      assert s[..3] == [s[0], s[1], s[2]];
    } else {
      c := FourByteScalar(s[0], s[1], s[2], s[3]);
      k := 4;
      assert s[..4] == [s[0], s[1], s[2], s[3]];
    }
  }

  lemma {:induction false} Decodes(s: seq<Byte>) returns (cs: seq<nat>)
    requires Utf8(s)
    ensures Scalars(cs) && EncodeText(cs) == s
    decreases |s|
  {
    if s == [] {
      cs := [];
    } else {
      var c, k := FirstScalar(s);
      var rest := Decodes(s[k..]);
      cs := [c] + rest;
      assert cs[1..] == rest && s == s[..k] + s[k..];
    }
  }

  lemma ShortScalar(c: nat, rest: seq<Byte>)
    requires c < 0x800 && Utf8(rest)
    ensures Utf8(EncodeScalar(c) + rest)
  {
    if c < 0x80 {
      OneByteIsUtf8(Above(0, c), rest);
    } else {
      TwoBytesAreUtf8(Above(0xC0, c / 64), Above(0x80, c % 64), rest);
    }
  }

  lemma Leading(c: nat)
    requires Scalar(c)
    ensures 0x800 <= c < 0x1_0000 ==>
              c / 4096 < 16 && (c / 4096 == 0 ==> c / 64 % 64 >= 32) && (c / 4096 == 13 ==> c / 64 % 64 < 32)
    ensures c >= 0x1_0000 ==>
              c / 262144 < 5 && (c / 262144 == 0 ==> c / 4096 % 64 >= 16) && (c / 262144 == 4 ==> c / 4096 % 64 < 16)
  {
    assert c / 4096 == c / 64 / 64 && c / 262144 == c / 4096 / 64;
  }

  lemma ScalarIsUtf8(c: nat, rest: seq<Byte>)
    requires Scalar(c) && Utf8(rest)
    ensures Utf8(EncodeScalar(c) + rest)
  {
    Leading(c);
    if c < 0x800 {
      ShortScalar(c, rest);
    } else if c < 0x1_0000 {
      ThreeBytesAreUtf8(Above(0xE0, c / 4096), Above(0x80, c / 64 % 64), Above(0x80, c % 64), rest);
    } else {
      FourBytesAreUtf8(Above(0xF0, c / 262144), Above(0x80, c / 4096 % 64), Above(0x80, c / 64 % 64),
                       Above(0x80, c % 64), rest);
    }
  }

  lemma OneByteIsUtf8(a: Byte, rest: seq<Byte>)
    requires Between(a, 0, 0x7F) && Utf8(rest)
    ensures Utf8([a] + rest)
  {
  }

  lemma TwoBytesAreUtf8(a: Byte, b: Byte, rest: seq<Byte>)
    requires Between(a, 0xC2, 0xDF) && Continues(b) && Utf8(rest)
    ensures Utf8([a, b] + rest)
  {
    assert ([a, b] + rest)[2..] == rest;
  }

  lemma ThreeBytesAreUtf8(a: Byte, b: Byte, c: Byte, rest: seq<Byte>)
    requires Between(a, 0xE0, 0xEF) && Continues(b) && Continues(c) && Utf8(rest)
    requires (a as nat == 0xE0 ==> b as nat >= 0xA0) && (a as nat == 0xED ==> b as nat <= 0x9F)
    ensures Utf8([a, b, c] + rest)
  {
    assert ([a, b, c] + rest)[3..] == rest;
  }

  lemma FourBytesAreUtf8(a: Byte, b: Byte, c: Byte, d: Byte, rest: seq<Byte>)
    requires Between(a, 0xF0, 0xF4) && Continues(b) && Continues(c) && Continues(d) && Utf8(rest)
    requires (a as nat == 0xF0 ==> b as nat >= 0x90) && (a as nat == 0xF4 ==> b as nat <= 0x8F)
    ensures Utf8([a, b, c, d] + rest)
  {
    assert ([a, b, c, d] + rest)[4..] == rest;
  }

  lemma {:induction false} EncodesUtf8(cs: seq<nat>)
    requires Scalars(cs)
    ensures Utf8(EncodeText(cs))
  {
    if cs != [] {
      EncodesUtf8(cs[1..]);
      ScalarIsUtf8(cs[0], EncodeText(cs[1..]));
    }
  }

  /** The strict decoder accepts exactly the encodings of scalar values. */
  lemma Utf8Iff(s: seq<Byte>)
    ensures Utf8(s) <==> exists cs :: Scalars(cs) && EncodeText(cs) == s
  {
    if Utf8(s) {
      var cs := Decodes(s);
    }
    if cs :| Scalars(cs) && EncodeText(cs) == s {
      EncodesUtf8(cs);
    }
  }

  /** A close payload is accepted exactly when it is empty, or two bytes of a code that may be sent and
      a text. */
  lemma CloseIff(payload: seq<Byte>)
    ensures CloseOk(payload) <==>
            || payload == []
            || (|payload| >= 2 && (exists cs :: Scalars(cs) && EncodeText(cs) == payload[2..])
                && var code := 256 * payload[0] as nat + payload[1] as nat;
                   1000 <= code <= 1003 || 1007 <= code <= 1014 || 3000 <= code <= 4999)
  {
    if |payload| >= 2 {
      Utf8Iff(payload[2..]);
      var two := payload[..2];
      assert two[..1] == [two[0]] && [two[0]][..0] == [];
      assert FromBytes([]) == 0 && FromBytes([two[0]]) == two[0] as nat;
      assert FromBytes(two) == 256 * FromBytes(two[..1]) + two[1] as nat;
    }
  }

  // ---- A stream that goes on ----

  lemma LongerLength(s: seq<Byte>, t: seq<Byte>)
    requires s != []
    ensures var l := ReadLength(s);
            l.Length? || l.fault != Closed ==> ReadLength(s + t) == l
    ensures ReadLength(s).Length? ==> ReadLength(s).size <= |s| && ReadLength(s).size <= 9
  {
    if |s| >= 3 { assert (s + t)[1..3] == s[1..3]; }
    if |s| >= 9 { assert (s + t)[1..9] == s[1..9]; }
  }

  lemma LongerPayload(s: seq<Byte>, t: seq<Byte>, fin: bool, opcode: Byte, h: nat, n: nat)
    requires ReadPayload(s, false, fin, opcode, h, n).Got?
    ensures var p := ReadPayload(s, false, fin, opcode, h, n);
            ReadPayload(s + t, false, fin, opcode, h, n) == Got(p.frame, p.rest + t)
  {
    assert (s + t)[h..h + n] == s[h..h + n] && (s + t)[h + n..] == s[h + n..] + t;
  }

  lemma LongerFrame(s: seq<Byte>, t: seq<Byte>)
    ensures var p := ReadFrame(s, false);
            && (p.Got? ==> ReadFrame(s + t, false) == Got(p.frame, p.rest + t))
            && (p.Bad? && p.fault != Closed ==> ReadFrame(s + t, false) == p)
  {
    if |s| >= 2 {
      var l := ReadLength(s[1..]);
      assert (s + t)[1..] == s[1..] + t;
      LongerLength(s[1..], t);
      if l.Length? && ReadPayload(s, false, s[0] & 0x80 != 0, s[0] & 0x0F, 1 + l.size, l.value).Got? {
        LongerPayload(s, t, s[0] & 0x80 != 0, s[0] & 0x0F, 1 + l.size, l.value);
      }
    }
  }

  /** With this many bytes the next frame is there, or not a frame. */
  const ENOUGH: nat := 65556

  lemma EnoughBytes(s: seq<Byte>)
    requires |s| >= ENOUGH
    ensures Receive(s) != Bad(Closed)
  {
    LongerLength(s[1..], []);
  }

  /** Reading a frame is incremental. A frame that is there, and any fault but a closed stream, stays
      whatever more arrives; and a stream reads as closed exactly if more bytes would change that. */
  lemma MoreBytes(s: seq<Byte>, t: seq<Byte>)
    ensures Receive(s).Got? ==> Receive(s + t) == Got(Receive(s).frame, Receive(s).rest + t)
    ensures Receive(s).Bad? && Receive(s).fault != Closed ==> Receive(s + t) == Receive(s)
    ensures Receive(s) == Bad(Closed) <==> Receive(s).Bad? && exists u :: Receive(s + u) != Receive(s)
  {
    LongerFrame(s, t);
    if Receive(s) == Bad(Closed) {
      var u: seq<Byte> := seq(ENOUGH, _ => 0);
      EnoughBytes(s + u);
    }
    forall u | Receive(s).Bad? && Receive(s + u) != Receive(s)
      ensures Receive(s) == Bad(Closed)
    {
      LongerFrame(s, u);
    }
  }
}
