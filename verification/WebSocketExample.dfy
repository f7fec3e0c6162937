/** What masks, headers and refusals of WebSocket frames are, told apart from the
  definitions the connection is proved against, and the examples of section 5.7
  of RFC 6455 through the connection itself. */
module WebSocketExample {
  import opened Common
  import opened WebSocketFrame
  import opened WebSocket

  // ------------------------------------------------------------- masked bytes

  /** Bit `k` of a number, the least significant first. */
  function Bit(n: nat, k: nat): nat { if k == 0 then n % 2 else Bit(n / 2, k - 1) }

  lemma LowBit(x: nat, r: nat)
    requires x < 2
    ensures (x + 2 * r) % 2 == x && (x + 2 * r) / 2 == r
  {
  }

  lemma {:induction false} XorBitsExact(a: nat, b: nat, bits: nat, k: nat)
    requires k < bits
    ensures Bit(XorBits(a, b, bits), k) == 1 <==> Bit(a, k) != Bit(b, k)
    decreases k
  {
    var x, r := (a + b) % 2, XorBits(a / 2, b / 2, bits - 1);
    LowBit(x, r);
    if k > 0 {
      XorBitsExact(a / 2, b / 2, bits - 1, k - 1);
      HigherBit(x + 2 * r, k);
      HigherBit(a, k);
      HigherBit(b, k);
    } else {
      Parity(a, b);
    }
  }

  lemma HigherBit(n: nat, k: nat)
    requires k > 0
    ensures Bit(n, k) == Bit(n / 2, k - 1)
  {
  }

  lemma Parity(a: nat, b: nat)
    ensures (a + b) % 2 == 1 <==> a % 2 != b % 2
  {
  }

  /** A bit is set if and only if it is set in one of the two bytes only. */
  lemma XorExact(a: byte, b: byte, k: nat)
    requires k < 8
    ensures Bit(Xor(a, b), k) == 1 <==> Bit(a, k) != Bit(b, k)
  {
    XorBitsExact(a, b, 8, k);
  }

  /** The byte with these bits, the most significant first. */
  function Octet(b: seq<nat>): nat
    requires |b| == 8
  {
    128 * b[0] + 64 * b[1] + 32 * b[2] + 16 * b[3] + 8 * b[4] + 4 * b[5] + 2 * b[6] + b[7]
  }

  lemma NextBit(a: nat, b: nat, n: nat, r: nat, i: nat, j: nat)
    requires XorBits(a, b, n) == r && i < 2 && j < 2
    ensures XorBits(2 * a + i, 2 * b + j, n + 1) == (i + j) % 2 + 2 * r
  {
    LowBit(i, a);
    LowBit(j, b);
    LastBits(i, j, a, b);
  }

  lemma LastBits(i: nat, j: nat, a: nat, b: nat)
    ensures (2 * a + i + (2 * b + j)) % 2 == (i + j) % 2
  {
  }

  /** Exclusive or, from the bits. */
  lemma XorOctets(m: byte, n: byte, r: byte, a: seq<nat>, b: seq<nat>, c: seq<nat>)
    requires |a| == |b| == |c| == 8 && (forall k :: 0 <= k < 8 ==> a[k] < 2 && b[k] < 2 && c[k] == (a[k] + b[k]) % 2)
    requires m == Octet(a) && n == Octet(b) && r == Octet(c)
    ensures Xor(m, n) == r
  {
    var x, y, z, k := 0, 0, 0, 0;
    while k < 8
      invariant k <= 8 && XorBits(x, y, k) == z && x == Top(a, k) && y == Top(b, k) && z == Top(c, k)
    {
      NextBit(x, y, k, z, a[k], b[k]);
      x, y, z := 2 * x + a[k], 2 * y + b[k], c[k] + 2 * z;
      k := k + 1;
    }
    TopIsOctet(a);
    TopIsOctet(b);
    TopIsOctet(c);
  }

  /** The first `k` bits as a number. */
  function Top(b: seq<nat>, k: nat): nat
    requires k <= |b|
  {
    if k == 0 then 0 else 2 * Top(b, k - 1) + b[k - 1]
  }

  lemma TopIsOctet(b: seq<nat>)
    requires |b| == 8
    ensures Top(b, 8) == Octet(b)
  {
    TopNext(b, 0);
    TopNext(b, 1);
    TopNext(b, 2);
    TopNext(b, 3);
    TopNext(b, 4);
    TopNext(b, 5);
    TopNext(b, 6);
    TopNext(b, 7);
  }

  lemma TopNext(b: seq<nat>, k: nat)
    requires k < |b|
    ensures Top(b, k + 1) == 2 * Top(b, k) + b[k]
  {
  }

  // ----------------------------------------------------------------- headers

  lemma TwoBytes(n: nat)
    requires n < 0x1_0000
    ensures BigBytes(n, 2) == [n / 256, n % 256]
  {
    assert BigBytes(n / 256, 1) == [] + [n / 256 % 256];
  }

  lemma EightBytes(n: nat)
    requires n < 0x1_0000
    ensures BigBytes(n, 8) == [0, 0, 0, 0, 0, 0, n / 256, n % 256]
  {
    TwoBytes(n);
    OnlyZeros(6);
    LeadingZeros(n, 2, 6);
    assert BigBytes(0, 6) == [0, 0, 0, 0, 0, 0];
  }

  lemma {:induction false} OnlyZeros(k: nat)
    ensures BigBytes(0, k) == seq(k, _ => 0)
  {
    if k > 0 { OnlyZeros(k - 1); }
  }

  /** A number that fits into `size` bytes, in `k` more. */
  lemma {:induction false} LeadingZeros(n: nat, size: nat, k: nat)
    requires n < Power(size)
    ensures BigBytes(n, size + k) == BigBytes(0, k) + BigBytes(n, size)
    decreases size
  {
    if size == 0 {
      assert BigBytes(n, 0) == [];
    } else {
      LeadingZeros(n / 256, size - 1, k);
      assert BigBytes(n / 256, size - 1 + k) + [n % 256] == BigBytes(0, k) + (BigBytes(n / 256, size - 1) + [n % 256]);
    }
  }

  /** The longer forms of section 5.2: the length in two or in eight bytes, the
      most significant first. */
  lemma LongHeaders(message: seq<byte>)
    requires 126 <= |message| < 0x1_0000
    ensures Encode(Frame(true, 2, None, message, Two)) == [0x82, 126, |message| / 256, |message| % 256] + message
    ensures Encode(Frame(true, 2, None, message, Eight)) ==
            [0x82, 127, 0, 0, 0, 0, 0, 0, |message| / 256, |message| % 256] + message
  {
    TwoBytes(|message|);
    EightBytes(|message|);
  }

  // ---------------------------------------------------------------- refusals

  /** A frame is refused if and only if it is a control frame in fragments, has an
      opcode that is none, continues nothing, or begins a message within one. */
  lemma FrameRefused(a: Assembly, final: bool, opcode: byte, data: seq<byte>)
    requires opcode < 16
    ensures HandleFrame(a, final, opcode, data).Refused? <==>
              (opcode >= 8 && (!final || opcode > 10)) || (opcode == 0 && a.appData == []) ||
              (0 < opcode < 8 && (a.appData != [] || (final && opcode > 2))) || (opcode == 0 && final && a.lastOpcode !in [1, 2, 8, 9, 10])
  {
  }

  // ------------------------------------- the examples of section 5.7 of RFC 6455

  /** "Hello" */
  const HELLO: seq<byte> := [0x48, 0x65, 0x6C, 0x6C, 0x6F]

  lemma FirstLetter(m: byte, n: byte)
    requires m == 0x7F && n == 0x37
    ensures Xor(m, n) == 0x48
  {
    XorOctets(m, n, 0x48, [0, 1, 1, 1, 1, 1, 1, 1], [0, 0, 1, 1, 0, 1, 1, 1], [0, 1, 0, 0, 1, 0, 0, 0]);
  }

  lemma SecondLetter(m: byte, n: byte)
    requires m == 0x9F && n == 0xFA
    ensures Xor(m, n) == 0x65
  {
    XorOctets(m, n, 0x65, [1, 0, 0, 1, 1, 1, 1, 1], [1, 1, 1, 1, 1, 0, 1, 0], [0, 1, 1, 0, 0, 1, 0, 1]);
  }

  lemma ThirdLetter(m: byte, n: byte)
    requires m == 0x4D && n == 0x21
    ensures Xor(m, n) == 0x6C
  {
    XorOctets(m, n, 0x6C, [0, 1, 0, 0, 1, 1, 0, 1], [0, 0, 1, 0, 0, 0, 0, 1], [0, 1, 1, 0, 1, 1, 0, 0]);
  }

  lemma FourthLetter(m: byte, n: byte)
    requires m == 0x51 && n == 0x3D
    ensures Xor(m, n) == 0x6C
  {
    XorOctets(m, n, 0x6C, [0, 1, 0, 1, 0, 0, 0, 1], [0, 0, 1, 1, 1, 1, 0, 1], [0, 1, 1, 0, 1, 1, 0, 0]);
  }

  lemma FifthLetter(m: byte, n: byte)
    requires m == 0x58 && n == 0x37
    ensures Xor(m, n) == 0x6F
  {
    XorOctets(m, n, 0x6F, [0, 1, 0, 1, 1, 0, 0, 0], [0, 0, 1, 1, 0, 1, 1, 1], [0, 1, 1, 0, 1, 1, 1, 1]);
  }

  lemma HelloUnmasked(key: seq<byte>, data: seq<byte>)
    requires key == [0x37, 0xFA, 0x21, 0x3D] && data == [0x7F, 0x9F, 0x4D, 0x51, 0x58]
    ensures Mask(key, data) == HELLO
  {
    FirstLetter(data[0], key[0]);
    SecondLetter(data[1], key[1]);
    ThirdLetter(data[2], key[2]);
    FourthLetter(data[3], key[3]);
    FifthLetter(data[4], key[0]);
  }

  lemma MaskedFrame(s: seq<byte>, limit: nat)
    requires s == [0x81, 0x85, 0x37, 0xFA, 0x21, 0x3D, 0x7F, 0x9F, 0x4D, 0x51, 0x58]
    ensures Read(s, limit) == Full(11, HELLO) && FinalBit(s[0]) > 0 && OpcodeOf(s[0]) == 1
  {
    assert s[2..6] == [0x37, 0xFA, 0x21, 0x3D] && s[6..11] == [0x7F, 0x9F, 0x4D, 0x51, 0x58];
    HelloUnmasked(s[2..6], s[6..11]);
    ShortMasked(s, limit);
  }

  lemma ShortMasked(s: seq<byte>, limit: nat)
    requires |s| == 11 && s[1] == 0x85 && !IsControl(OpcodeOf(s[0]))
    ensures Read(s, limit) == Full(11, Mask(s[2..6], s[6..11]))
  {
  }

  lemma PlainFrame(header: byte, text: seq<byte>, limit: nat)
    requires |text| < 126 && !Reserved(header)
    ensures Read([header, |text|] + text, limit) == Full(|text| + 2, text)
  {
    var s := [header, |text|] + text;
    assert s[0] == header && s[1] == |text| && s[2..|text| + 2] == text;
  }

  /** A single masked frame. */
  method MaskedHello() returns (events: seq<Event>)
    ensures events == [Message(1, HELLO)]
  {
    var c := new WsConnection(10 * 1024 * 1024);
    var frame := [0x81, 0x85, 0x37, 0xFA, 0x21, 0x3D, 0x7F, 0x9F, 0x4D, 0x51, 0x58];
    MaskedFrame(frame, c.maxPayloadLen);
    var _ := c.OnRead(frame, 0);
    events := c.events;
  }

  /** Two fragments. */
  method FragmentedHello() returns (events: seq<Event>)
    ensures events == [Message(1, HELLO)]
  {
    var c := new WsConnection(10 * 1024 * 1024);
    PlainFrame(0x01, [0x48, 0x65, 0x6C], c.maxPayloadLen);
    PlainFrame(0x80, [0x6C, 0x6F], c.maxPayloadLen);
    assert [0x01, 3] + [0x48, 0x65, 0x6C] == [0x01, 0x03, 0x48, 0x65, 0x6C] && [0x80, 2] + [0x6C, 0x6F] == [0x80, 0x02, 0x6C, 0x6F];
    assert [0x48, 0x65, 0x6C] + [0x6C, 0x6F] == HELLO;
    var _ := c.OnRead([0x01, 0x03, 0x48, 0x65, 0x6C], 0);
    var _ := c.OnRead([0x80, 0x02, 0x6C, 0x6F], 0);
    events := c.events;
  }

  /** A ping, which is answered with a pong. */
  method PingHello() returns (events: seq<Event>)
    ensures events == [PongSent(HELLO)]
  {
    var c := new WsConnection(10 * 1024 * 1024);
    PlainFrame(0x89, HELLO, c.maxPayloadLen);
    assert [0x89, 5] + HELLO == [0x89, 0x05, 0x48, 0x65, 0x6C, 0x6C, 0x6F];
    var _ := c.OnRead([0x89, 0x05, 0x48, 0x65, 0x6C, 0x6C, 0x6F], 0);
    events := c.events;
  }

  /** The frame sent for it. */
  method SendHello(c: WsConnection) returns (buf: seq<byte>)
    ensures buf == [0x81, 0x05, 0x48, 0x65, 0x6C, 0x6C, 0x6F]
  {
    buf := c.SendFrame(true, 1, HELLO);
  }
}
