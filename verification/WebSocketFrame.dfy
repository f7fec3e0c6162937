/** WebSocket frames as bytes: section 5.2 of RFC 6455, as wsconnection.cpp
  writes and reads them. */
module WebSocketFrame {
  import opened Common

  type byte = n: nat | n < 256

  /** Exclusive or, bit by bit. */
  function XorBits(a: nat, b: nat, bits: nat): (r: nat) {
    if bits == 0 then 0 else (a + b) % 2 + 2 * XorBits(a / 2, b / 2, bits - 1)
  }

  function Power2(k: nat): (p: nat)
    ensures p > 0
  {
    if k == 0 then 1 else 2 * Power2(k - 1)
  }

  lemma {:induction false} XorBound(a: nat, b: nat, bits: nat)
    ensures XorBits(a, b, bits) < Power2(bits)
  {
    if bits > 0 { XorBound(a / 2, b / 2, bits - 1); }
  }

  lemma LastBit(a: nat, b: nat, r: nat)
    ensures var x := (a + b) % 2 + 2 * r; x / 2 == r && (x + b) % 2 == a % 2
  {
  }

  lemma {:induction false} XorBitsTwice(a: nat, b: nat, bits: nat)
    requires a < Power2(bits)
    ensures XorBits(XorBits(a, b, bits), b, bits) == a
  {
    if bits > 0 {
      var r := XorBits(a / 2, b / 2, bits - 1);
      LastBit(a, b, r);
      XorBitsTwice(a / 2, b / 2, bits - 1);
      var x := (a + b) % 2 + 2 * r;
      assert XorBits(x, b, bits) == (x + b) % 2 + 2 * XorBits(r, b / 2, bits - 1);
    }
  }

  lemma EightBits()
    ensures Power2(8) == 256
  {
    assert Power2(4) == 16;
  }

  function Xor(a: byte, b: byte): (r: byte) {
    XorBound(a, b, 8);
    EightBits();
    XorBits(a, b, 8)
  }

  lemma XorTwice(a: byte, b: byte)
    ensures Xor(Xor(a, b), b) == a
  {
    EightBits();
    XorBitsTwice(a, b, 8);
  }

  // -------------------------------------------------------- the first bytes

  // The masks of the code on single bits and nibbles, as arithmetic.

  /** `h & 0x70` */
  predicate Reserved(h: byte) { h / 16 % 8 != 0 }

  /** `h & 0x80` */
  function FinalBit(h: byte): byte { h / 128 * 128 }

  /** `h & 0x0f` */
  function OpcodeOf(h: byte): byte { h % 16 }

  /** `final | opcode`, which share no bit */
  function Header(final: bool, opcode: byte): byte
    requires opcode < 16
  {
    (if final then 128 else 0) + opcode
  }

  /** `opcode & 0x08` */
  predicate IsControl(opcode: byte) { opcode / 8 % 2 == 1 }

  /** `b & 0x80` */
  predicate Masked(b: byte) { b >= 128 }

  /** `b & 0x7f` */
  function Len7(b: byte): (n: nat)
    ensures n < 128
  {
    b % 128
  }

  /** The length byte that is written. */
  function LengthByte(masked: bool, n: nat): byte
    requires n < 128
  {
    (if masked then 128 else 0) + n
  }

  lemma HeaderParts(final: bool, opcode: byte)
    requires opcode < 16
    ensures var h := Header(final, opcode);
            !Reserved(h) && (FinalBit(h) > 0 <==> final) && OpcodeOf(h) == opcode
  {
  }

  lemma LengthParts(masked: bool, n: nat)
    requires n < 128
    ensures Masked(LengthByte(masked, n)) <==> masked
    ensures Len7(LengthByte(masked, n)) == n
  {
  }

  // ---------------------------------------------------------------- numbers

  /** The value of bytes, the most significant first. */
  function BigValue(b: seq<byte>): nat {
    if b == [] then 0 else BigValue(b[..|b| - 1]) * 256 + b[|b| - 1]
  }

  /** The same bytes read on a little-endian machine. */
  function LittleValue(b: seq<byte>): nat {
    if b == [] then 0 else b[0] + 256 * LittleValue(b[1..])
  }

  function BigBytes(n: nat, size: nat): (b: seq<byte>)
    ensures |b| == size
    decreases size
  {
    if size == 0 then [] else BigBytes(n / 256, size - 1) + [n % 256]
  }

  function Power(k: nat): (p: nat)
    ensures p > 0
  {
    if k == 0 then 1 else 256 * Power(k - 1)
  }

  lemma {:induction false} BigRoundTrip(n: nat, size: nat)
    requires n < Power(size)
    ensures BigValue(BigBytes(n, size)) == n
    decreases size
  {
    if size > 0 {
      BigRoundTrip(n / 256, size - 1);
      var b := BigBytes(n, size);
      assert b[..|b| - 1] == BigBytes(n / 256, size - 1);
    }
  }

  // ------------------------------------------------------------------ frames

  /** How the length is written. */
  datatype Form = Short | Two | Eight

  datatype Frame = Frame(final: bool, opcode: byte, key: Option<seq<byte>>, payload: seq<byte>, form: Form)

  predicate WellFormed(f: Frame) {
    f.opcode < 16 && (f.key.Some? ==> |f.key.value| == 4) &&
    match f.form
    case Short => |f.payload| < 126
    case Two => |f.payload| < 0x1_0000
    case Eight => |f.payload| < 0x1_0000_0000_0000_0000
  }

  /** Masking, which undoes itself (section 5.3). */
  function Mask(key: seq<byte>, data: seq<byte>): (r: seq<byte>)
    requires |key| == 4
    ensures |r| == |data|
  {
    seq(|data|, i requires 0 <= i < |data| => Xor(data[i], key[i % 4]))
  }

  lemma MaskTwice(key: seq<byte>, data: seq<byte>)
    requires |key| == 4
    ensures Mask(key, Mask(key, data)) == data
  {
    var r := Mask(key, Mask(key, data));
    forall i | 0 <= i < |data| ensures r[i] == data[i] { XorTwice(data[i], key[i % 4]); }
  }

  function LengthField(masked: bool, n: nat, form: Form): (b: seq<byte>)
    requires form.Short? ==> n < 126
    ensures |b| == HeaderSizeOf(form) - 1
  {
    match form
    case Short => [LengthByte(masked, n)]
    case Two => [LengthByte(masked, 126)] + BigBytes(n, 2)
    case Eight => [LengthByte(masked, 127)] + BigBytes(n, 8)
  }

  function HeaderSizeOf(form: Form): nat { match form case Short => 2 case Two => 4 case Eight => 10 }

  function Encode(f: Frame): seq<byte>
    requires WellFormed(f)
  {
    [Header(f.final, f.opcode)] + LengthField(f.key.Some?, |f.payload|, f.form) +
    match f.key case None => f.payload case Some(key) => key + Mask(key, f.payload)
  }

  // ----------------------------------------------------------------- reading

  /** What the bytes of a call, together with those kept from before, come to:
      the frame is not all there; it is refused; or it is there, `size` bytes. */
  datatype Reading = Partial | Bad | Full(size: nat, payload: seq<byte>)

  function FormOf(b: byte): Form {
    if Len7(b) < 126 then Short else if Len7(b) == 126 then Two else Eight
  }

  function HeaderSize(s: seq<byte>): nat
    requires |s| >= 2
  {
    HeaderSizeOf(FormOf(s[1]))
  }

  function LengthOf(s: seq<byte>): nat
    requires |s| >= 2 && |s| >= HeaderSize(s)
  {
    if FormOf(s[1]).Short? then Len7(s[1]) else BigValue(s[2..HeaderSize(s)])
  }

  /** Control frames must have a payload below 126 bytes. */
  predicate BadControl(s: seq<byte>)
    requires |s| >= 2
  {
    IsControl(OpcodeOf(s[0])) && Len7(s[1]) >= 126
  }

  /** The limit is compared with the length before its bytes are swapped. */
  predicate TooLong(s: seq<byte>, limit: nat)
    requires |s| >= 2 && |s| >= HeaderSize(s)
  {
    !FormOf(s[1]).Short? && LittleValue(s[2..HeaderSize(s)]) > limit
  }

  /** Where the data begins; a frame without payload ends at its header, with a
      masking key or without. */
  function DataStart(s: seq<byte>): nat
    requires |s| >= 2 && |s| >= HeaderSize(s)
  {
    HeaderSize(s) + if Masked(s[1]) && LengthOf(s) > 0 then 4 else 0
  }

  function FrameSize(s: seq<byte>): nat
    requires |s| >= 2 && |s| >= HeaderSize(s)
  {
    DataStart(s) + LengthOf(s)
  }

  function PayloadOf(s: seq<byte>): seq<byte>
    requires |s| >= 2 && |s| >= HeaderSize(s) && |s| >= FrameSize(s)
  {
    var data := s[DataStart(s)..FrameSize(s)];
    if Masked(s[1]) && LengthOf(s) > 0 then Mask(s[HeaderSize(s)..HeaderSize(s) + 4], data) else data
  }

  function Read(s: seq<byte>, limit: nat): Reading {
    if |s| < 2 then Partial
    else if BadControl(s) then Bad
    else if |s| < HeaderSize(s) then Partial
    else if TooLong(s, limit) then Bad
    else if |s| < FrameSize(s) then Partial
    else Full(FrameSize(s), PayloadOf(s))
  }

  lemma PrefixSlice(a: seq<byte>, s: seq<byte>, i: nat, j: nat)
    requires a <= s && i <= j <= |a|
    ensures a[i..j] == s[i..j]
  {
  }

  /** More bytes behind a complete header do not change what it says. */
  lemma SameHeader(a: seq<byte>, s: seq<byte>, limit: nat)
    requires a <= s && |a| >= 2 && |a| >= HeaderSize(a)
    ensures HeaderSize(s) == HeaderSize(a) && LengthOf(s) == LengthOf(a) && TooLong(s, limit) == TooLong(a, limit)
    ensures DataStart(s) == DataStart(a) && FrameSize(s) == FrameSize(a)
  {
    assert a[0] == s[0] && a[1] == s[1];
    PrefixSlice(a, s, 2, HeaderSize(a));
  }

  lemma SamePayload(a: seq<byte>, s: seq<byte>)
    requires a <= s && |a| >= 2 && |a| >= HeaderSize(a) && |a| >= FrameSize(a)
    requires s[1] == a[1] && LengthOf(s) == LengthOf(a) && HeaderSize(s) == HeaderSize(a)
    ensures PayloadOf(s) == PayloadOf(a)
  {
    PrefixSlice(a, s, DataStart(a), FrameSize(a));
    if Masked(a[1]) && LengthOf(a) > 0 { PrefixSlice(a, s, HeaderSize(a), HeaderSize(a) + 4); }
  }

  /** More bytes do not change what is decided. */
  lemma ReadPrefix(a: seq<byte>, s: seq<byte>, limit: nat)
    requires a <= s && !Read(a, limit).Partial?
    ensures Read(s, limit) == Read(a, limit)
  {
    assert a[0] == s[0] && a[1] == s[1];
    if !BadControl(a) {
      SameHeader(a, s, limit);
      if !TooLong(a, limit) { SamePayload(a, s); }
    }
  }

  // ------------------------------------------------ what is written is read

  lemma WideHeader(h: byte, l: byte, n: seq<byte>, rest: seq<byte>)
    ensures var e := [h] + ([l] + n) + rest;
            |e| == 2 + |n| + |rest| && e[0] == h && e[1] == l && e[2..2 + |n|] == n
  {
  }

  /** The header of an encoded frame. */
  lemma EncodedHeader(f: Frame)
    requires WellFormed(f)
    ensures var e := Encode(f);
            |e| >= 2 && e[0] == Header(f.final, f.opcode) && FormOf(e[1]) == f.form && (Masked(e[1]) <==> f.key.Some?) &&
            |e| >= HeaderSize(e) && LengthOf(e) == |f.payload| &&
            (f.form.Eight? ==> e[2..10] == BigBytes(|f.payload|, 8))
  {
    var n := |f.payload|;
    var rest := match f.key case None => f.payload case Some(key) => key + Mask(key, f.payload);
    var first := LengthByte(f.key.Some?, if f.form.Short? then n else if f.form.Two? then 126 else 127);
    LengthParts(f.key.Some?, if f.form.Short? then n else if f.form.Two? then 126 else 127);
    Powers();
    match f.form {
      case Short =>
      case Two => BigRoundTrip(n, 2); WideHeader(Header(f.final, f.opcode), first, BigBytes(n, 2), rest);
      case Eight => BigRoundTrip(n, 8); WideHeader(Header(f.final, f.opcode), first, BigBytes(n, 8), rest);
    }
  }

  lemma Powers()
    ensures Power(2) == 0x1_0000 && Power(3) == 0x100_0000 && Power(5) == 0x100_0000_0000 && Power(8) == 0x1_0000_0000_0000_0000
  {
    assert Power(4) == 0x1_0000_0000;
    assert Power(6) == 0x1_0000_0000_0000;
  }

  lemma PlainSlice(h: seq<byte>, m: seq<byte>)
    ensures var e := h + m; e[|h|..|e|] == m
  {
  }

  lemma KeyedSlices(h: seq<byte>, key: seq<byte>, m: seq<byte>)
    ensures var e := h + (key + m); e[|h|..|h| + |key|] == key && e[|h| + |key|..|e|] == m
  {
  }

  /** The data of an encoded frame. */
  lemma EncodedData(f: Frame)
    requires WellFormed(f) && |f.payload| > 0
    ensures var e := Encode(f);
            |e| >= 2 && |e| >= HeaderSize(e) && FrameSize(e) == |e| && PayloadOf(e) == f.payload
  {
    EncodedHeader(f);
    if f.key.None? { PlainData(f); } else { KeyedData(f); }
  }

  lemma PlainData(f: Frame)
    requires WellFormed(f) && f.key.None?
    ensures var e, k := Encode(f), HeaderSizeOf(f.form); |e| == k + |f.payload| && e[k..|e|] == f.payload
  {
    PlainSlice([Header(f.final, f.opcode)] + LengthField(false, |f.payload|, f.form), f.payload);
  }

  lemma KeyedData(f: Frame)
    requires WellFormed(f) && f.key.Some?
    ensures var e, k := Encode(f), HeaderSizeOf(f.form);
            |e| == k + 4 + |f.payload| && Mask(e[k..k + 4], e[k + 4..|e|]) == f.payload
  {
    var key := f.key.value;
    KeyedSlices([Header(f.final, f.opcode)] + LengthField(true, |f.payload|, f.form), key, Mask(key, f.payload));
    MaskTwice(key, f.payload);
  }

  /** The frames the reader takes: control frames short, the others with up to
      65535 bytes. */
  predicate Readable(f: Frame) {
    WellFormed(f) && !f.form.Eight? && (IsControl(f.opcode) ==> f.form.Short?)
  }

  lemma {:induction false} LittleBound(b: seq<byte>)
    ensures LittleValue(b) < Power(|b|)
  {
    if b != [] { LittleBound(b[1..]); }
  }

  /** How much of an encoded frame is read: all of it, but for the masking key
      of an empty one. */
  function ReadSize(f: Frame): nat
    requires WellFormed(f)
  {
    if |f.payload| == 0 then HeaderSizeOf(f.form) else |Encode(f)|
  }

  /** The number that the limit is compared with: the bytes of the length in the
      wrong order. */
  function Compared(f: Frame): nat {
    match f.form
    case Short => 0
    case Two => LittleValue(BigBytes(|f.payload|, 2))
    case Eight => LittleValue(BigBytes(|f.payload|, 8))
  }

  lemma WideField(f: Frame)
    requires WellFormed(f) && !f.form.Short?
    ensures var e, k := Encode(f), HeaderSizeOf(f.form); |e| >= k && e[2..k] == BigBytes(|f.payload|, k - 2)
  {
    var n, k := |f.payload|, HeaderSizeOf(f.form);
    var rest := match f.key case None => f.payload case Some(key) => key + Mask(key, f.payload);
    WideHeader(Header(f.final, f.opcode), LengthByte(f.key.Some?, if k == 4 then 126 else 127), BigBytes(n, k - 2), rest);
  }

  /** Which frames are read, with their masking undone, and which are refused:
      long control frames, and frames for which the bytes of the length, in the
      wrong order, are beyond the limit. */
  lemma ReadExact(f: Frame, limit: nat)
    requires WellFormed(f)
    ensures Read(Encode(f), limit) ==
            if (IsControl(f.opcode) && !f.form.Short?) || Compared(f) > limit then Bad else Full(ReadSize(f), f.payload)
  {
    EncodedHeader(f);
    HeaderParts(f.final, f.opcode);
    if !f.form.Short? { WideField(f); }
    if |f.payload| > 0 { EncodedData(f); } else { NothingLittle(f); }
  }

  lemma NothingLittle(f: Frame)
    requires |f.payload| == 0
    ensures Compared(f) == 0
  {
    ZeroBytes(2);
    ZeroBytes(8);
  }

  lemma {:induction false} ZeroBytes(size: nat)
    ensures LittleValue(BigBytes(0, size)) == 0
  {
    if size > 0 {
      ZeroBytes(size - 1);
      LittleSnoc(BigBytes(0, size - 1), 0);
    }
  }

  /** A frame that the reader takes is read, with its masking undone. */
  lemma ReadEncoded(f: Frame, limit: nat)
    requires Readable(f) && limit >= 0xffff
    ensures Read(Encode(f), limit) == Full(ReadSize(f), f.payload)
  {
    ReadExact(f, limit);
    if f.form.Two? {
      LittleBound(BigBytes(|f.payload|, 2));
      Powers();
    }
  }

  lemma {:induction false} LittleSnoc(b: seq<byte>, x: byte)
    ensures LittleValue(b + [x]) == LittleValue(b) + x * Power(|b|)
  {
    if b == [] {
      assert [] + [x] == [x] && [x][1..] == [];
    } else {
      assert (b + [x])[1..] == b[1..] + [x];
      LittleSnoc(b[1..], x);
    }
  }

  lemma {:induction false} PowerMonotone(j: nat, k: nat)
    requires j <= k
    ensures Power(j) <= Power(k)
  {
    if j < k { PowerMonotone(j, k - 1); }
  }

  lemma AtLeast(x: nat, p: nat)
    requires x > 0
    ensures x * p >= p
  {
  }

  /** A number below 256^k, its bytes swapped, is at least 256^(size-k). */
  lemma {:induction false} Swapped(n: nat, size: nat, k: nat)
    requires 0 < n < Power(k) && 0 < k <= size
    ensures LittleValue(BigBytes(n, size)) >= Power(size - k)
    decreases size
  {
    var b := BigBytes(n / 256, size - 1);
    LittleSnoc(b, n % 256);
    if n % 256 != 0 {
      PowerMonotone(size - k, size - 1);
      AtLeast(n % 256, Power(size - 1));
    } else {
      assert k > 1;
      Swapped(n / 256, size - 1, k - 1);
    }
  }

  /** The eight-byte form is refused for every length from 1 to 2^40 - 1: the
      limit is applied to the length with its bytes in the wrong order. */
  lemma EightRefused(f: Frame, limit: nat)
    requires WellFormed(f) && f.form.Eight? && 0 < |f.payload| < 0x100_0000_0000 && limit < 0x100_0000
    ensures Read(Encode(f), limit).Bad?
  {
    ReadExact(f, limit);
    Powers();
    Swapped(|f.payload|, 8, 5);
  }

  /** `sendFrame`: the form is chosen by the length; nothing is masked. */
  function Sent(final: bool, opcode: byte, message: seq<byte>): Frame {
    Frame(final, opcode, None, message, if |message| < 126 then Short else if |message| < 0x1_0000 then Two else Eight)
  }

  /** A message that is sent reads back if and only if it is short or the bytes
      of its length, in the wrong order, are within the limit. */
  lemma SentIsRead(final: bool, opcode: byte, message: seq<byte>, limit: nat)
    requires opcode < 8 && |message| < 0x1_0000_0000_0000_0000
    ensures var f := Sent(final, opcode, message);
            Read(Encode(f), limit) ==
            if |message| < 126 || LittleValue(BigBytes(|message|, if |message| <= 0xffff then 2 else 8)) <= limit
            then Full(|Encode(f)|, message) else Bad
  {
    ReadExact(Sent(final, opcode, message), limit);
  }

  /** With the limit as it is set, that is at most 65535 bytes (or 2^40 at least). */
  lemma SentWithLimit(final: bool, opcode: byte, message: seq<byte>, limit: nat)
    requires opcode < 8 && |message| < 0x100_0000_0000 && 0xffff <= limit < 0x100_0000
    ensures Read(Encode(Sent(final, opcode, message)), limit).Full? <==> |message| <= 0xffff
  {
    var f := Sent(final, opcode, message);
    if |message| <= 0xffff { ReadEncoded(f, limit); } else { EightRefused(f, limit); }
  }
}
