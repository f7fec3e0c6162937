/** Streaming hashes and HMAC: the contexts of sha1.c and md5.c, which differ in
  the compression function and in the byte order only. */
module Hashing {
  import opened Common
  import Sha1

  type byte = Sha1.byte
  type word = Sha1.word

  /** 32 bits, as `uint32_t` keeps them, and the next 32. */
  function Low(n: nat): nat { n % 0x1_0000_0000 }

  function High(n: nat): nat { n / 0x1_0000_0000 % 0x1_0000_0000 }

  type Block = b: seq<byte> | |b| == 64 witness seq(64, _ => 0)
  type Four = h: seq<word> | |h| == 4 witness [0, 0, 0, 0]

  /** MD5 is given by its compression function. */
  datatype Algorithm = SHA1 | MD5(compress: (Four, Block) -> Four)

  // --------------------------------------------------------- the standards

  function Initial(alg: Algorithm): (h: seq<word>)
    ensures |h| == if alg.SHA1? then 5 else 4
  {
    [0x67452301, 0xEFCDAB89, 0x98BADCFE, 0x10325476] + if alg.SHA1? then [0xC3D2E1F0] else []
  }

  function Compressed(alg: Algorithm, h: seq<word>, block: seq<byte>): (r: seq<word>)
    requires |h| == |Initial(alg)| && |block| == 64
    ensures |r| == |h|
  {
    match alg case SHA1 => Sha1.Compress(h, block) case MD5(f) => f(h, block)
  }

  /** The chaining value after every whole block of `data`. */
  function Absorb(alg: Algorithm, h: seq<word>, data: seq<byte>): (r: seq<word>)
    requires |h| == |Initial(alg)|
    ensures |r| == |h|
    decreases |data|
  {
    if |data| < 64 then h else Absorb(alg, Compressed(alg, h, data[..64]), data[64..])
  }

  /** A word as four bytes, in the algorithm's order. */
  function Bytes(alg: Algorithm, x: word): (b: seq<byte>)
    ensures |b| == 4
  {
    var b0, b1, b2, b3 := ((x >> 24) & 0xFF) as byte, ((x >> 16) & 0xFF) as byte, ((x >> 8) & 0xFF) as byte, (x & 0xFF) as byte;
    if alg.SHA1? then [b0, b1, b2, b3] else [b3, b2, b1, b0]
  }

  function WordOf(n: nat): word
    requires n < 0x1_0000_0000
  {
    n as word
  }

  /** The 64-bit count of bits, of which only 64 bits are kept: the more
      significant half first for SHA-1, last for MD5. */
  function LengthField(alg: Algorithm, n: nat): (b: seq<byte>)
    ensures |b| == 8
  {
    var low, high := Bytes(alg, WordOf(Low(8 * n))), Bytes(alg, WordOf(High(8 * n)));
    if alg.SHA1? then high + low else low + high
  }

  function Zeros(n: nat): (b: seq<byte>)
    ensures |b| == n
  {
    seq(n, _ => 0)
  }

  /** A one bit, zeros, and the length `n`, so that whole blocks result
      (section 4 of FIPS 180-1; sections 3.1 and 3.2 of RFC 1321). */
  function Padded(alg: Algorithm, msg: seq<byte>, n: nat): (p: seq<byte>)
    ensures |p| % 64 == 0
  {
    msg + [0x80] + Zeros((119 - |msg| % 64) % 64) + LengthField(alg, n)
  }

  function Output(alg: Algorithm, h: seq<word>): (b: seq<byte>)
    ensures |b| == 4 * |h|
  {
    if h == [] then [] else Bytes(alg, h[0]) + Output(alg, h[1..])
  }

  /** The digest of a message whose length is given as `n`. */
  function Digest(alg: Algorithm, msg: seq<byte>, n: nat): (b: seq<byte>)
    ensures |b| == 4 * |Initial(alg)|
  {
    Output(alg, Absorb(alg, Initial(alg), Padded(alg, msg, n)))
  }

  function Hash(alg: Algorithm, msg: seq<byte>): (b: seq<byte>)
    ensures |b| == 4 * |Initial(alg)|
  {
    Digest(alg, msg, |msg|)
  }

  lemma Divided(q: int, r: nat, n: nat)
    requires n == 0x1_0000_0000 * q + r && r < 0x1_0000_0000
    ensures n / 0x1_0000_0000 == q && Low(n) == r
  {
  }

  /** Whole multiples of 2^61 bytes are whole multiples of 2^64 bits. */
  lemma LengthModulo(m: nat, q: nat, r: nat)
    requires m == 0x2000_0000_0000_0000 * q + r
    ensures Low(8 * m) == Low(8 * r) && High(8 * m) == High(8 * r)
  {
    var x, y := 8 * r / 0x1_0000_0000, 8 * r % 0x1_0000_0000;
    assert 8 * r == 0x1_0000_0000 * x + y;
    Divided(x, y, 8 * r);
    Divided(0x1_0000_0000 * q + x, y, 8 * m);
    var u, v := x / 0x1_0000_0000, x % 0x1_0000_0000;
    assert x == 0x1_0000_0000 * u + v;
    Divided(u, v, x);
    Divided(q + u, v, 0x1_0000_0000 * q + x);
  }

  /** The length field tells lengths apart in 61 bits, and no further. */
  lemma FieldExact(m: nat, n: nat)
    ensures Low(8 * m) == Low(8 * n) && High(8 * m) == High(8 * n) <==> m % 0x2000_0000_0000_0000 == n % 0x2000_0000_0000_0000
  {
    FieldValue(m);
    FieldValue(n);
  }

  lemma FieldValue(m: nat)
    ensures Low(8 * m) + 0x1_0000_0000 * High(8 * m) == 8 * (m % 0x2000_0000_0000_0000)
  {
    var q, r := m / 0x2000_0000_0000_0000, m % 0x2000_0000_0000_0000;
    LengthModulo(m, q, r);
    assert 8 * r == 0x1_0000_0000 * (8 * r / 0x1_0000_0000) + Low(8 * r);
  }

  /** Two lengths give the same digest when they agree in 61 bits. */
  lemma DigestModulo(alg: Algorithm, msg: seq<byte>, m: nat, n: nat)
    requires m % 0x2000_0000_0000_0000 == n % 0x2000_0000_0000_0000
    ensures Digest(alg, msg, m) == Digest(alg, msg, n)
  {
    LengthModulo(m, m / 0x2000_0000_0000_0000, m % 0x2000_0000_0000_0000);
    LengthModulo(n, n / 0x2000_0000_0000_0000, n % 0x2000_0000_0000_0000);
    assert LengthField(alg, m) == LengthField(alg, n);
    assert Padded(alg, msg, m) == Padded(alg, msg, n);
  }

  // ------------------------------------------- a length that is not the message's

  /** The two halves of the bit count, which become the length field. */
  function Halves(n: nat): (nat, nat) { (Low(8 * n), High(8 * n)) }

  /** The halves are the same if and only if the lengths agree in 61 bits. */
  lemma HalvesExact(m: nat, n: nat)
    ensures Halves(m) == Halves(n) <==> m % 0x2000_0000_0000_0000 == n % 0x2000_0000_0000_0000
  {
    FieldExact(m, n);
  }

  lemma InRange(n: nat)
    requires n < 0x2000_0000_0000_0000
    ensures n % 0x2000_0000_0000_0000 == n
  {
  }

  /** The length that a list of updates is counted as. */
  function Counted(parts: seq<seq<byte>>): nat {
    if parts == [] then 0 else Low(|parts[0]|) + Counted(parts[1..])
  }

  lemma {:induction false} CountedSnoc(parts: seq<seq<byte>>, p: seq<byte>)
    ensures Counted(parts + [p]) == Counted(parts) + Low(|p|)
  {
    if parts == [] {
      assert [] + [p] == [p] && [p][1..] == [];
    } else {
      assert (parts + [p])[1..] == parts[1..] + [p];
      CountedSnoc(parts[1..], p);
    }
  }

  /** All bytes are counted if and only if no update has 2^32 of them. */
  lemma {:induction false} CountedAll(parts: seq<seq<byte>>)
    ensures Counted(parts) <= |Flatten(parts)|
    ensures Counted(parts) == |Flatten(parts)| <==> forall p <- parts :: |p| < 0x1_0000_0000
  {
    if parts != [] {
      CountedAll(parts[1..]);
      assert parts == [parts[0]] + parts[1..];
      assert parts[0] in parts && forall p <- parts[1..] :: p in parts;
      assert forall p <- parts :: p == parts[0] || p in parts[1..];
    }
  }

  /** The length written after some updates is that of the message if and only
      if the bytes counted are as many as there are, modulo 2^61. */
  lemma UpdatesExact(alg: Algorithm, parts: seq<seq<byte>>)
    ensures var n := |Flatten(parts)|;
            Halves(Counted(parts)) == Halves(n) <==> Counted(parts) % 0x2000_0000_0000_0000 == n % 0x2000_0000_0000_0000
    ensures Halves(Counted(parts)) == Halves(|Flatten(parts)|) ==>
              Digest(alg, Flatten(parts), Counted(parts)) == Hash(alg, Flatten(parts))
  {
    HalvesExact(Counted(parts), |Flatten(parts)|);
    if Halves(Counted(parts)) == Halves(|Flatten(parts)|) {
      DigestModulo(alg, Flatten(parts), Counted(parts), |Flatten(parts)|);
    }
  }

  /** Below 2^61 bytes: if and only if no update has 2^32 of them. */
  lemma ShortExact(parts: seq<seq<byte>>)
    requires |Flatten(parts)| < 0x2000_0000_0000_0000
    ensures Halves(Counted(parts)) == Halves(|Flatten(parts)|) <==> forall p <- parts :: |p| < 0x1_0000_0000
  {
    CountedAll(parts);
    HalvesExact(Counted(parts), |Flatten(parts)|);
    InRange(Counted(parts));
    InRange(|Flatten(parts)|);
  }

  /** A single update: if and only if its length is below 2^32, modulo 2^61. */
  lemma OneUpdateExact(input: seq<byte>)
    ensures Halves(Low(|input|)) == Halves(|input|) <==> |input| % 0x2000_0000_0000_0000 < 0x1_0000_0000
  {
    var n := |input|;
    HalvesExact(Low(n), n);
    InRange(Low(n));
    LowParts(n);
  }

  lemma LowParts(n: nat)
    ensures Low(n) == Low(n % 0x2000_0000_0000_0000)
  {
    var q, r := n / 0x2000_0000_0000_0000, n % 0x2000_0000_0000_0000;
    LowOf(0x2000_0000 * q, r);
    assert n == 0x1_0000_0000 * (0x2000_0000 * q) + r;
  }

  /** 2^32 bytes in one update are hashed with a length of zero, where 8 is due in
      the high half. */
  lemma FourGigabytes(input: seq<byte>)
    requires |input| == 0x1_0000_0000
    ensures Halves(|input|) == (0, 8) && Halves(Low(|input|)) == (0, 0)
  {
    Divided(1, 0, |input|);
    Divided(8, 0, 8 * |input|);
  }

  /** HMAC, section 2 of RFC 2104: the key filled up to a block and combined. */
  function Pad(key: seq<byte>, x: byte): (p: seq<byte>)
    ensures |p| == 64
  {
    seq(64, i requires 0 <= i < 64 => if i < |key| then x ^ key[i] else x)
  }

  /** A key longer than a block is hashed first; its length is given as `n`. */
  function BlockKey(alg: Algorithm, key: seq<byte>, n: nat): seq<byte> {
    if |key| > 64 then Digest(alg, key, n) else key
  }

  function Hmac(alg: Algorithm, key: seq<byte>, text: seq<byte>): seq<byte> {
    var k := BlockKey(alg, key, |key|);
    Hash(alg, Pad(k, 0x5C) + Hash(alg, Pad(k, 0x36) + text))
  }

  // ------------------------------------------------------------------- blocks

  lemma {:induction false} AbsorbAppend(alg: Algorithm, h: seq<word>, a: seq<byte>, b: seq<byte>)
    requires |h| == |Initial(alg)| && |a| % 64 == 0
    ensures Absorb(alg, h, a + b) == Absorb(alg, Absorb(alg, h, a), b)
    decreases |a|
  {
    if |a| < 64 {
      assert a + b == b;
    } else {
      assert (a + b)[..64] == a[..64] && (a + b)[64..] == a[64..] + b;
      AbsorbAppend(alg, Compressed(alg, h, a[..64]), a[64..], b);
    }
  }

  /** The bytes after the last whole block. */
  function Tail(msg: seq<byte>): (t: seq<byte>)
    ensures |t| == |msg| % 64
  {
    msg[|msg| - |msg| % 64..]
  }

  function StateOf(alg: Algorithm, msg: seq<byte>): (h: seq<word>)
    ensures |h| == |Initial(alg)|
  {
    Absorb(alg, Initial(alg), msg)
  }

  /** More of a message: only the tail matters of what came before. */
  lemma StateOn(alg: Algorithm, msg: seq<byte>, input: seq<byte>)
    ensures StateOf(alg, msg + input) == Absorb(alg, StateOf(alg, msg), Tail(msg) + input)
  {
    var whole, tail := msg[..|msg| - |msg| % 64], Tail(msg);
    assert msg == whole + tail && msg + input == whole + (tail + input);
    AbsorbAppend(alg, Initial(alg), whole, tail);
    AbsorbAppend(alg, Initial(alg), whole, tail + input);
  }

  /** The tail of tail and input is the tail of the message. */
  lemma TailOn(msg: seq<byte>, input: seq<byte>)
    ensures Tail(msg + input) == Tail(Tail(msg) + input)
  {
    var a, b := |msg| / 64, |msg + input| / 64;
    TailFrom(msg, a);
    TailFrom(msg + input, b);
    TailFrom(Tail(msg) + input, b - a);
    FurtherTail(msg, input, 64 * a, 64 * b);
  }

  lemma FurtherTail(msg: seq<byte>, input: seq<byte>, k: nat, n: nat)
    requires k <= |msg| && k <= n <= |msg + input|
    ensures (msg[k..] + input)[n - k..] == (msg + input)[n..]
  {
    assert msg[k..] + input == (msg + input)[k..];
  }

  lemma TailFrom(s: seq<byte>, q: nat)
    requires 64 * q <= |s| < 64 * q + 64
    ensures Tail(s) == s[64 * q..]
  {
    Remainder(|s|, q);
  }

  lemma Remainder(n: nat, q: nat)
    requires 64 * q <= n < 64 * q + 64
    ensures n - n % 64 == 64 * q
  {
  }

  lemma TailSkips(data: seq<byte>)
    requires |data| >= 64
    ensures Tail(data) == Tail(data[64..])
  {
  }

  // ------------------------------------------------------------------ the code

  /** The two halves of the byte counter, `total[0]` and `total[1]`. */
  predicate Counting(total0: nat, total1: nat, n: nat) { total0 == Low(n) && total1 == High(n) }

  lemma Carries(n: nat, k: nat)
    requires k < 0x1_0000_0000
    ensures var low := Low(Low(n) + k);
            Counting(low, if low < k then Low(High(n) + 1) else High(n), n + k)
  {
    var q, r := n / 0x1_0000_0000, n % 0x1_0000_0000;
    if r + k < 0x1_0000_0000 {
      Divided(q, r + k, n + k);
    } else {
      Divided(q + 1, r + k - 0x1_0000_0000, n + k);
      var u, v := q / 0x1_0000_0000, q % 0x1_0000_0000;
      if v + 1 < 0x1_0000_0000 { Divided(u, v + 1, q + 1); } else { Divided(u + 1, 0, q + 1); }
    }
  }

  lemma EightTimes(q: nat, r: nat)
    requires r < 0x1_0000_0000
    ensures var n := 0x1_0000_0000 * q + r;
            Low(8 * n) == Low(r * 8) && 8 * n / 0x1_0000_0000 == 8 * q + r / 0x2000_0000
  {
    var x, y := r / 0x2000_0000, r % 0x2000_0000;
    Divided(x, 8 * y, r * 8);
    Divided(8 * q + x, 8 * y, 8 * (0x1_0000_0000 * q + r));
  }

  /** The top three bits of the one half come in below the other. */
  lemma HighHalf(q: nat, top: nat)
    requires top < 8
    ensures top + Low(Low(q) * 8) == Low(8 * q + top)
  {
    var u, v := q / 0x1_0000_0000, q % 0x1_0000_0000;
    var x, y := v / 0x2000_0000, v % 0x2000_0000;
    Divided(x, 8 * y, v * 8);
    Divided(8 * u + x, 8 * y + top, 8 * q + top);
  }

  /** The halves of the bit count that the code makes of the counter: the
      operands of its `|` share no bit, so that it adds. */
  lemma BitCount(total0: nat, total1: nat, n: nat)
    requires Counting(total0, total1, n)
    ensures Low(total0 * 8) == Low(8 * n)
    ensures total0 / 0x2000_0000 + Low(total1 * 8) == High(8 * n)
  {
    var q, r := n / 0x1_0000_0000, n % 0x1_0000_0000;
    assert n == 0x1_0000_0000 * q + r;
    EightTimes(q, r);
    HighHalf(q, r / 0x2000_0000);
  }

  class Context {
    const alg: Algorithm
    var total0: nat
    var total1: nat
    const state: array<word>
    const buffer: array<byte>
    const ipad: array<byte>
    const opad: array<byte>
    ghost var msg: seq<byte>        // the bytes hashed
    ghost var counted: nat          // how many the counter has seen

    ghost predicate Shaped() {
      state.Length == |Initial(alg)| && buffer.Length == 64 && ipad.Length == 64 && opad.Length == 64 &&
      buffer != ipad && buffer != opad && ipad != opad
    }

    ghost predicate Valid()
      reads this, state, buffer
    {
      Shaped() && Counting(total0, total1, counted) && Low(counted) == Low(|msg|) &&
      state[..] == StateOf(alg, msg) && buffer[..|msg| % 64] == Tail(msg)
    }

    /** A context as it is declared: nothing in it counts before `Starts`. */
    constructor (alg: Algorithm)
      ensures Shaped() && this.alg == alg
      ensures fresh(state) && fresh(buffer) && fresh(ipad) && fresh(opad)
    {
      this.alg := alg;
      total0, total1, msg, counted := 0, 0, [], 0;
      state := new word[|Initial(alg)|];
      buffer := new byte[64];
      ipad := new byte[64];
      opad := new byte[64];
    }

    /** `sha1_starts` and `md5_starts` */
    method Starts()
      requires Shaped()
      modifies this`total0, this`total1, this`msg, this`counted, state
      ensures Valid() && msg == [] && counted == 0
    {
      total0, total1, msg, counted := 0, 0, [], 0;
      var h := Initial(alg);
      forall i | 0 <= i < |h| { state[i] := h[i]; }
      assert state[..] == h;
    }

    method Process(block: seq<byte>)
      requires Shaped() && |block| == 64
      modifies state
      ensures state[..] == Compressed(alg, old(state[..]), block)
    {
      match alg {
        case SHA1 => Sha1.Process(state, block);
        case MD5(f) =>
          var h := f(state[..], block);
          forall i | 0 <= i < 4 { state[i] := h[i]; }
          assert state[..] == h;
      }
    }

    /** The counter, with the carry from `total[0]` to `total[1]`. */
    method Count(n: nat)
      requires Counting(total0, total1, counted)
      modifies this`total0, this`total1, this`counted
      ensures Counting(total0, total1, counted) && counted == old(counted) + Low(n)
    {
      Carries(counted, Low(n));
      counted := counted + Low(n);
      total0 := Low(total0 + Low(n));
      if total0 < Low(n) {
        total1 := Low(total1 + 1);
      }
    }

    method Fill(at: nat, data: seq<byte>)
      requires buffer.Length == 64 && at + |data| <= 64
      modifies buffer
      ensures buffer[..at] == old(buffer[..at]) && buffer[at..at + |data|] == data
    {
      forall i | 0 <= i < |data| { buffer[at + i] := data[i]; }
    }

    /** The blocks of `data` straight from the input, and the rest to the buffer. */
    method Rest(data: seq<byte>, left: nat)
      requires Shaped() && left < 64 && (left > 0 ==> left + |data| < 64)
      modifies state, buffer
      ensures state[..] == Absorb(alg, old(state[..]), data)
      ensures left == 0 ==> buffer[..|data| % 64] == Tail(data)
      ensures left > 0 ==> buffer[..left + |data|] == old(buffer[..left]) + data
    {
      var i := 0;
      while |data| - i >= 64
        invariant i <= |data| && i % 64 == 0
        invariant Absorb(alg, state[..], data[i..]) == Absorb(alg, old(state[..]), data)
        invariant buffer[..] == old(buffer[..])
      {
        var now := data[i..];
        Process(now[..64]);
        assert now[64..] == data[i + 64..];
        i := i + 64;
      }
      assert data[i..] == Tail(data);
      Fill(left, data[i..]);
    }

    /** Input behind what the buffer holds. */
    method Take(input: seq<byte>, left: nat, ghost tail: seq<byte>)
      requires Shaped() && |input| > 0 && left == |tail| < 64 && buffer[..left] == tail
      modifies state, buffer
      ensures state[..] == Absorb(alg, old(state[..]), tail + input)
      ensures buffer[..|tail + input| % 64] == Tail(tail + input)
    {
      var fill := 64 - left;
      ghost var data := tail + input;
      if left > 0 && |input| >= fill {
        Fill(left, input[..fill]);
        assert buffer[..] == buffer[..left] + buffer[left..left + fill];
        Whole(tail, input, fill);
        Process(buffer[..]);
        TailSkips(data);
        Rest(input[fill..], 0);
      } else {
        Rest(input, left);
        assert left == 0 ==> data == input;
        if left > 0 { Short(alg, old(state[..]), input, data); }
      }
    }

    /** `sha1_update` and `md5_update` */
    method Update(input: seq<byte>)
      requires Valid()
      modifies this`total0, this`total1, this`msg, this`counted, state, buffer
      ensures Valid() && msg == old(msg) + input && counted == old(counted) + Low(|input|)
    {
      if |input| == 0 {
        assert msg + input == msg;
        return;
      }
      ghost var tail := Tail(msg);
      SameTail(total0, total1, counted, msg, input);
      var left := total0 % 64;
      Count(|input|);
      StateOn(alg, msg, input);
      TailOn(msg, input);
      Take(input, left, tail);
      msg := msg + input;
    }

    /** `sha1_finish` and `md5_finish` */
    method Finish() returns (output: seq<byte>)
      requires Valid()
      modifies this`total0, this`total1, this`msg, this`counted, state, buffer
      ensures Shaped() && output == Digest(alg, old(msg), old(counted))
    {
      BitCount(total0, total1, counted);
      var high, low := total0 / 0x2000_0000 + Low(total1 * 8), Low(total0 * 8);
      var msgLen := if alg.SHA1? then Bytes(alg, WordOf(high)) + Bytes(alg, WordOf(low)) else Bytes(alg, WordOf(low)) + Bytes(alg, WordOf(high));
      assert msgLen == LengthField(alg, counted);
      SameTail(total0, total1, counted, msg, []);
      var last := total0 % 64;
      var padn := if last < 56 then 56 - last else 120 - last;
      Update([0x80] + Zeros(padn - 1));
      Update(msgLen);
      PaddedIs(alg, old(msg), old(counted), padn);
      output := Output(alg, state[..]);
    }

    /** `sha1` and `md5` */
    static method OneShot(alg: Algorithm, input: seq<byte>) returns (output: seq<byte>)
      ensures output == Digest(alg, input, Low(|input|))
    {
      var ctx := new Context(alg);
      ctx.Starts();
      ctx.Update(input);
      NothingFirst(input);
      output := ctx.End(input, Low(|input|));
    }

    /** The loop of `sha1_file` and `md5_file`: the parts of a message, one after another. */
    method Parts(parts: seq<seq<byte>>)
      requires Valid()
      modifies this`total0, this`total1, this`msg, this`counted, state, buffer
      ensures Valid() && counted == old(counted) + Counted(parts) && msg == old(msg) + Flatten(parts)
    {
      assert msg + [] == msg && parts[..0] == [];
      for i := 0 to |parts|
        invariant Valid() && counted == old(counted) + Counted(parts[..i]) && msg == old(msg) + Flatten(parts[..i])
      {
        Part(parts, i, old(msg), old(counted));
      }
      assert parts[..|parts|] == parts;
    }

    method Part(parts: seq<seq<byte>>, i: nat, ghost before: seq<byte>, ghost count: nat)
      requires Valid() && i < |parts| && counted == count + Counted(parts[..i])
      requires msg == before + Flatten(parts[..i])
      modifies this`total0, this`total1, this`msg, this`counted, state, buffer
      ensures Valid() && counted == count + Counted(parts[..i + 1]) && msg == before + Flatten(parts[..i + 1])
    {
      NextPart(parts, i, before);
      Update(parts[i]);
    }

    /** A digest over any updates: with the length that they are counted as. */
    static method AnyParts(alg: Algorithm, parts: seq<seq<byte>>) returns (output: seq<byte>)
      ensures output == Digest(alg, Flatten(parts), Counted(parts))
    {
      var ctx := new Context(alg);
      ctx.Starts();
      ctx.Parts(parts);
      NothingFirst(Flatten(parts));
      output := ctx.End(Flatten(parts), Counted(parts));
    }

    /** Any split of a message gives the digest of the whole. */
    static method InParts(alg: Algorithm, parts: seq<seq<byte>>) returns (output: seq<byte>)
      requires forall p <- parts :: |p| < 0x1_0000_0000
      ensures output == Hash(alg, Flatten(parts))
    {
      CountedAll(parts);
      output := AnyParts(alg, parts);
    }

    ghost predicate Keyed(key: seq<byte>)
      reads ipad, opad
    {
      Shaped() && ipad[..] == Pad(key, 0x36) && opad[..] == Pad(key, 0x5C)
    }

    /** `sha1_hmac_starts` and `md5_hmac_starts`; `k` is the key that is used,
        and `n` the length that is counted if it is hashed. */
    method HmacStarts(key: seq<byte>, ghost n: nat) returns (ghost k: seq<byte>)
      requires Shaped() && n == Low(|key|)
      modifies this`total0, this`total1, this`msg, this`counted, state, buffer, ipad, opad
      ensures Valid() && Keyed(k) && msg == Pad(k, 0x36) && counted == 64
      ensures k == BlockKey(alg, key, n)
    {
      var used := key;
      if |key| > 64 {
        used := OneShot(alg, key);
      }
      k := used;
      SetPads(used);
      HmacReset(used);
    }

    method SetPads(key: seq<byte>)
      requires Shaped() && |key| <= 64
      modifies ipad, opad
      ensures Keyed(key)
    {
      forall i | 0 <= i < 64 { ipad[i] := 0x36; }
      forall i | 0 <= i < 64 { opad[i] := 0x5C; }
      var i := 0;
      while i < |key|
        invariant i <= |key|
        invariant forall j :: 0 <= j < 64 ==> ipad[j] == (if j < i then 0x36 ^ key[j] else 0x36)
        invariant forall j :: 0 <= j < 64 ==> opad[j] == (if j < i then 0x5C ^ key[j] else 0x5C)
      {
        ipad[i] := ipad[i] ^ key[i];
        opad[i] := opad[i] ^ key[i];
        i := i + 1;
      }
    }

    /** `sha1_hmac_reset` and `md5_hmac_reset` */
    method HmacReset(ghost k: seq<byte>)
      requires Keyed(k)
      modifies this`total0, this`total1, this`msg, this`counted, state, buffer
      ensures Valid() && Keyed(k) && msg == Pad(k, 0x36) && counted == 64
    {
      Starts();
      Update(ipad[..]);
    }

    /** `sha1_hmac_finish` and `md5_hmac_finish` */
    method HmacFinish(ghost k: seq<byte>) returns (output: seq<byte>)
      requires Valid() && Keyed(k)
      modifies this`total0, this`total1, this`msg, this`counted, state, buffer
      ensures Keyed(k) && output == Hash(alg, Pad(k, 0x5C) + Digest(alg, old(msg), old(counted)))
    {
      var inner := Finish();
      output := Outer(opad[..], inner);
    }

    /** The outer hash. */
    method Outer(first: seq<byte>, second: seq<byte>) returns (output: seq<byte>)
      requires Shaped() && |first| == 64 && |second| <= 64
      modifies this`total0, this`total1, this`msg, this`counted, state, buffer
      ensures output == Hash(alg, first + second)
    {
      Starts();
      Append([], first);
      NothingFirst(first);
      Append(first, second);
      output := End(first + second, |first + second|);
    }

    /** An update that is counted in full. */
    method Append(ghost before: seq<byte>, input: seq<byte>)
      requires Valid() && msg == before && counted == |before| && |input| < 0x1_0000_0000
      modifies this`total0, this`total1, this`msg, this`counted, state, buffer
      ensures Valid() && msg == before + input && counted == |before + input|
    {
      assert Low(|input|) == |input|;
      Update(input);
    }

    /** The end of the message `text`, of which `n` bytes were counted. */
    method End(ghost text: seq<byte>, ghost n: nat) returns (output: seq<byte>)
      requires Valid() && msg == text && counted == n
      modifies this`total0, this`total1, this`msg, this`counted, state, buffer
      ensures Shaped() && output == Digest(alg, text, n)
    {
      output := Finish();
    }

    /** `sha1_hmac` and `md5_hmac`, with the text in any number of parts. */
    static method HmacInParts(alg: Algorithm, key: seq<byte>, parts: seq<seq<byte>>) returns (output: seq<byte>)
      requires |key| < 0x1_0000_0000 && forall p <- parts :: |p| < 0x1_0000_0000
      ensures output == Hmac(alg, key, Flatten(parts))
    {
      var ctx := new Context(alg);
      output := ctx.HmacText(key, parts);
    }

    method HmacText(key: seq<byte>, parts: seq<seq<byte>>) returns (output: seq<byte>)
      requires Shaped() && |key| < 0x1_0000_0000 && forall p <- parts :: |p| < 0x1_0000_0000
      modifies this`total0, this`total1, this`msg, this`counted, state, buffer, ipad, opad
      ensures output == Hmac(alg, key, Flatten(parts))
    {
      assert Low(|key|) == |key|;
      ghost var k := HmacStarts(key, |key|);
      output := HmacRest(key, k, parts);
    }

    /** The parts of a text, once the key is in, and its end. */
    method HmacRest(ghost key: seq<byte>, ghost k: seq<byte>, parts: seq<seq<byte>>) returns (output: seq<byte>)
      requires Valid() && Keyed(k) && k == BlockKey(alg, key, |key|) && msg == Pad(k, 0x36) && counted == |msg|
      requires forall p <- parts :: |p| < 0x1_0000_0000
      modifies this`total0, this`total1, this`msg, this`counted, state, buffer
      ensures output == Hmac(alg, key, Flatten(parts))
    {
      CountedAll(parts);
      Parts(parts);
      output := HmacDone(key, k, Flatten(parts));
    }

    /** The end of a text that was counted in full. */
    method HmacDone(ghost key: seq<byte>, ghost k: seq<byte>, ghost text: seq<byte>) returns (output: seq<byte>)
      requires Valid() && Keyed(k) && k == BlockKey(alg, key, |key|) && msg == Pad(k, 0x36) + text && counted == |msg|
      modifies this`total0, this`total1, this`msg, this`counted, state, buffer
      ensures output == Hmac(alg, key, text)
    {
      ghost var inner := msg;
      output := HmacFinish(k);
      HmacIs(alg, key, k, text, inner);
    }
  }

  lemma HmacIs(alg: Algorithm, key: seq<byte>, k: seq<byte>, text: seq<byte>, inner: seq<byte>)
    requires k == BlockKey(alg, key, |key|) && inner == Pad(k, 0x36) + text
    ensures Hash(alg, Pad(k, 0x5C) + Digest(alg, inner, |inner|)) == Hmac(alg, key, text)
  {
  }

  lemma NextPart(parts: seq<seq<byte>>, i: nat, before: seq<byte>)
    requires i < |parts|
    ensures before + Flatten(parts[..i]) + parts[i] == before + Flatten(parts[..i + 1])
    ensures Counted(parts[..i]) + Low(|parts[i]|) == Counted(parts[..i + 1])
  {
    assert parts[..i + 1] == parts[..i] + [parts[i]];
    FlattenSnoc(parts[..i], parts[i]);
    CountedSnoc(parts[..i], parts[i]);
    assert before + Flatten(parts[..i]) + parts[i] == before + (Flatten(parts[..i]) + parts[i]);
  }

  /** The padding of the code is that of the standard. */
  lemma PaddedIs(alg: Algorithm, msg: seq<byte>, n: nat, padn: nat)
    requires var last := |msg| % 64; padn == if last < 56 then 56 - last else 120 - last
    ensures msg + ([0x80] + Zeros(padn - 1)) + LengthField(alg, n) == Padded(alg, msg, n)
  {
    assert padn - 1 == (119 - |msg| % 64) % 64;
    assert msg + ([0x80] + Zeros(padn - 1)) == msg + [0x80] + Zeros(padn - 1);
  }

  lemma Whole(tail: seq<byte>, input: seq<byte>, fill: nat)
    requires |tail| + fill == 64 && fill <= |input|
    ensures var data := tail + input; data[..64] == tail + input[..fill] && data[64..] == input[fill..]
  {
  }

  lemma AbsorbShort(alg: Algorithm, h: seq<word>, data: seq<byte>)
    requires |h| == |Initial(alg)| && |data| < 64
    ensures Absorb(alg, h, data) == h
  {
  }

  lemma TailShort(data: seq<byte>)
    requires |data| < 64
    ensures Tail(data) == data && |data| % 64 == |data|
  {
  }

  /** Less than a block: nothing is absorbed, and everything is tail. */
  lemma Short(alg: Algorithm, h: seq<word>, input: seq<byte>, data: seq<byte>)
    requires |h| == |Initial(alg)| && |input| <= |data| < 64
    ensures Absorb(alg, h, data) == h == Absorb(alg, h, input) && Tail(data) == data && |data| % 64 == |data|
  {
    AbsorbShort(alg, h, data);
    AbsorbShort(alg, h, input);
    TailShort(data);
  }

  lemma LowSame(m: nat, n: nat, k: nat)
    requires Low(m) == Low(n)
    ensures Low(m + Low(k)) == Low(n + k) && m % 64 == n % 64 == Low(m) % 64
  {
    var a, b, c := m / 0x1_0000_0000, n / 0x1_0000_0000, k / 0x1_0000_0000;
    var r := Low(n) + Low(k);
    assert m + Low(k) == 0x1_0000_0000 * a + r && n + k == 0x1_0000_0000 * (b + c) + r;
    LowOf(a, r);
    LowOf(b + c, r);
    Blocks(a, Low(m));
    Blocks(b, Low(n));
  }

  lemma LowOf(q: nat, r: nat)
    ensures Low(0x1_0000_0000 * q + r) == Low(r)
  {
    var x, y := r / 0x1_0000_0000, r % 0x1_0000_0000;
    Divided(q + x, y, 0x1_0000_0000 * q + r);
  }

  lemma Blocks(q: nat, r: nat)
    ensures (0x1_0000_0000 * q + r) % 64 == r % 64
  {
    assert 0x1_0000_0000 * q + r == 64 * (0x400_0000 * q) + r;
  }

  /** The counter knows the length of the tail. */
  lemma SameTail(total0: nat, total1: nat, n: nat, msg: seq<byte>, input: seq<byte>)
    requires Counting(total0, total1, n) && Low(n) == Low(|msg|)
    ensures total0 % 64 == |Tail(msg)| == |msg| % 64
    ensures |Tail(msg) + input| % 64 == |msg + input| % 64
    ensures Low(n + Low(|input|)) == Low(|msg + input|)
  {
    LowSame(n, |msg|, |input|);
    TailSize(|msg|, |input|);
  }

  lemma TailSize(n: nat, k: nat)
    ensures (n % 64 + k) % 64 == (n + k) % 64
  {
    assert n == 64 * (n / 64) + n % 64;
  }
}
