/** Base64 (section 4 of RFC 4648) as base64.c and the wrappers of
  stringutil.cpp do it. */
module Base64 {
  type byte = n: nat | n < 256

  // ------------------------------------------------------------ the alphabet

  /** `base64_enc_map` */
  function Letter(v: nat): byte
    requires v < 64
  {
    if v < 26 then 65 + v                // A-Z
    else if v < 52 then 97 + (v - 26)    // a-z
    else if v < 62 then 48 + (v - 52)    // 0-9
    else if v == 62 then 43              // +
    else 47                              // /
  }

  /** `base64_dec_map`: 64 for the padding, 127 for what is not in the alphabet. */
  function Meaning(c: byte): (v: nat)
    ensures v <= 64 || v == 127
  {
    if 65 <= c <= 90 then c - 65
    else if 97 <= c <= 122 then c - 97 + 26
    else if 48 <= c <= 57 then c - 48 + 52
    else if c == 43 then 62
    else if c == 47 then 63
    else if c == 61 then 64
    else 127
  }

  const PAD: byte := 61
  const CR: byte := 13
  const LF: byte := 10

  // -------------------------------------------------------------- encoding

  function Triple(a: byte, b: byte, c: byte): (t: seq<byte>)
    ensures |t| == 4
  {
    [Letter(a / 4), Letter(a % 4 * 16 + b / 16), Letter(b % 16 * 4 + c / 64), Letter(c % 64)]
  }

  /** The last group, of one or two bytes. */
  function Rest(s: seq<byte>): (t: seq<byte>)
    requires |s| == 1 || |s| == 2
    ensures |t| == 4
  {
    if |s| == 1 then Triple(s[0], 0, 0)[..2] + [PAD, PAD] else Triple(s[0], s[1], 0)[..3] + [PAD]
  }

  function Encoded(s: seq<byte>): (t: seq<byte>)
    ensures |t| == (|s| + 2) / 3 * 4
  {
    if s == [] then []
    else if |s| < 3 then Rest(s)
    else Triple(s[0], s[1], s[2]) + Encoded(s[3..])
  }

  // -------------------------------------------------------------- decoding

  predicate Newline(c: byte) { c == CR || c == LF }

  /** The text without its line breaks. */
  function Significant(t: seq<byte>): (r: seq<byte>)
    ensures |r| <= |t|
  {
    if t == [] then [] else (if Newline(t[0]) then [] else [t[0]]) + Significant(t[1..])
  }

  function Pads(t: seq<byte>): (n: nat)
    ensures n <= |t|
  {
    if t == [] then 0 else (if t[0] == PAD then 1 else 0) + Pads(t[1..])
  }

  /** Letters, with at most two paddings, which come last. */
  predicate Proper(t: seq<byte>) {
    (forall i :: 0 <= i < |t| ==> Meaning(t[i]) != 127 && (t[i] == PAD ==> i + 2 >= |t|)) &&
    (|t| >= 2 && t[|t| - 2] == PAD ==> t[|t| - 1] == PAD)
  }

  /** A carriage return only stands before a line feed. */
  predicate Broken(t: seq<byte>, i: nat)
    requires i < |t|
  {
    t[i] == CR ==> i + 1 < |t| && t[i + 1] == LF
  }

  predicate Acceptable(t: seq<byte>) {
    Proper(Significant(t)) && forall i :: 0 <= i < |t| ==> Broken(t, i)
  }

  function Six(c: byte): (v: nat)
    ensures v < 64
  {
    Meaning(c) % 64
  }

  /** The number that is read as far as `q`, six bits a character. */
  function Value(q: seq<byte>): nat {
    if q == [] then 0 else Value(q[..|q| - 1]) * 64 + Six(q[|q| - 1])
  }

  /** The bytes of a group of four. */
  function Bytes(x: nat): (b: seq<byte>)
    ensures |b| == 3
  {
    [x / 65536 % 256, x / 256 % 256, x % 256]
  }

  /** What a group of four stands for when there have been `pads` paddings. */
  function Group(q: seq<byte>, pads: nat): (b: seq<byte>)
    ensures |b| <= 3
  {
    Bytes(Value(q))[..if pads <= 3 then 3 - pads else 0]
  }

  /** Whole groups only; behind `pads` paddings. */
  function DecodedFrom(t: seq<byte>, pads: nat): (b: seq<byte>)
    ensures |b| <= |t| / 4 * 3
  {
    if |t| < 4 then []
    else
      var p := pads + Pads(t[..4]);
      Group(t[..4], p) + DecodedFrom(t[4..], p)
  }

  function Decoded(t: seq<byte>): (b: seq<byte>)
    ensures |b| <= |t| / 4 * 3
  {
    DecodedFrom(t, 0)
  }

  // ------------------------------------------------------------ round trip

  lemma ValueSnoc(q: seq<byte>, c: byte)
    ensures Value(q + [c]) == Value(q) * 64 + Six(c)
  {
    assert (q + [c])[..|q|] == q;
  }

  lemma FourValue(a: byte, b: byte, c: byte, d: byte)
    ensures Value([a, b, c, d]) == Six(a) * 262144 + Six(b) * 4096 + Six(c) * 64 + Six(d)
  {
    ValueSnoc([], a);
    ValueSnoc([a], b);
    ValueSnoc([a, b], c);
    ValueSnoc([a, b, c], d);
    assert [] + [a] == [a] && [a] + [b] == [a, b] && [a, b] + [c] == [a, b, c] && [a, b, c] + [d] == [a, b, c, d];
  }

  lemma Join(a: byte, b: byte, c: byte)
    ensures a / 4 * 262144 + (a % 4 * 16 + b / 16) * 4096 + (b % 16 * 4 + c / 64) * 64 + c % 64 == a * 65536 + b * 256 + c
  {
  }

  lemma SixLetter(v: nat)
    requires v < 64
    ensures Six(Letter(v)) == v && Letter(v) != PAD
  {
  }

  lemma LettersValue(v: nat, w: nat, x: nat, y: nat)
    requires v < 64 && w < 64 && x < 64 && y < 64
    ensures Value([Letter(v), Letter(w), Letter(x), Letter(y)]) == v * 262144 + w * 4096 + x * 64 + y
    ensures Value([Letter(v), Letter(w), Letter(x), PAD]) == v * 262144 + w * 4096 + x * 64
    ensures Value([Letter(v), Letter(w), PAD, PAD]) == v * 262144 + w * 4096
  {
    SixLetter(v);
    SixLetter(w);
    SixLetter(x);
    SixLetter(y);
    FourValue(Letter(v), Letter(w), Letter(x), Letter(y));
    FourValue(Letter(v), Letter(w), Letter(x), PAD);
    FourValue(Letter(v), Letter(w), PAD, PAD);
  }

  lemma LettersPads(v: nat, w: nat, x: nat, y: nat)
    requires v < 64 && w < 64 && x < 64 && y < 64
    ensures Pads([Letter(v), Letter(w), Letter(x), Letter(y)]) == 0
    ensures Pads([Letter(v), Letter(w), Letter(x), PAD]) == 1 && Pads([Letter(v), Letter(w), PAD, PAD]) == 2
  {
    SixLetter(v);
    SixLetter(w);
    SixLetter(x);
    SixLetter(y);
    FourPads(Letter(v), Letter(w), Letter(x), Letter(y));
    FourPads(Letter(v), Letter(w), Letter(x), PAD);
    FourPads(Letter(v), Letter(w), PAD, PAD);
  }

  lemma BytesOf(a: byte, b: byte, c: byte)
    ensures Bytes(a * 65536 + b * 256 + c) == [a, b, c]
  {
    var x := a * 65536 + b * 256 + c;
    Digit256(x, a * 256 + b, c);
    Digit256(a * 256 + b, a, b);
    assert x / 65536 == a;
  }

  lemma Digit256(x: nat, q: nat, r: nat)
    requires x == q * 256 + r && r < 256
    ensures x / 256 == q && x % 256 == r
  {
  }

  /** A group stands for the bytes it was made of. */
  lemma TripleGroup(a: byte, b: byte, c: byte)
    ensures Group(Triple(a, b, c), 0) == [a, b, c] && Pads(Triple(a, b, c)) == 0
  {
    LettersValue(a / 4, a % 4 * 16 + b / 16, b % 16 * 4 + c / 64, c % 64);
    LettersPads(a / 4, a % 4 * 16 + b / 16, b % 16 * 4 + c / 64, c % 64);
    Join(a, b, c);
    BytesOf(a, b, c);
  }

  lemma OneGroup(a: byte)
    ensures Pads(Rest([a])) == 2 && Group(Rest([a]), 2) == [a]
  {
    var v, w := a / 4, a % 4 * 16;
    LettersValue(v, w, 0, 0);
    LettersPads(v, w, 0, 0);
    Join(a, 0, 0);
    BytesOf(a, 0, 0);
    assert Rest([a]) == [Letter(v), Letter(w), PAD, PAD];
  }

  lemma TwoGroup(a: byte, b: byte)
    ensures Pads(Rest([a, b])) == 1 && Group(Rest([a, b]), 1) == [a, b]
  {
    var v, w, x := a / 4, a % 4 * 16 + b / 16, b % 16 * 4;
    LettersValue(v, w, x, 0);
    LettersPads(v, w, x, 0);
    Join(a, b, 0);
    BytesOf(a, b, 0);
    assert Rest([a, b]) == [Letter(v), Letter(w), Letter(x), PAD];
  }

  lemma RestGroup(s: seq<byte>)
    requires |s| == 1 || |s| == 2
    ensures Pads(Rest(s)) == 3 - |s| && Group(Rest(s), 3 - |s|) == s
  {
    if |s| == 1 {
      OneGroup(s[0]);
      assert s == [s[0]];
    } else {
      TwoGroup(s[0], s[1]);
      assert s == [s[0], s[1]];
    }
  }

  lemma FourPads(a: byte, b: byte, c: byte, d: byte)
    ensures Pads([a, b, c, d]) == (if a == PAD then 1 else 0) + (if b == PAD then 1 else 0) + (if c == PAD then 1 else 0) + (if d == PAD then 1 else 0)
  {
    assert [a, b, c, d][1..] == [b, c, d] && [b, c, d][1..] == [c, d] && [c, d][1..] == [d] && [d][1..] == [];
    assert Pads([d]) == if d == PAD then 1 else 0;
    assert Pads([c, d]) == (if c == PAD then 1 else 0) + Pads([d]);
  }

  /** Decoding undoes encoding. */
  lemma {:induction false} RoundTrip(s: seq<byte>)
    ensures Decoded(Encoded(s)) == s
  {
    if s == [] {
    } else if |s| < 3 {
      RestGroup(s);
      assert Encoded(s)[..4] == Rest(s) && Encoded(s)[4..] == [];
    } else {
      var q, rest := Triple(s[0], s[1], s[2]), Encoded(s[3..]);
      assert Encoded(s)[..4] == q && Encoded(s)[4..] == rest;
      TripleGroup(s[0], s[1], s[2]);
      RoundTrip(s[3..]);
      assert s == [s[0], s[1], s[2]] + s[3..];
    }
  }

  // ------------------------------------------------------- the encoded text

  lemma TripleProper(a: byte, b: byte, c: byte)
    ensures forall x <- Triple(a, b, c) :: Meaning(x) < 64 && !Newline(x)
  {
  }

  lemma RestProper(s: seq<byte>)
    requires |s| == 1 || |s| == 2
    ensures Proper(Rest(s)) && forall x <- Rest(s) :: !Newline(x)
  {
  }

  lemma ProperBehind(q: seq<byte>, t: seq<byte>)
    requires |q| == 4 && (forall x <- q :: Meaning(x) < 64) && Proper(t)
    ensures Proper(q + t)
  {
    var r := q + t;
    forall i | 0 <= i < |r| ensures Meaning(r[i]) != 127 && (r[i] == PAD ==> i + 2 >= |r|) {
      if i < 4 { assert r[i] in q; } else { assert r[i] == t[i - 4]; }
    }
    if |t| < 2 { assert r[|r| - 2] in q; }
  }

  /** What is encoded can be decoded, and has no line breaks of its own. */
  lemma {:induction false} EncodedProper(s: seq<byte>)
    ensures Proper(Encoded(s)) && forall x <- Encoded(s) :: !Newline(x)
  {
    if s == [] {
    } else if |s| < 3 {
      RestProper(s);
    } else {
      TripleProper(s[0], s[1], s[2]);
      EncodedProper(s[3..]);
      ProperBehind(Triple(s[0], s[1], s[2]), Encoded(s[3..]));
    }
  }

  /** Encoded text, with line breaks inserted anywhere, decodes to the bytes. */
  lemma RoundTripBroken(s: seq<byte>, t: seq<byte>)
    requires Significant(t) == Encoded(s) && forall i :: 0 <= i < |t| ==> Broken(t, i)
    ensures Acceptable(t) && Decoded(Significant(t)) == s
  {
    EncodedProper(s);
    RoundTrip(s);
  }

  // ------------------------------------------------------------------ the code

  const TOO_SMALL: int := -0x002A
  const INVALID_CHARACTER: int := -0x002C

  /** The length that the code computes is that of the encoding. */
  lemma EncodedLength(n: nat)
    ensures var m := n * 8 / 6;
            (if n * 8 - m * 6 == 2 then m + 3 else if n * 8 - m * 6 == 4 then m + 2 else m) == (n + 2) / 3 * 4
  {
    var q, r := n / 3, n % 3;
    assert n == 3 * q + r;
    assert n * 8 / 6 == 4 * q + r * 8 / 6;
  }

  /** `q` behind what has been written; what is behind it is left alone. */
  method Put(dst: array<byte>, ghost done: seq<byte>, ghost orig: seq<byte>, p: nat, q: seq<byte>)
    requires |orig| == dst.Length && p == |done| && p + |q| <= dst.Length && dst[..] == done + orig[p..]
    modifies dst
    ensures dst[..] == done + q + orig[p + |q|..]
  {
    forall i | 0 <= i < |q| { dst[p + i] := q[i]; }
  }

  lemma NextGroup(done: seq<byte>, src: seq<byte>, i: nat)
    requires |src| - i >= 3
    ensures done + Encoded(src[i..]) == done + Triple(src[i], src[i + 1], src[i + 2]) + Encoded(src[i + 3..])
    ensures |Encoded(src[i..])| >= 4
  {
    var s := src[i..];
    assert s[3..] == src[i + 3..];
    assert Encoded(s) == Triple(s[0], s[1], s[2]) + Encoded(s[3..]);
  }

  /** The whole groups of three. */
  method Groups(dst: array<byte>, src: seq<byte>, ghost orig: seq<byte>) returns (i: nat, p: nat, ghost done: seq<byte>)
    requires |Encoded(src)| <= dst.Length && dst[..] == orig
    modifies dst
    ensures i <= |src| < i + 3 && p == |done| && p <= |orig| && done + Encoded(src[i..]) == Encoded(src) && dst[..] == done + orig[p..]
  {
    i, p, done := 0, 0, [];
    while |src| - i >= 3
      invariant i <= |src| && p == |done| && done + Encoded(src[i..]) == Encoded(src) && p <= |orig| && dst[..] == done + orig[p..]
    {
      NextGroup(done, src, i);
      var q := Triple(src[i], src[i + 1], src[i + 2]);
      Put(dst, done, orig, p, q);
      done := done + q;
      p, i := p + 4, i + 3;
    }
  }

  /** `base64_encode`: the code that is returned, and the new `*dlen`. */
  method Encode(dst: array<byte>, dlen: nat, src: seq<byte>) returns (ret: int, out: nat)
    requires dlen <= dst.Length
    modifies dst
    ensures src == [] ==> ret == 0 && out == dlen && dst[..] == old(dst[..])
    ensures src != [] && dlen <= |Encoded(src)| ==> ret == TOO_SMALL && out == |Encoded(src)| + 1 && dst[..] == old(dst[..])
    ensures src != [] && dlen > |Encoded(src)| ==>
              ret == 0 && out == |Encoded(src)| && dst[..] == Encoded(src) + [0] + old(dst[..])[out + 1..]
  {
    if |src| == 0 {
      return 0, dlen;
    }
    var n := |src| * 8 / 6;
    EncodedLength(|src|);
    if |src| * 8 - n * 6 == 2 {
      n := n + 3;
    } else if |src| * 8 - n * 6 == 4 {
      n := n + 2;
    }
    if dlen < n + 1 {
      return TOO_SMALL, n + 1;
    }
    out := Fill(dst, src);
    return 0, out;
  }

  method Fill(dst: array<byte>, src: seq<byte>) returns (p: nat)
    requires |Encoded(src)| < dst.Length
    modifies dst
    ensures p == |Encoded(src)| && dst[..] == Encoded(src) + [0] + old(dst[..])[p + 1..]
  {
    ghost var orig := dst[..];
    var i;
    ghost var done;
    i, p, done := Groups(dst, src, orig);
    if i < |src| {
      var q := Rest(src[i..]);
      Put(dst, done, orig, p, q);
      done := done + q;
      p := p + 4;
    }
    assert done == Encoded(src);
    Put(dst, done, orig, p, [0]);
  }

  /** What is still to come is in order behind `pads` paddings. */
  predicate Tail(pads: nat, t: seq<byte>) {
    if pads == 0 then Proper(t) else pads + |t| <= 2 && forall c <- t :: c == PAD
  }

  predicate Ahead(pads: nat, t: seq<byte>) {
    Tail(pads, Significant(t)) && forall k :: 0 <= k < |t| ==> Broken(t, k)
  }

  lemma BreaksBehind(t: seq<byte>)
    requires t != []
    ensures (forall k :: 0 <= k < |t| ==> Broken(t, k)) <==> Broken(t, 0) && forall k :: 0 <= k < |t| - 1 ==> Broken(t[1..], k)
  {
    forall k | 0 <= k < |t| - 1 ensures Broken(t[1..], k) == Broken(t, k + 1) {}
    if forall k :: 0 <= k < |t| - 1 ==> Broken(t[1..], k) {
      forall k | 1 <= k < |t| ensures Broken(t, k) == Broken(t[1..], k - 1) {}
    }
  }

  lemma TailPad(pads: nat, r: seq<byte>)
    ensures Tail(pads, [PAD] + r) <==> pads < 2 && Tail(pads + 1, r)
  {
    var t := [PAD] + r;
    assert t[0] == PAD;
    if Tail(pads, t) {
      forall c | c in r ensures c == PAD { var k :| 0 <= k < |r| && r[k] == c; assert t[k + 1] == c; }
    }
    if pads < 2 && Tail(pads + 1, r) {
      forall k | 0 <= k < |t| ensures t[k] == PAD { if k > 0 { assert t[k] == r[k - 1] && r[k - 1] in r; } }
    }
  }

  lemma TailLetter(pads: nat, c: byte, r: seq<byte>)
    requires Meaning(c) < 64
    ensures Tail(pads, [c] + r) <==> pads == 0 && Tail(0, r)
  {
    var t := [c] + r;
    assert t[0] == c && c != PAD && c in t;
    if Proper(t) {
      forall k | 0 <= k < |r| ensures Meaning(r[k]) != 127 && (r[k] == PAD ==> k + 2 >= |r|) { assert t[k + 1] == r[k]; }
    }
    if Proper(r) {
      forall k | 0 <= k < |t| ensures Meaning(t[k]) != 127 && (t[k] == PAD ==> k + 2 >= |t|) { if k > 0 { assert t[k] == r[k - 1]; } }
    }
    if |r| >= 2 { assert t[|t| - 2] == r[|r| - 2] && t[|t| - 1] == r[|r| - 1]; }
  }

  lemma TailBad(pads: nat, c: byte, r: seq<byte>)
    requires Meaning(c) == 127
    ensures !Tail(pads, [c] + r)
  {
    var t := [c] + r;
    assert t[0] == c && c in t;
  }

  /** What the check of one character decides. */
  lemma AheadStep(pads: nat, t: seq<byte>)
    requires t != []
    ensures var c := t[0];
            Ahead(pads, t) <==>
            if Newline(c) then Broken(t, 0) && Ahead(pads, t[1..])
            else if c == PAD then pads < 2 && Ahead(pads + 1, t[1..])
            else Meaning(c) < 64 && pads == 0 && Ahead(0, t[1..])
  {
    var c, r := t[0], Significant(t[1..]);
    BreaksBehind(t);
    if Newline(c) {
      assert Significant(t) == r;
    } else if c == PAD {
      TailPad(pads, r);
    } else if Meaning(c) < 64 {
      TailLetter(pads, c, r);
    } else {
      TailBad(pads, c, r);
    }
  }

  /** The first loop of `base64_decode`: whether the text is in order, and how
      many of its characters count. */
  method Check(src: seq<byte>) returns (ok: bool, n: nat)
    ensures ok <==> Acceptable(src)
    ensures ok ==> n == |Significant(src)|
  {
    var i, j := 0, 0;
    n := 0;
    assert src[0..] == src;
    while i < |src|
      invariant i <= |src| && n + |Significant(src[i..])| == |Significant(src)|
      invariant Acceptable(src) <==> Ahead(j, src[i..])
    {
      AheadStep(j, src[i..]);
      assert src[i..][1..] == src[i + 1..];
      if |src| - i >= 2 && src[i] == CR && src[i + 1] == LF {
        i := i + 1;
        continue;
      }
      if src[i] == LF {
        i := i + 1;
        continue;
      }
      if src[i] == PAD {
        j := j + 1;
        if j > 2 {
          return false, n;
        }
      }
      if src[i] > 127 || Meaning(src[i]) == 127 {
        return false, n;
      }
      if Meaning(src[i]) < 64 && j != 0 {
        return false, n;
      }
      n, i := n + 1, i + 1;
    }
    ok := true;
  }

  // ------------------------------------------------------------- the groups

  lemma {:induction false} ValueBound(q: seq<byte>)
    ensures |q| <= 3 ==> Value(q) < 262144
    ensures |q| <= 2 ==> Value(q) < 4096
    ensures |q| <= 1 ==> Value(q) < 64
  {
    if q != [] { ValueBound(q[..|q| - 1]); }
  }

  /** `(x << 6) | v` in 64 bits, of which the last `n` characters remain. */
  function Shift(x: nat, v: nat): nat { (x * 64 + v) % 0x1_0000_0000_0000_0000 }

  function Room(n: nat): (m: nat)
    requires n <= 4
    ensures m > 0
  {
    if n == 0 then 1 else if n == 1 then 64 else if n == 2 then 4096 else if n == 3 then 262144 else 16777216
  }

  lemma Shift1(x: nat, v: nat)
    requires v < 64
    ensures Shift(x, v) % 64 == v
  {
    var k := (x * 64 + v) / 0x1_0000_0000_0000_0000;
    assert Shift(x, v) == 64 * (x - k * 0x400_0000_0000_0000) + v;
  }

  lemma Shift2(x: nat, v: nat, y: nat)
    requires v < 64 && x % 64 == y
    ensures Shift(x, v) % 4096 == y * 64 + v
  {
    var k := (x * 64 + v) / 0x1_0000_0000_0000_0000;
    assert Shift(x, v) == 4096 * (x / 64 - k * 0x10_0000_0000_0000) + (y * 64 + v);
  }

  lemma Shift3(x: nat, v: nat, y: nat)
    requires v < 64 && x % 4096 == y
    ensures Shift(x, v) % 262144 == y * 64 + v
  {
    var k := (x * 64 + v) / 0x1_0000_0000_0000_0000;
    assert Shift(x, v) == 262144 * (x / 4096 - k * 0x4000_0000_0000) + (y * 64 + v);
  }

  lemma Shift4(x: nat, v: nat, y: nat)
    requires v < 64 && x % 262144 == y
    ensures Shift(x, v) % 16777216 == y * 64 + v
  {
    var k := (x * 64 + v) / 0x1_0000_0000_0000_0000;
    assert Shift(x, v) == 16777216 * (x / 262144 - k * 0x100_0000_0000) + (y * 64 + v);
  }

  lemma ShiftKeeps(x: nat, v: nat, n: nat, y: nat)
    requires v < 64 && n < 4 && x % Room(n) == y
    ensures Shift(x, v) % Room(n + 1) == y * 64 + v
  {
    if n == 0 { Shift1(x, v); }
    else if n == 1 { Shift2(x, v, y); }
    else if n == 2 { Shift3(x, v, y); }
    else { Shift4(x, v, y); }
  }

  /** The three bytes that the code writes are those of the last four characters. */
  lemma LowBytes(x: nat)
    ensures Bytes(x) == Bytes(x % 16777216)
  {
    var a, b := x / 16777216, x % 16777216;
    assert x == 16777216 * a + b;
    LowByte(x / 65536, 256 * a, b / 65536, a);
    LowByte(x / 256, 65536 * a, b / 256, 256 * a);
    LowByte(x, 16777216 * a, b, 65536 * a);
  }

  lemma LowByte(x: nat, high: nat, low: nat, k: nat)
    requires x == high + low && high == 256 * k
    ensures x % 256 == low % 256
  {
  }

  /** In the middle of a group, behind what has been written: `part` of the
      group, `pads` paddings before it. */
  predicate Writing(written: seq<byte>, part: seq<byte>, pads: nat, rest: seq<byte>, all: seq<byte>) {
    |part| < 4 && written + DecodedFrom(part + rest, pads) == all
  }

  lemma PartSnoc(part: seq<byte>, c: byte, rest: seq<byte>)
    ensures part + ([c] + rest) == part + [c] + rest
  {
  }

  lemma GroupDone(written: seq<byte>, q: seq<byte>, pads: nat, rest: seq<byte>, all: seq<byte>)
    requires |q| == 4 && written + DecodedFrom(q + rest, pads) == all
    ensures Writing(written + Group(q, pads + Pads(q)), [], pads + Pads(q), rest, all)
  {
    assert (q + rest)[..4] == q && (q + rest)[4..] == rest && [] + rest == rest;
    var g := Group(q, pads + Pads(q));
    assert written + (g + DecodedFrom(rest, pads + Pads(q))) == written + g + DecodedFrom(rest, pads + Pads(q));
  }

  lemma {:induction false} PadsLetters(t: seq<byte>)
    requires forall c <- t :: c != PAD
    ensures Pads(t) == 0
  {
    if t != [] {
      assert t[0] in t && forall c <- t[1..] :: c in t;
      PadsLetters(t[1..]);
    }
  }

  lemma {:induction false} PadsAppend(a: seq<byte>, b: seq<byte>)
    ensures Pads(a + b) == Pads(a) + Pads(b)
  {
    if a == [] {
      assert a + b == b;
    } else {
      assert (a + b)[1..] == a[1..] + b;
      PadsAppend(a[1..], b);
    }
  }

  lemma ProperPads(t: seq<byte>)
    requires Proper(t)
    ensures Pads(t) <= 2
  {
    var k := if |t| >= 2 then |t| - 2 else 0;
    assert t == t[..k] + t[k..];
    PadsAppend(t[..k], t[k..]);
    PadsLetters(t[..k]);
  }

  /** The state of the second loop, `rest` being the characters to come. */
  predicate Unpacking(written: seq<byte>, part: seq<byte>, pads: nat, rest: seq<byte>, all: seq<byte>, x: nat, j: nat) {
    Writing(written, part, pads, rest, all) && x % Room(|part|) == Value(part) && j + pads + Pads(part) == 3 &&
    pads + Pads(part) + Pads(rest) <= 2
  }

  /** One character that counts, in the paddings and the number. */
  lemma CountCharacter(part: seq<byte>, pads: nat, c: byte, rest: seq<byte>, x: nat, j: nat)
    requires |part| < 4 && x % Room(|part|) == Value(part) && j + pads + Pads(part) == 3 && pads + Pads(part) + Pads([c] + rest) <= 2
    ensures var q, y, i := part + [c], Shift(x, Six(c)), if c == PAD then j - 1 else j;
            y % Room(|q|) == Value(q) && i > 0 && i + pads + Pads(q) == 3 && pads + Pads(q) + Pads(rest) <= 2
  {
    PadsAppend(part, [c]);
    PadsAppend([c], rest);
    assert Pads([c]) == if c == PAD then 1 else 0;
    ValueSnoc(part, c);
    ValueBound(part);
    ShiftKeeps(x, Six(c), |part|, Value(part));
  }

  /** One character that counts, short of the end of its group. */
  lemma Character(written: seq<byte>, part: seq<byte>, pads: nat, c: byte, rest: seq<byte>, all: seq<byte>, x: nat, j: nat)
    requires Unpacking(written, part, pads, [c] + rest, all, x, j) && |part| < 3
    ensures var i := if c == PAD then j - 1 else j;
            i > 0 && Unpacking(written, part + [c], pads, rest, all, Shift(x, Six(c)), i)
  {
    PartSnoc(part, c, rest);
    CountCharacter(part, pads, c, rest, x, j);
  }

  /** The last character of a group. */
  lemma LastCharacter(written: seq<byte>, part: seq<byte>, pads: nat, c: byte, rest: seq<byte>, all: seq<byte>, x: nat, j: nat)
    requires Unpacking(written, part, pads, [c] + rest, all, x, j) && |part| == 3
    ensures var q, y, i := part + [c], Shift(x, Six(c)), if c == PAD then j - 1 else j;
            0 < i <= 3 && Unpacking(written + Bytes(y)[..i], [], pads + Pads(q), rest, all, y, i)
  {
    var q := part + [c];
    PartSnoc(part, c, rest);
    CountCharacter(part, pads, c, rest, x, j);
    GroupDone(written, q, pads, rest, all);
    LowBytes(Shift(x, Six(c)));
  }

  /** What one character does in the second loop. */
  method Feed(dst: array<byte>, c: byte, j: nat, n: nat, x: nat, p: nat, ghost orig: seq<byte>, ghost written: seq<byte>,
              ghost part: seq<byte>, ghost pads: nat, ghost rest: seq<byte>, ghost all: seq<byte>)
    returns (i: nat, m: nat, y: nat, to: nat, ghost now: seq<byte>, ghost group: seq<byte>, ghost padded: nat)
    requires Unpacking(written, part, pads, [c] + rest, all, x, j) && n == |part| && p == |written| <= |orig|
    requires dst[..] == written + orig[p..] && |all| <= |orig|
    modifies dst
    ensures Unpacking(now, group, padded, rest, all, y, i) && m == |group| && to == |now| <= |orig| && dst[..] == now + orig[to..]
  {
    i := if Meaning(c) == 64 then j - 1 else j;
    y := Shift(x, Six(c));
    assert c == PAD <==> Meaning(c) == 64;
    if n < 3 {
      Character(written, part, pads, c, rest, all, x, j);
      m, to, now, group, padded := n + 1, p, written, part + [c], pads;
    } else {
      LastCharacter(written, part, pads, c, rest, all, x, j);
      now, group, padded := written + Bytes(y)[..i], [], pads + Pads(part + [c]);
      m, to := 0, p + i;
      Put(dst, written, orig, p, Bytes(y)[..i]);
    }
  }

  lemma First(src: seq<byte>, k: nat)
    requires k < |src|
    ensures Significant(src[k..]) == if Newline(src[k]) then Significant(src[k + 1..]) else [src[k]] + Significant(src[k + 1..])
  {
    assert src[k..][1..] == src[k + 1..];
    var r := Significant(src[k + 1..]);
    assert [] + r == r;
  }

  /** The second loop of `base64_decode`. */
  method Unpack(dst: array<byte>, src: seq<byte>) returns (p: nat)
    requires Proper(Significant(src)) && |Decoded(Significant(src))| <= dst.Length
    modifies dst
    ensures p == |Decoded(Significant(src))| && dst[..] == Decoded(Significant(src)) + old(dst[..])[p..]
  {
    var j: nat, n: nat, x: nat, k: nat := 3, 0, 0, 0;
    p := 0;
    ghost var all, orig := Decoded(Significant(src)), dst[..];
    ghost var written: seq<byte>, part: seq<byte>, pads: nat := [], [], 0;
    ProperPads(Significant(src));
    Start(Significant(src));
    assert src[0..] == src;
    while k < |src|
      invariant k <= |src| && n == |part| && p == |written| <= |orig| && dst[..] == written + orig[p..]
      invariant Unpacking(written, part, pads, Significant(src[k..]), all, x, j)
    {
      var c := src[k];
      k := k + 1;
      First(src, k - 1);
      if Newline(c) {
        continue;
      }
      j, n, x, p, written, part, pads := Feed(dst, c, j, n, x, p, orig, written, part, pads, Significant(src[k..]), all);
    }
    Stop(written, part, pads, all);
  }

  lemma Start(t: seq<byte>)
    requires Proper(t) && Pads(t) <= 2
    ensures Unpacking([], [], 0, t, Decoded(t), 0, 3)
  {
    assert [] + t == t && [] + DecodedFrom(t, 0) == DecodedFrom(t, 0);
  }

  lemma Stop(written: seq<byte>, part: seq<byte>, pads: nat, all: seq<byte>)
    requires Writing(written, part, pads, [], all)
    ensures written == all
  {
    assert part + [] == part && written + [] == written;
  }

  /** `base64_decode` */
  method Decode(dst: array<byte>, dlen: nat, src: seq<byte>) returns (ret: int, out: nat)
    requires dlen <= dst.Length
    modifies dst
    ensures !Acceptable(src) ==> ret == INVALID_CHARACTER && out == dlen && dst[..] == old(dst[..])
    ensures Acceptable(src) && Significant(src) == [] ==> ret == 0 && out == dlen && dst[..] == old(dst[..])
    ensures Acceptable(src) && Significant(src) != [] ==>
              var t := Significant(src);
              var need := (|t| * 6 + 7) / 8;
              if dlen < need then ret == TOO_SMALL && out == need && dst[..] == old(dst[..])
              else ret == 0 && out == |Decoded(t)| <= need && dst[..] == Decoded(t) + old(dst[..])[out..]
  {
    var ok, n := Check(src);
    if !ok {
      return INVALID_CHARACTER, dlen;
    }
    if n == 0 {
      return 0, dlen;
    }
    n := (n * 6 + 7) / 8;
    if dlen < n {
      return TOO_SMALL, n;
    }
    out := Unpack(dst, src);
    return 0, out;
  }

  // ---------------------------------------------------------------- wrappers

  /** `StringUtil::base64Encode`: its buffer is always large enough. For no
      bytes at all the result is the buffer as it was, four zeros. */
  method Base64Encode(src: seq<byte>) returns (str: seq<byte>)
    ensures str == if src == [] then [0, 0, 0, 0] else Encoded(src)
  {
    var size := |src| * 4 / 3 + 4;
    var dest := new byte[size](_ => 0);
    var ret, out := Encode(dest, size, src);
    str := if ret != 0 then [] else dest[..out];
  }

  /** `StringUtil::base64Decode`: its buffer is always large enough. */
  method Base64Decode(src: seq<byte>) returns (str: seq<byte>)
    ensures !Acceptable(src) ==> str == []
    ensures Acceptable(src) && Significant(src) == [] ==> str == seq(|src| * 3 / 4 + 4, _ => 0)
    ensures Acceptable(src) && Significant(src) != [] ==> str == Decoded(Significant(src))
  {
    var size := |src| * 3 / 4 + 4;
    var dest := new byte[size](_ => 0);
    var ret, out := Decode(dest, size, src);
    str := if ret != 0 then [] else dest[..out];
  }
}
