/** The SHA-1 compression function: `sha1_process` with its sixteen words and
  its renamed registers, against sections 5 to 7 of FIPS 180-1. */
module Sha1 {
  type byte = bv8
  type word = bv32

  // ------------------------------------------------------------ the standard

  /** The circular shift S^n of section 3 of FIPS 180-1. */
  function Rotate(x: word, n: nat): word
    requires n <= 32
  {
    x.RotateLeft(n)
  }

  function Choose(x: word, y: word, z: word): word { (x & y) | (!x & z) }

  function Parity(x: word, y: word, z: word): word { x ^ y ^ z }

  function Majority(x: word, y: word, z: word): word { (x & y) | (x & z) | (y & z) }

  /** The functions of section 5. */
  function Mix(t: nat, b: word, c: word, d: word): word {
    if t < 20 then Choose(b, c, d)
    else if t < 40 then Parity(b, c, d)
    else if t < 60 then Majority(b, c, d)
    else Parity(b, c, d)
  }

  function Plus(x: word, y: word): word { x + y }

  function Xor4(a: word, b: word, c: word, d: word): word { a ^ b ^ c ^ d }

  /** The constants of section 6. */
  function Constant(t: nat): word {
    if t < 20 then 0x5A827999 else if t < 40 then 0x6ED9EBA1 else if t < 60 then 0x8F1BBCDC else 0xCA62C1D6
  }

  /** Four bytes, the first one the most significant. */
  function BigEndian(b: seq<byte>, i: nat): word
    requires i + 4 <= |b|
  {
    ((b[i] as word) << 24) | ((b[i + 1] as word) << 16) | ((b[i + 2] as word) << 8) | (b[i + 3] as word)
  }

  /** Word `t` of the schedule of eighty, steps a and b of section 7. */
  function Schedule(block: seq<byte>, t: nat): word
    requires |block| == 64
    decreases t
  {
    if t < 16 then BigEndian(block, 4 * t)
    else
      Rotate(Xor4(Schedule(block, t - 3), Schedule(block, t - 8), Schedule(block, t - 14), Schedule(block, t - 16)), 1)
  }

  datatype Registers = Registers(a: word, b: word, c: word, d: word, e: word)

  /** TEMP in step d of section 7. */
  function Temp(s: word, f: word, e: word, w: word, k: word): word { s + f + e + w + k }

  /** Step d of section 7, once. */
  function Round(t: nat, r: Registers, w: word): Registers {
    Registers(Temp(Rotate(r.a, 5), Mix(t, r.b, r.c, r.d), r.e, w, Constant(t)), r.a, Rotate(r.b, 30), r.c, r.d)
  }

  function Rounds(block: seq<byte>, t: nat, r: Registers): Registers
    requires |block| == 64
    decreases t, block
  {
    if t == 0 then r else Round(t - 1, Rounds(block, t - 1, r), Schedule(block, t - 1))
  }

  function Load(h: seq<word>): Registers
    requires |h| == 5
  {
    Registers(h[0], h[1], h[2], h[3], h[4])
  }

  /** Section 7: the chaining value after a block. */
  function Compress(h: seq<word>, block: seq<byte>): (r: seq<word>)
    requires |h| == 5 && |block| == 64
  {
    var v := Rounds(block, 80, Load(h));
    [Plus(h[0], v.a), Plus(h[1], v.b), Plus(h[2], v.c), Plus(h[3], v.d), Plus(h[4], v.e)]
  }

  // ---------------------------------------------------------------- the code

  /** The macro `S`. */
  function S(x: word, n: nat): word
    requires 0 < n < 32
  {
    (x << n) | (x >> (32 - n))
  }

  function FastChoose(x: word, y: word, z: word): word { z ^ (x & (y ^ z)) }

  function FastMajority(x: word, y: word, z: word): word { (x & y) | (z & (x | y)) }

  /** The macro `F`, as it is defined for round `t`. */
  function F(t: nat, x: word, y: word, z: word): word {
    if t < 20 then FastChoose(x, y, z)
    else if t < 40 then Parity(x, y, z)
    else if t < 60 then FastMajority(x, y, z)
    else Parity(x, y, z)
  }

  lemma ShiftsAreRotations(x: word)
    ensures S(x, 1) == Rotate(x, 1) && S(x, 5) == Rotate(x, 5) && S(x, 30) == Rotate(x, 30)
  {
  }

  lemma ChooseBits(x: word, y: word, z: word)
    ensures z ^ (x & (y ^ z)) == (x & y) | (!x & z)
  {
  }

  lemma ChooseForms(x: word, y: word, z: word)
    ensures FastChoose(x, y, z) == Choose(x, y, z)
  {
    ChooseBits(x, y, z);
  }

  lemma MajorityBits(x: word, y: word, z: word)
    ensures (x & y) | (z & (x | y)) == (x & y) | (x & z) | (y & z)
  {
  }

  lemma MajorityForms(x: word, y: word, z: word)
    ensures FastMajority(x, y, z) == Majority(x, y, z)
  {
    MajorityBits(x, y, z);
  }

  /** The shorter forms of the code are the functions of the standard. */
  lemma FormsAgree(t: nat, x: word, y: word, z: word)
    ensures F(t, x, y, z) == Mix(t, x, y, z)
  {
    if t < 20 {
      ChooseForms(x, y, z);
    } else if 40 <= t < 60 {
      MajorityForms(x, y, z);
    }
  }

  function Sum(e: word, s: word, f: word, k: word, x: word): word { e + (s + f + k + x) }

  lemma SumsAgree(e: word, s: word, f: word, k: word, x: word)
    ensures Sum(e, s, f, k, x) == Temp(s, f, e, x, k)
  {
  }

  /** The macro `P`: the new `e` and `b`; the other registers keep their names. */
  method P(t: nat, a: word, b: word, c: word, d: word, e: word, x: word) returns (e': word, b': word)
    requires t < 80
    ensures Round(t, Registers(a, b, c, d, e), x) == Registers(e', a, b', c, d)
  {
    ShiftsAreRotations(a);
    ShiftsAreRotations(b);
    FormsAgree(t, b, c, d);
    SumsAgree(e, Rotate(a, 5), Mix(t, b, c, d), Constant(t), x);
    e' := Sum(e, S(a, 5), F(t, b, c, d), Constant(t), x);
    b' := S(b, 30);
  }

  /** The sixteen words hold the last sixteen of the schedule, each in its place
      modulo sixteen; up to sixteen, the block itself. */
  ghost predicate Circular(w: array<word>, block: seq<byte>, t: nat)
    reads w
  {
    w.Length == 16 && |block| == 64 &&
    forall j :: (if t < 16 then 0 else t - 16) <= j < (if t < 16 then 16 else t) ==> w[j % 16] == Schedule(block, j)
  }

  /** The word of round `t`: the macro `R` from round sixteen on. */
  method R(w: array<word>, t: nat, ghost block: seq<byte>) returns (x: word)
    requires Circular(w, block, t)
    modifies w
    ensures x == Schedule(block, t) && Circular(w, block, t + 1)
  {
    if t < 16 {
      x := w[t];
    } else {
      var temp := Xor4(w[(t - 3) % 16], w[(t - 8) % 16], w[(t - 14) % 16], w[t % 16]);
      assert t % 16 == (t - 16) % 16;
      ShiftsAreRotations(temp);
      x := S(temp, 1);
      w[t % 16] := x;
      forall j | t - 15 <= j < t + 1
        ensures w[j % 16] == Schedule(block, j)
      {
        if j < t { Distinct(j, t); }
      }
    }
  }

  lemma Distinct(j: nat, t: nat)
    requires t - 16 < j < t
    ensures j % 16 != t % 16
  {
  }

  /** The registers after `t` rounds. */
  predicate IsAt(block: seq<byte>, t: nat, r: Registers, s: Registers)
    requires |block| == 64
  {
    Rounds(block, t, r) == s
  }

  /** The same, which the comparison keeps the verifier from taking apart. */
  predicate At(block: seq<byte>, t: nat, r: Registers, s: Registers)
    requires |block| == 64
  {
    IsAt(block, t, r, s) == true
  }

  /** Five rounds, after which every register is back under its own name. */
  method Five(w: array<word>, t: nat, ghost block: seq<byte>, ghost r: Registers, a: word, b: word, c: word, d: word, e: word)
    returns (A: word, B: word, C: word, D: word, E: word)
    requires t + 5 <= 80 && Circular(w, block, t) && At(block, t, r, Registers(a, b, c, d, e))
    modifies w
    ensures Circular(w, block, t + 5) && At(block, t + 5, r, Registers(A, B, C, D, E))
  {
    A, B, C, D, E := a, b, c, d, e;
    var x := R(w, t, block);
    E, B := P(t, A, B, C, D, E, x);
    assert Rounds(block, t + 1, r) == Registers(E, A, B, C, D);
    x := R(w, t + 1, block);
    D, A := P(t + 1, E, A, B, C, D, x);
    assert Rounds(block, t + 2, r) == Registers(D, E, A, B, C);
    x := R(w, t + 2, block);
    C, E := P(t + 2, D, E, A, B, C, x);
    assert Rounds(block, t + 3, r) == Registers(C, D, E, A, B);
    x := R(w, t + 3, block);
    B, D := P(t + 3, C, D, E, A, B, x);
    assert Rounds(block, t + 4, r) == Registers(B, C, D, E, A);
    x := R(w, t + 4, block);
    A, C := P(t + 4, B, C, D, E, A, x);
  }

  /** The words of a block. */
  method Words(block: seq<byte>) returns (w: array<word>)
    requires |block| == 64
    ensures fresh(w) && Circular(w, block, 0)
  {
    w := new word[16](i requires 0 <= i < 16 => BigEndian(block, 4 * i));
  }

  /** The eighty rounds. */
  method Eighty(block: seq<byte>, r: Registers) returns (v: Registers)
    requires |block| == 64
    ensures v == Rounds(block, 80, r)
  {
    var w := Words(block);
    var A, B, C, D, E := r.a, r.b, r.c, r.d, r.e;
    var t := 0;
    while t < 80
      invariant t <= 80 && t % 5 == 0 && Circular(w, block, t) && At(block, t, r, Registers(A, B, C, D, E))
    {
      A, B, C, D, E := Five(w, t, block, r, A, B, C, D, E);
      t := t + 5;
    }
    v := Registers(A, B, C, D, E);
  }

  /** `sha1_process`: the state in place. */
  method Process(state: array<word>, block: seq<byte>)
    requires state.Length == 5 && |block| == 64
    modifies state
    ensures state[..] == Compress(old(state[..]), block)
  {
    var v := Eighty(block, Registers(state[0], state[1], state[2], state[3], state[4]));
    state[0] := Plus(state[0], v.a);
    state[1] := Plus(state[1], v.b);
    state[2] := Plus(state[2], v.c);
    state[3] := Plus(state[3], v.d);
    state[4] := Plus(state[4], v.e);
  }
}
