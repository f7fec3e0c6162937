/** The example of appendix A of FIPS 180-1: the message "abc", word by word and
  round by round. */
module Sha1Example {
  import opened Hashing
  import opened Sha1

  /** The constants are the first 32 bits behind the point of the square roots of
      2, 3, 5 and 10, the integer part with them: of sqrt(c) * 2^30 as a whole. */
  lemma ConstantsAreRoots(t: nat)
    requires t < 80
    ensures var c := if t < 20 then 2 else if t < 40 then 3 else if t < 60 then 5 else 10;
            var k := Constant(t) as nat;
            k * k <= c * 0x1000_0000_0000_0000 < (k + 1) * (k + 1)
  {
    assert Constant(0) as nat == 0x5A827999 && Constant(20) as nat == 0x6ED9EBA1;
    assert Constant(40) as nat == 0x8F1BBCDC && Constant(60) as nat == 0xCA62C1D6;
    assert Constant(t) == Constant(t / 20 * 20);
  }

  /** The block is the message, padded. */
  predicate Abc(block: seq<byte>) {
    |block| == 64 && BigEndian(block, 0) == 0x61626380 && (forall t :: 0 < t < 15 ==> BigEndian(block, 4 * t) == 0) &&
    BigEndian(block, 60) == 0x00000018
  }

  lemma FirstWords(block: seq<byte>)
    requires Abc(block)
    ensures Schedule(block, 0) == 0x61626380 && Schedule(block, 1) == 0x00000000
    ensures Schedule(block, 2) == 0x00000000 && Schedule(block, 3) == 0x00000000
    ensures Schedule(block, 4) == 0x00000000 && Schedule(block, 5) == 0x00000000
    ensures Schedule(block, 6) == 0x00000000 && Schedule(block, 7) == 0x00000000
    ensures Schedule(block, 8) == 0x00000000 && Schedule(block, 9) == 0x00000000
    ensures Schedule(block, 10) == 0x00000000 && Schedule(block, 11) == 0x00000000
    ensures Schedule(block, 12) == 0x00000000 && Schedule(block, 13) == 0x00000000
    ensures Schedule(block, 14) == 0x00000000 && Schedule(block, 15) == 0x00000018
  {
    assert forall t :: 0 <= t < 16 ==> Schedule(block, t) == BigEndian(block, 4 * t);
  }

  lemma SecondWords(block: seq<byte>)
    requires Abc(block)
    ensures Schedule(block, 16) == 0xC2C4C700 && Schedule(block, 17) == 0x00000000
    ensures Schedule(block, 18) == 0x00000030 && Schedule(block, 19) == 0x85898E01
    ensures Schedule(block, 20) == 0x00000000 && Schedule(block, 21) == 0x00000060
    ensures Schedule(block, 22) == 0x0B131C03 && Schedule(block, 23) == 0x00000030
    ensures Schedule(block, 24) == 0x85898EC1 && Schedule(block, 25) == 0x16263806
    ensures Schedule(block, 26) == 0x00000000 && Schedule(block, 27) == 0x00000180
    ensures Schedule(block, 28) == 0x2C4C700C && Schedule(block, 29) == 0x000000F0
    ensures Schedule(block, 30) == 0x93AFB507 && Schedule(block, 31) == 0x5898E048
  {
    FirstWords(block);
  }

  lemma ThirdWords(block: seq<byte>)
    requires Abc(block)
    ensures Schedule(block, 32) == 0x8E9A9202 && Schedule(block, 33) == 0x00000600
    ensures Schedule(block, 34) == 0xB131C0F0 && Schedule(block, 35) == 0x16263BC6
    ensures Schedule(block, 36) == 0x4EBED41E && Schedule(block, 37) == 0x626380A1
    ensures Schedule(block, 38) == 0x16263806 && Schedule(block, 39) == 0x000018C0
    ensures Schedule(block, 40) == 0xD2E138C4 && Schedule(block, 41) == 0x00000F00
    ensures Schedule(block, 42) == 0x3AFB5079 && Schedule(block, 43) == 0x898E04E5
    ensures Schedule(block, 44) == 0xE2BA3C2B && Schedule(block, 45) == 0x000060C0
    ensures Schedule(block, 46) == 0x053A37CD && Schedule(block, 47) == 0x74458547
  {
    SecondWords(block);
  }

  lemma FourthWords(block: seq<byte>)
    requires Abc(block)
    ensures Schedule(block, 48) == 0xDA9415ED && Schedule(block, 49) == 0x26380A16
    ensures Schedule(block, 50) == 0x626383A1 && Schedule(block, 51) == 0x4EBF54DE
    ensures Schedule(block, 52) == 0x3835B44B && Schedule(block, 53) == 0x0000F600
    ensures Schedule(block, 54) == 0x1E84C7A3 && Schedule(block, 55) == 0x98E04D98
    ensures Schedule(block, 56) == 0x651D16A0 && Schedule(block, 57) == 0x62658CA1
    ensures Schedule(block, 58) == 0x458544D6 && Schedule(block, 59) == 0x44584CB7
    ensures Schedule(block, 60) == 0x7BA06619 && Schedule(block, 61) == 0x6380AEA2
    ensures Schedule(block, 62) == 0x0AE55269 && Schedule(block, 63) == 0x627B49A1
  {
    ThirdWords(block);
  }

  lemma FifthWords(block: seq<byte>)
    requires Abc(block)
    ensures Schedule(block, 64) == 0x7CD45C9D && Schedule(block, 65) == 0x000F0000
    ensures Schedule(block, 66) == 0xFB50753A && Schedule(block, 67) == 0xEC6765E8
    ensures Schedule(block, 68) == 0xBA3C2BE2 && Schedule(block, 69) == 0x0060C000
    ensures Schedule(block, 70) == 0x3A37CD05 && Schedule(block, 71) == 0x458546F4
    ensures Schedule(block, 72) == 0xB8599DD6 && Schedule(block, 73) == 0x380A1A26
    ensures Schedule(block, 74) == 0x01E02203 && Schedule(block, 75) == 0xE7CC3456
    ensures Schedule(block, 76) == 0xE6E60B69 && Schedule(block, 77) == 0x00F60A00
    ensures Schedule(block, 78) == 0x5795EF4F && Schedule(block, 79) == 0x822E0879
  {
    FourthWords(block);
  }

  /** The registers after some rounds. */
  predicate After(block: seq<byte>, t: nat, r: Registers)
    requires |block| == 64
  {
    Rounds(block, t, Registers(0x67452301, 0xEFCDAB89, 0x98BADCFE, 0x10325476, 0xC3D2E1F0)) == r
  }

  lemma FirstRounds(block: seq<byte>)
    requires Abc(block)
    ensures After(block, 16, Registers(0x20BDD62F, 0x196BEE77, 0x644A3DA5, 0x1181ED99, 0x18C623F9))
  {
    FirstWords(block);
    assert After(block, 1, Registers(0x0116FC33, 0x67452301, 0x7BF36AE2, 0x98BADCFE, 0x10325476));
    assert After(block, 2, Registers(0x8990536D, 0x0116FC33, 0x59D148C0, 0x7BF36AE2, 0x98BADCFE));
    assert After(block, 3, Registers(0xA1390F08, 0x8990536D, 0xC045BF0C, 0x59D148C0, 0x7BF36AE2));
    assert After(block, 4, Registers(0xCDD8E11B, 0xA1390F08, 0x626414DB, 0xC045BF0C, 0x59D148C0));
    assert After(block, 5, Registers(0xCFD499DE, 0xCDD8E11B, 0x284E43C2, 0x626414DB, 0xC045BF0C));
    assert After(block, 6, Registers(0x3FC7CA40, 0xCFD499DE, 0xF3763846, 0x284E43C2, 0x626414DB));
    assert After(block, 7, Registers(0x993E30C1, 0x3FC7CA40, 0xB3F52677, 0xF3763846, 0x284E43C2));
    assert After(block, 8, Registers(0x9E8C07D4, 0x993E30C1, 0x0FF1F290, 0xB3F52677, 0xF3763846));
    assert After(block, 9, Registers(0x4B6AE328, 0x9E8C07D4, 0x664F8C30, 0x0FF1F290, 0xB3F52677));
    assert After(block, 10, Registers(0x8351F929, 0x4B6AE328, 0x27A301F5, 0x664F8C30, 0x0FF1F290));
    assert After(block, 11, Registers(0xFBDA9E89, 0x8351F929, 0x12DAB8CA, 0x27A301F5, 0x664F8C30));
    assert After(block, 12, Registers(0x63188FE4, 0xFBDA9E89, 0x60D47E4A, 0x12DAB8CA, 0x27A301F5));
    assert After(block, 13, Registers(0x4607B664, 0x63188FE4, 0x7EF6A7A2, 0x60D47E4A, 0x12DAB8CA));
    assert After(block, 14, Registers(0x9128F695, 0x4607B664, 0x18C623F9, 0x7EF6A7A2, 0x60D47E4A));
    assert After(block, 15, Registers(0x196BEE77, 0x9128F695, 0x1181ED99, 0x18C623F9, 0x7EF6A7A2));
  }

  lemma SecondRounds(block: seq<byte>)
    requires Abc(block)
    ensures After(block, 32, Registers(0x3B845D33, 0x1267B407, 0x717EEBD7, 0xA0DC2D4B, 0xD2AA1365))
  {
    SecondWords(block);
    FirstRounds(block);
    assert After(block, 17, Registers(0x4E925823, 0x20BDD62F, 0xC65AFB9D, 0x644A3DA5, 0x1181ED99));
    assert After(block, 18, Registers(0x82AA6728, 0x4E925823, 0xC82F758B, 0xC65AFB9D, 0x644A3DA5));
    assert After(block, 19, Registers(0xDC64901D, 0x82AA6728, 0xD3A49608, 0xC82F758B, 0xC65AFB9D));
    assert After(block, 20, Registers(0xFD9E1D7D, 0xDC64901D, 0x20AA99CA, 0xD3A49608, 0xC82F758B));
    assert After(block, 21, Registers(0x1A37B0CA, 0xFD9E1D7D, 0x77192407, 0x20AA99CA, 0xD3A49608));
    assert After(block, 22, Registers(0x33A23BFC, 0x1A37B0CA, 0x7F67875F, 0x77192407, 0x20AA99CA));
    assert After(block, 23, Registers(0x21283486, 0x33A23BFC, 0x868DEC32, 0x7F67875F, 0x77192407));
    assert After(block, 24, Registers(0xD541F12D, 0x21283486, 0x0CE88EFF, 0x868DEC32, 0x7F67875F));
    assert After(block, 25, Registers(0xC7567DC6, 0xD541F12D, 0x884A0D21, 0x0CE88EFF, 0x868DEC32));
    assert After(block, 26, Registers(0x48413BA4, 0xC7567DC6, 0x75507C4B, 0x884A0D21, 0x0CE88EFF));
    assert After(block, 27, Registers(0xBE35FBD5, 0x48413BA4, 0xB1D59F71, 0x75507C4B, 0x884A0D21));
    assert After(block, 28, Registers(0x4AA84D97, 0xBE35FBD5, 0x12104EE9, 0xB1D59F71, 0x75507C4B));
    assert After(block, 29, Registers(0x8370B52E, 0x4AA84D97, 0x6F8D7EF5, 0x12104EE9, 0xB1D59F71));
    assert After(block, 30, Registers(0xC5FBAF5D, 0x8370B52E, 0xD2AA1365, 0x6F8D7EF5, 0x12104EE9));
    assert After(block, 31, Registers(0x1267B407, 0xC5FBAF5D, 0xA0DC2D4B, 0xD2AA1365, 0x6F8D7EF5));
  }

  lemma ThirdRounds(block: seq<byte>)
    requires Abc(block)
    ensures After(block, 48, Registers(0xBEAD02CA, 0xA01B846C, 0x8714787C, 0x503CA382, 0xFB86C6AB))
  {
    ThirdWords(block);
    SecondRounds(block);
    assert After(block, 33, Registers(0x046FAA0A, 0x3B845D33, 0xC499ED01, 0x717EEBD7, 0xA0DC2D4B));
    assert After(block, 34, Registers(0x2C0EBC11, 0x046FAA0A, 0xCEE1174C, 0xC499ED01, 0x717EEBD7));
    assert After(block, 35, Registers(0x21796AD4, 0x2C0EBC11, 0x811BEA82, 0xCEE1174C, 0xC499ED01));
    assert After(block, 36, Registers(0xDCBBB0CB, 0x21796AD4, 0x4B03AF04, 0x811BEA82, 0xCEE1174C));
    assert After(block, 37, Registers(0x0F511FD8, 0xDCBBB0CB, 0x085E5AB5, 0x4B03AF04, 0x811BEA82));
    assert After(block, 38, Registers(0xDC63973F, 0x0F511FD8, 0xF72EEC32, 0x085E5AB5, 0x4B03AF04));
    assert After(block, 39, Registers(0x4C986405, 0xDC63973F, 0x03D447F6, 0xF72EEC32, 0x085E5AB5));
    assert After(block, 40, Registers(0x32DE1CBA, 0x4C986405, 0xF718E5CF, 0x03D447F6, 0xF72EEC32));
    assert After(block, 41, Registers(0xFC87DEDF, 0x32DE1CBA, 0x53261901, 0xF718E5CF, 0x03D447F6));
    assert After(block, 42, Registers(0x970A0D5C, 0xFC87DEDF, 0x8CB7872E, 0x53261901, 0xF718E5CF));
    assert After(block, 43, Registers(0x7F193DC5, 0x970A0D5C, 0xFF21F7B7, 0x8CB7872E, 0x53261901));
    assert After(block, 44, Registers(0xEE1B1AAF, 0x7F193DC5, 0x25C28357, 0xFF21F7B7, 0x8CB7872E));
    assert After(block, 45, Registers(0x40F28E09, 0xEE1B1AAF, 0x5FC64F71, 0x25C28357, 0xFF21F7B7));
    assert After(block, 46, Registers(0x1C51E1F2, 0x40F28E09, 0xFB86C6AB, 0x5FC64F71, 0x25C28357));
    assert After(block, 47, Registers(0xA01B846C, 0x1C51E1F2, 0x503CA382, 0xFB86C6AB, 0x5FC64F71));
  }

  lemma FourthRounds(block: seq<byte>)
    requires Abc(block)
    ensures After(block, 64, Registers(0x6B61C9E1, 0xB66C020B, 0x9523272C, 0xF5D5B051, 0x8FD4B796))
  {
    FourthWords(block);
    ThirdRounds(block);
    assert After(block, 49, Registers(0xBAF39337, 0xBEAD02CA, 0x2806E11B, 0x8714787C, 0x503CA382));
    assert After(block, 50, Registers(0x120731C5, 0xBAF39337, 0xAFAB40B2, 0x2806E11B, 0x8714787C));
    assert After(block, 51, Registers(0x641DB2CE, 0x120731C5, 0xEEBCE4CD, 0xAFAB40B2, 0x2806E11B));
    assert After(block, 52, Registers(0x3847AD66, 0x641DB2CE, 0x4481CC71, 0xEEBCE4CD, 0xAFAB40B2));
    assert After(block, 53, Registers(0xE490436D, 0x3847AD66, 0x99076CB3, 0x4481CC71, 0xEEBCE4CD));
    assert After(block, 54, Registers(0x27E9F1D8, 0xE490436D, 0x8E11EB59, 0x99076CB3, 0x4481CC71));
    assert After(block, 55, Registers(0x7B71F76D, 0x27E9F1D8, 0x792410DB, 0x8E11EB59, 0x99076CB3));
    assert After(block, 56, Registers(0x5E6456AF, 0x7B71F76D, 0x09FA7C76, 0x792410DB, 0x8E11EB59));
    assert After(block, 57, Registers(0xC846093F, 0x5E6456AF, 0x5EDC7DDB, 0x09FA7C76, 0x792410DB));
    assert After(block, 58, Registers(0xD262FF50, 0xC846093F, 0xD79915AB, 0x5EDC7DDB, 0x09FA7C76));
    assert After(block, 59, Registers(0x09D785FD, 0xD262FF50, 0xF211824F, 0xD79915AB, 0x5EDC7DDB));
    assert After(block, 60, Registers(0x3F52DE5A, 0x09D785FD, 0x3498BFD4, 0xF211824F, 0xD79915AB));
    assert After(block, 61, Registers(0xD756C147, 0x3F52DE5A, 0x4275E17F, 0x3498BFD4, 0xF211824F));
    assert After(block, 62, Registers(0x548C9CB2, 0xD756C147, 0x8FD4B796, 0x4275E17F, 0x3498BFD4));
    assert After(block, 63, Registers(0xB66C020B, 0x548C9CB2, 0xF5D5B051, 0x8FD4B796, 0x4275E17F));
  }

  lemma FifthRounds(block: seq<byte>)
    requires Abc(block)
    ensures After(block, 80, Registers(0x42541B35, 0x5738D5E1, 0x21834873, 0x681E6DF6, 0xD8FDF6AD))
  {
    FifthWords(block);
    FourthRounds(block);
    assert After(block, 65, Registers(0x19DFA7AC, 0x6B61C9E1, 0xED9B0082, 0x9523272C, 0xF5D5B051));
    assert After(block, 66, Registers(0x101655F9, 0x19DFA7AC, 0x5AD87278, 0xED9B0082, 0x9523272C));
    assert After(block, 67, Registers(0x0C3DF2B4, 0x101655F9, 0x0677E9EB, 0x5AD87278, 0xED9B0082));
    assert After(block, 68, Registers(0x78DD4D2B, 0x0C3DF2B4, 0x4405957E, 0x0677E9EB, 0x5AD87278));
    assert After(block, 69, Registers(0x497093C0, 0x78DD4D2B, 0x030F7CAD, 0x4405957E, 0x0677E9EB));
    assert After(block, 70, Registers(0x3F2588C2, 0x497093C0, 0xDE37534A, 0x030F7CAD, 0x4405957E));
    assert After(block, 71, Registers(0xC199F8C7, 0x3F2588C2, 0x125C24F0, 0xDE37534A, 0x030F7CAD));
    assert After(block, 72, Registers(0x39859DE7, 0xC199F8C7, 0x8FC96230, 0x125C24F0, 0xDE37534A));
    assert After(block, 73, Registers(0xEDB42DE4, 0x39859DE7, 0xF0667E31, 0x8FC96230, 0x125C24F0));
    assert After(block, 74, Registers(0x11793F6F, 0xEDB42DE4, 0xCE616779, 0xF0667E31, 0x8FC96230));
    assert After(block, 75, Registers(0x5EE76897, 0x11793F6F, 0x3B6D0B79, 0xCE616779, 0xF0667E31));
    assert After(block, 76, Registers(0x63F7DAB7, 0x5EE76897, 0xC45E4FDB, 0x3B6D0B79, 0xCE616779));
    assert After(block, 77, Registers(0xA079B7D9, 0x63F7DAB7, 0xD7B9DA25, 0xC45E4FDB, 0x3B6D0B79));
    assert After(block, 78, Registers(0x860D21CC, 0xA079B7D9, 0xD8FDF6AD, 0xD7B9DA25, 0xC45E4FDB));
    assert After(block, 79, Registers(0x5738D5E1, 0x860D21CC, 0x681E6DF6, 0xD8FDF6AD, 0xD7B9DA25));
  }

  lemma LengthOfAbc()
    ensures LengthField(SHA1, 3) == [0, 0, 0, 0, 0, 0, 0, 24]
  {
    assert Low(24) == 24 && High(24) == 0;
    assert Bytes(SHA1, WordOf(0)) == [0, 0, 0, 0] && Bytes(SHA1, WordOf(24)) == [0, 0, 0, 24];
  }

  lemma AbcBytes(p: seq<byte>)
    requires p == [0x61, 0x62, 0x63] + [0x80] + Zeros(52) + [0, 0, 0, 0, 0, 0, 0, 24]
    ensures |p| == 64 && p[0] == 0x61 && p[1] == 0x62 && p[2] == 0x63 && p[3] == 0x80 && p[63] == 24
    ensures forall i :: 3 < i < 63 ==> p[i] == 0
  {
  }

  lemma AbcBlock(p: seq<byte>)
    requires |p| == 64 && p[0] == 0x61 && p[1] == 0x62 && p[2] == 0x63 && p[3] == 0x80 && p[63] == 24
    requires forall i :: 3 < i < 63 ==> p[i] == 0
    ensures Abc(p)
  {
  }

  lemma AbcPadded(alg: Algorithm, m: seq<byte>, n: nat)
    requires alg == SHA1 && m == [0x61, 0x62, 0x63] && n == 3
    ensures |Padded(alg, m, n)| == 64 && Abc(Padded(alg, m, n))
  {
    LengthOfAbc();
    AbcBytes(Padded(alg, m, n));
    AbcBlock(Padded(alg, m, n));
  }

  lemma AbcCompressed(block: seq<byte>)
    requires Abc(block)
    ensures Compressed(SHA1, Initial(SHA1), block) == [0xA9993E36, 0x4706816A, 0xBA3E2571, 0x7850C26C, 0x9CD0D89D]
  {
    FifthRounds(block);
  }

  lemma OneBlock(alg: Algorithm, h: seq<word>, block: seq<byte>)
    requires |h| == |Initial(alg)| && |block| == 64
    ensures Absorb(alg, h, block) == Compressed(alg, h, block)
  {
    assert block[..64] == block && |block[64..]| == 0;
  }

  lemma FiveWords(alg: Algorithm, h: seq<word>)
    requires |h| == 5
    ensures Output(alg, h) == Bytes(alg, h[0]) + (Bytes(alg, h[1]) + (Bytes(alg, h[2]) + (Bytes(alg, h[3]) + Bytes(alg, h[4]))))
  {
    var b, c, d, e := h[1..], h[2..], h[3..], h[4..];
    assert b[1..] == c && c[1..] == d && d[1..] == e && e[1..] == [];
    assert Output(alg, e) == Bytes(alg, h[4]) + [];
    assert Output(alg, d) == Bytes(alg, h[3]) + Output(alg, e);
    assert Output(alg, c) == Bytes(alg, h[2]) + Output(alg, d);
    assert Output(alg, b) == Bytes(alg, h[1]) + Output(alg, c);
  }

  lemma AbcOutput(h: seq<word>)
    requires h == [0xA9993E36, 0x4706816A, 0xBA3E2571, 0x7850C26C, 0x9CD0D89D]
    ensures Bytes(SHA1, h[0]) == [0xA9, 0x99, 0x3E, 0x36] && Bytes(SHA1, h[1]) == [0x47, 0x06, 0x81, 0x6A]
    ensures Bytes(SHA1, h[2]) == [0xBA, 0x3E, 0x25, 0x71] && Bytes(SHA1, h[3]) == [0x78, 0x50, 0xC2, 0x6C]
    ensures Bytes(SHA1, h[4]) == [0x9C, 0xD0, 0xD8, 0x9D]
  {
  }

  /** The digest that the standard gives. */
  const DIGEST: seq<byte> :=
    [0xA9, 0x99, 0x3E, 0x36, 0x47, 0x06, 0x81, 0x6A, 0xBA, 0x3E,
     0x25, 0x71, 0x78, 0x50, 0xC2, 0x6C, 0x9C, 0xD0, 0xD8, 0x9D]

  lemma AbcFinal(h: seq<word>)
    requires h == [0xA9993E36, 0x4706816A, 0xBA3E2571, 0x7850C26C, 0x9CD0D89D]
    ensures Output(SHA1, h) == DIGEST
  {
    FiveWords(SHA1, h);
    AbcOutput(h);
  }

  lemma AbcDigest(m: seq<byte>)
    requires m == [0x61, 0x62, 0x63]
    ensures Hash(SHA1, m) == DIGEST
  {
    var p := Padded(SHA1, m, |m|);
    AbcPadded(SHA1, m, |m|);
    AbcCompressed(p);
    OneBlock(SHA1, Initial(SHA1), p);
    AbcFinal(Absorb(SHA1, Initial(SHA1), p));
  }

  /** It is what the code makes of the message. */
  method AbcHashed(m: seq<byte>) returns (digest: seq<byte>)
    requires m == [0x61, 0x62, 0x63]
    ensures digest == DIGEST
  {
    AbcDigest(m);
    assert Low(|m|) == |m|;
    digest := Context.OneShot(SHA1, m);
  }

  // ------------------------------------------------------- the two byte orders

  const STARTS_SHA1: seq<byte> :=
    [0x67, 0x45, 0x23, 0x01, 0xEF, 0xCD, 0xAB, 0x89, 0x98, 0xBA, 0xDC, 0xFE, 0x10, 0x32, 0x54, 0x76, 0xC3, 0xD2, 0xE1, 0xF0]

  const STARTS_MD5: seq<byte> :=
    [0x01, 0x23, 0x45, 0x67, 0x89, 0xAB, 0xCD, 0xEF, 0xFE, 0xDC, 0xBA, 0x98, 0x76, 0x54, 0x32, 0x10]

  /** The registers at first, as the standards write them byte by byte: section
      7 of FIPS 180-1, and section 3.3 of RFC 1321. */
  lemma InitialBytes(alg: Algorithm)
    ensures Output(alg, Initial(alg)) == if alg.SHA1? then STARTS_SHA1 else STARTS_MD5
  {
    var h := Initial(alg);
    if alg.SHA1? { FiveWords(alg, h); } else { FourWords(alg, h); }
  }

  lemma FourWords(alg: Algorithm, h: seq<word>)
    requires |h| == 4
    ensures Output(alg, h) == Bytes(alg, h[0]) + (Bytes(alg, h[1]) + (Bytes(alg, h[2]) + Bytes(alg, h[3])))
  {
    var b, c, d := h[1..], h[2..], h[3..];
    assert b[1..] == c && c[1..] == d && d[1..] == [];
    assert Output(alg, d) == Bytes(alg, h[3]) + [];
    assert Output(alg, c) == Bytes(alg, h[2]) + Output(alg, d);
    assert Output(alg, b) == Bytes(alg, h[1]) + Output(alg, c);
  }

  /** The length is written in the one order by SHA-1 and in the other by MD5. */
  lemma LengthOrders(compress: (Four, Block) -> Four, n: nat, i: nat)
    requires i < 8
    ensures LengthField(MD5(compress), n)[i] == LengthField(SHA1, n)[7 - i]
  {
    var low, high := WordOf(Low(8 * n)), WordOf(High(8 * n));
    BytesReversed(compress, low);
    BytesReversed(compress, high);
  }

  lemma BytesReversed(compress: (Four, Block) -> Four, x: word)
    ensures forall i :: 0 <= i < 4 ==> Bytes(MD5(compress), x)[i] == Bytes(SHA1, x)[3 - i]
  {
  }
}
