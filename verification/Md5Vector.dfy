/** A digest that RFC 1321 gives in its appendix A.5, worked out step by step. */
module Md5Vector {
  import opened Md5Block
  import opened Md5Spec

  /** The letters from a to z. */
  const ALPHABET: seq<Octet> :=
    [0x61, 0x62, 0x63, 0x64, 0x65, 0x66, 0x67, 0x68, 0x69, 0x6a, 0x6b, 0x6c, 0x6d,
     0x6e, 0x6f, 0x70, 0x71, 0x72, 0x73, 0x74, 0x75, 0x76, 0x77, 0x78, 0x79, 0x7a]

  const DIGEST: seq<Octet> :=
    [0xc3, 0xfc, 0xd3, 0xd7, 0x61, 0x92, 0xe4, 0x00, 0x7d, 0xfb, 0x49, 0x6c, 0xca, 0x67, 0xe1, 0x3b]

  /** The one block of the padded message as words. */
  const WORDS: seq<Word> :=
    [0x64636261, 0x68676665, 0x6c6b6a69, 0x706f6e6d, 0x74737271, 0x78777675, 0x00807a79, 0x00000000,
     0x00000000, 0x00000000, 0x00000000, 0x00000000, 0x00000000, 0x00000000, 0x000000d0, 0x00000000]

  // ---------------------------------------------------------------- the steps, four at a time

  lemma FourFF(r: Regs, x: seq<Word>, from: nat, k: seq<nat>, t: seq<Word>, a: Word, d: Word, c: Word, b: Word)
    requires |x| == 16 && |k| == |t| == 4 && Uses(from, 0, k, [7, 12, 17, 22], t)
    requires FF(r.a, r.b, r.c, r.d, x[k[0]], 7, t[0]) == a && FF(r.d, a, r.b, r.c, x[k[1]], 12, t[1]) == d
    requires FF(r.c, d, a, r.b, x[k[2]], 17, t[2]) == c && FF(r.b, c, d, a, x[k[3]], 22, t[3]) == b
    ensures Steps(r, x, Lines(from, from + 4)) == Regs(a, b, c, d)
  {
    StepsFrom(r, x, from);
  }

  lemma FourGG(r: Regs, x: seq<Word>, from: nat, k: seq<nat>, t: seq<Word>, a: Word, d: Word, c: Word, b: Word)
    requires |x| == 16 && |k| == |t| == 4 && Uses(from, 1, k, [5, 9, 14, 20], t)
    requires GG(r.a, r.b, r.c, r.d, x[k[0]], 5, t[0]) == a && GG(r.d, a, r.b, r.c, x[k[1]], 9, t[1]) == d
    requires GG(r.c, d, a, r.b, x[k[2]], 14, t[2]) == c && GG(r.b, c, d, a, x[k[3]], 20, t[3]) == b
    ensures Steps(r, x, Lines(from, from + 4)) == Regs(a, b, c, d)
  {
    StepsFrom(r, x, from);
  }

  lemma FourHH(r: Regs, x: seq<Word>, from: nat, k: seq<nat>, t: seq<Word>, a: Word, d: Word, c: Word, b: Word)
    requires |x| == 16 && |k| == |t| == 4 && Uses(from, 2, k, [4, 11, 16, 23], t)
    requires HH(r.a, r.b, r.c, r.d, x[k[0]], 4, t[0]) == a && HH(r.d, a, r.b, r.c, x[k[1]], 11, t[1]) == d
    requires HH(r.c, d, a, r.b, x[k[2]], 16, t[2]) == c && HH(r.b, c, d, a, x[k[3]], 23, t[3]) == b
    ensures Steps(r, x, Lines(from, from + 4)) == Regs(a, b, c, d)
  {
    StepsFrom(r, x, from);
  }

  lemma FourII(r: Regs, x: seq<Word>, from: nat, k: seq<nat>, t: seq<Word>, a: Word, d: Word, c: Word, b: Word)
    requires |x| == 16 && |k| == |t| == 4 && Uses(from, 3, k, [6, 10, 15, 21], t)
    requires II(r.a, r.b, r.c, r.d, x[k[0]], 6, t[0]) == a && II(r.d, a, r.b, r.c, x[k[1]], 10, t[1]) == d
    requires II(r.c, d, a, r.b, x[k[2]], 15, t[2]) == c && II(r.b, c, d, a, x[k[3]], 21, t[3]) == b
    ensures Steps(r, x, Lines(from, from + 4)) == Regs(a, b, c, d)
  {
    StepsFrom(r, x, from);
  }

  lemma Values0()
    ensures FF(0x67452301, 0xefcdab89, 0x98badcfe, 0x10325476, 0x64636261, 7, 0xd76aa478) == 0xd6d117a6
    ensures FF(0x10325476, 0xd6d117a6, 0xefcdab89, 0x98badcfe, 0x68676665, 12, 0xe8c7b756) == 0xaab1aaaa
    ensures FF(0x98badcfe, 0xaab1aaaa, 0xd6d117a6, 0xefcdab89, 0x6c6b6a69, 17, 0x242070db) == 0x227d8cf1
    ensures FF(0xefcdab89, 0x227d8cf1, 0xaab1aaaa, 0xd6d117a6, 0x706f6e6d, 22, 0xc1bdceee) == 0x4503b812
  {
  }

  lemma From0()
    ensures Steps(Regs(0x67452301, 0xefcdab89, 0x98badcfe, 0x10325476), WORDS, Lines(0, 4)) ==
            Regs(0xd6d117a6, 0x4503b812, 0x227d8cf1, 0xaab1aaaa)
  {
    Values0();
    UsesFrom0();
    FourFF(Regs(0x67452301, 0xefcdab89, 0x98badcfe, 0x10325476), WORDS, 0,
           [0, 1, 2, 3], [0xd76aa478, 0xe8c7b756, 0x242070db, 0xc1bdceee],
           0xd6d117a6, 0xaab1aaaa, 0x227d8cf1, 0x4503b812);
  }

  lemma Values4()
    ensures FF(0xd6d117a6, 0x4503b812, 0x227d8cf1, 0xaab1aaaa, 0x74737271, 7, 0xf57c0faf) == 0xfe15f787
    ensures FF(0xaab1aaaa, 0xfe15f787, 0x4503b812, 0x227d8cf1, 0x78777675, 12, 0x4787c62a) == 0xa811b278
    ensures FF(0x227d8cf1, 0xa811b278, 0xfe15f787, 0x4503b812, 0x00807a79, 17, 0xa8304613) == 0xb71122fc
    ensures FF(0x4503b812, 0xb71122fc, 0xa811b278, 0xfe15f787, 0x00000000, 22, 0xfd469501) == 0xda9bbb0d
  {
  }

  lemma From4()
    ensures Steps(Regs(0xd6d117a6, 0x4503b812, 0x227d8cf1, 0xaab1aaaa), WORDS, Lines(4, 8)) ==
            Regs(0xfe15f787, 0xda9bbb0d, 0xb71122fc, 0xa811b278)
  {
    Values4();
    UsesFrom4();
    FourFF(Regs(0xd6d117a6, 0x4503b812, 0x227d8cf1, 0xaab1aaaa), WORDS, 4,
           [4, 5, 6, 7], [0xf57c0faf, 0x4787c62a, 0xa8304613, 0xfd469501],
           0xfe15f787, 0xa811b278, 0xb71122fc, 0xda9bbb0d);
  }

  lemma Values8()
    ensures FF(0xfe15f787, 0xda9bbb0d, 0xb71122fc, 0xa811b278, 0x00000000, 7, 0x698098d8) == 0xae752899
    ensures FF(0xa811b278, 0xae752899, 0xda9bbb0d, 0xb71122fc, 0x00000000, 12, 0x8b44f7af) == 0x2bbe757f
    ensures FF(0xb71122fc, 0x2bbe757f, 0xae752899, 0xda9bbb0d, 0x00000000, 17, 0xffff5bb1) == 0x7d4bd80b
    ensures FF(0xda9bbb0d, 0x7d4bd80b, 0x2bbe757f, 0xae752899, 0x00000000, 22, 0x895cd7be) == 0x56cfa5cb
  {
  }

  lemma From8()
    ensures Steps(Regs(0xfe15f787, 0xda9bbb0d, 0xb71122fc, 0xa811b278), WORDS, Lines(8, 12)) ==
            Regs(0xae752899, 0x56cfa5cb, 0x7d4bd80b, 0x2bbe757f)
  {
    Values8();
    UsesFrom8();
    FourFF(Regs(0xfe15f787, 0xda9bbb0d, 0xb71122fc, 0xa811b278), WORDS, 8,
           [8, 9, 10, 11], [0x698098d8, 0x8b44f7af, 0xffff5bb1, 0x895cd7be],
           0xae752899, 0x2bbe757f, 0x7d4bd80b, 0x56cfa5cb);
  }

  lemma Values12()
    ensures FF(0xae752899, 0x56cfa5cb, 0x7d4bd80b, 0x2bbe757f, 0x00000000, 7, 0x6b901122) == 0x1754a316
    ensures FF(0x2bbe757f, 0x1754a316, 0x56cfa5cb, 0x7d4bd80b, 0x00000000, 12, 0xfd987193) == 0x85567d90
    ensures FF(0x7d4bd80b, 0x85567d90, 0x1754a316, 0x56cfa5cb, 0x000000d0, 17, 0xa679438e) == 0x00df74d5
    ensures FF(0x56cfa5cb, 0x00df74d5, 0x85567d90, 0x1754a316, 0x00000000, 22, 0x49b40821) == 0x608d6b7e
  {
  }

  lemma From12()
    ensures Steps(Regs(0xae752899, 0x56cfa5cb, 0x7d4bd80b, 0x2bbe757f), WORDS, Lines(12, 16)) ==
            Regs(0x1754a316, 0x608d6b7e, 0x00df74d5, 0x85567d90)
  {
    Values12();
    UsesFrom12();
    FourFF(Regs(0xae752899, 0x56cfa5cb, 0x7d4bd80b, 0x2bbe757f), WORDS, 12,
           [12, 13, 14, 15], [0x6b901122, 0xfd987193, 0xa679438e, 0x49b40821],
           0x1754a316, 0x85567d90, 0x00df74d5, 0x608d6b7e);
  }

  lemma Values16()
    ensures GG(0x1754a316, 0x608d6b7e, 0x00df74d5, 0x85567d90, 0x68676665, 5, 0xf61e2562) == 0x2d8071cc
    ensures GG(0x85567d90, 0x2d8071cc, 0x608d6b7e, 0x00df74d5, 0x00807a79, 9, 0xc040b340) == 0x5dcee119
    ensures GG(0x00df74d5, 0x5dcee119, 0x2d8071cc, 0x608d6b7e, 0x00000000, 14, 0x265e5a51) == 0xedfe7e4b
    ensures GG(0x608d6b7e, 0xedfe7e4b, 0x5dcee119, 0x2d8071cc, 0x64636261, 20, 0xe9b6c7aa) == 0x4c2145b3
  {
  }

  lemma From16()
    ensures Steps(Regs(0x1754a316, 0x608d6b7e, 0x00df74d5, 0x85567d90), WORDS, Lines(16, 20)) ==
            Regs(0x2d8071cc, 0x4c2145b3, 0xedfe7e4b, 0x5dcee119)
  {
    Values16();
    UsesFrom16();
    FourGG(Regs(0x1754a316, 0x608d6b7e, 0x00df74d5, 0x85567d90), WORDS, 16,
           [1, 6, 11, 0], [0xf61e2562, 0xc040b340, 0x265e5a51, 0xe9b6c7aa],
           0x2d8071cc, 0x5dcee119, 0xedfe7e4b, 0x4c2145b3);
  }

  lemma Values20()
    ensures GG(0x2d8071cc, 0x4c2145b3, 0xedfe7e4b, 0x5dcee119, 0x78777675, 5, 0xd62f105d) == 0x570c43e0
    ensures GG(0x5dcee119, 0x570c43e0, 0x4c2145b3, 0xedfe7e4b, 0x00000000, 9, 0x02441453) == 0x977efd2a
    ensures GG(0xedfe7e4b, 0x977efd2a, 0x570c43e0, 0x4c2145b3, 0x00000000, 14, 0xd8a1e681) == 0xc28ab49d
    ensures GG(0x4c2145b3, 0xc28ab49d, 0x977efd2a, 0x570c43e0, 0x74737271, 20, 0xe7d3fbc8) == 0xc9f162d4
  {
  }

  lemma From20()
    ensures Steps(Regs(0x2d8071cc, 0x4c2145b3, 0xedfe7e4b, 0x5dcee119), WORDS, Lines(20, 24)) ==
            Regs(0x570c43e0, 0xc9f162d4, 0xc28ab49d, 0x977efd2a)
  {
    Values20();
    UsesFrom20();
    FourGG(Regs(0x2d8071cc, 0x4c2145b3, 0xedfe7e4b, 0x5dcee119), WORDS, 20,
           [5, 10, 15, 4], [0xd62f105d, 0x02441453, 0xd8a1e681, 0xe7d3fbc8],
           0x570c43e0, 0x977efd2a, 0xc28ab49d, 0xc9f162d4);
  }

  lemma Values24()
    ensures GG(0x570c43e0, 0xc9f162d4, 0xc28ab49d, 0x977efd2a, 0x00000000, 5, 0x21e1cde6) == 0x25bfae3b
    ensures GG(0x977efd2a, 0x25bfae3b, 0xc9f162d4, 0xc28ab49d, 0x000000d0, 9, 0xc33707d6) == 0x89980104
    ensures GG(0xc28ab49d, 0x89980104, 0x25bfae3b, 0xc9f162d4, 0x706f6e6d, 14, 0xf4d50d87) == 0xf8c8365f
    ensures GG(0xc9f162d4, 0xf8c8365f, 0x89980104, 0x25bfae3b, 0x00000000, 20, 0x455a14ed) == 0xe6d3b398
  {
  }

  lemma From24()
    ensures Steps(Regs(0x570c43e0, 0xc9f162d4, 0xc28ab49d, 0x977efd2a), WORDS, Lines(24, 28)) ==
            Regs(0x25bfae3b, 0xe6d3b398, 0xf8c8365f, 0x89980104)
  {
    Values24();
    UsesFrom24();
    FourGG(Regs(0x570c43e0, 0xc9f162d4, 0xc28ab49d, 0x977efd2a), WORDS, 24,
           [9, 14, 3, 8], [0x21e1cde6, 0xc33707d6, 0xf4d50d87, 0x455a14ed],
           0x25bfae3b, 0x89980104, 0xf8c8365f, 0xe6d3b398);
  }

  lemma Values28()
    ensures GG(0x25bfae3b, 0xe6d3b398, 0xf8c8365f, 0x89980104, 0x00000000, 5, 0xa9e3e905) == 0xf54d8710
    ensures GG(0x89980104, 0xf54d8710, 0xe6d3b398, 0xf8c8365f, 0x6c6b6a69, 9, 0xfcefa3f8) == 0x927b72e2
    ensures GG(0xf8c8365f, 0x927b72e2, 0xf54d8710, 0xe6d3b398, 0x00000000, 14, 0x676f02d9) == 0x2e69afc7
    ensures GG(0xe6d3b398, 0x2e69afc7, 0x927b72e2, 0xf54d8710, 0x00000000, 20, 0x8d2a4c8a) == 0xaeb35766
  {
  }

  lemma From28()
    ensures Steps(Regs(0x25bfae3b, 0xe6d3b398, 0xf8c8365f, 0x89980104), WORDS, Lines(28, 32)) ==
            Regs(0xf54d8710, 0xaeb35766, 0x2e69afc7, 0x927b72e2)
  {
    Values28();
    UsesFrom28();
    FourGG(Regs(0x25bfae3b, 0xe6d3b398, 0xf8c8365f, 0x89980104), WORDS, 28,
           [13, 2, 7, 12], [0xa9e3e905, 0xfcefa3f8, 0x676f02d9, 0x8d2a4c8a],
           0xf54d8710, 0x927b72e2, 0x2e69afc7, 0xaeb35766);
  }

  lemma Values32()
    ensures HH(0xf54d8710, 0xaeb35766, 0x2e69afc7, 0x927b72e2, 0x78777675, 4, 0xfffa3942) == 0xb4bf680e
    ensures HH(0x927b72e2, 0xb4bf680e, 0xaeb35766, 0x2e69afc7, 0x00000000, 11, 0x8771f681) == 0x4c8ffa80
    ensures HH(0x2e69afc7, 0x4c8ffa80, 0xb4bf680e, 0xaeb35766, 0x00000000, 16, 0x6d9d6122) == 0x2361ed0a
    ensures HH(0xaeb35766, 0x2361ed0a, 0x4c8ffa80, 0xb4bf680e, 0x000000d0, 23, 0xfde5380c) == 0x06a5e211
  {
  }

  lemma From32()
    ensures Steps(Regs(0xf54d8710, 0xaeb35766, 0x2e69afc7, 0x927b72e2), WORDS, Lines(32, 36)) ==
            Regs(0xb4bf680e, 0x06a5e211, 0x2361ed0a, 0x4c8ffa80)
  {
    Values32();
    UsesFrom32();
    FourHH(Regs(0xf54d8710, 0xaeb35766, 0x2e69afc7, 0x927b72e2), WORDS, 32,
           [5, 8, 11, 14], [0xfffa3942, 0x8771f681, 0x6d9d6122, 0xfde5380c],
           0xb4bf680e, 0x4c8ffa80, 0x2361ed0a, 0x06a5e211);
  }

  lemma Values36()
    ensures HH(0xb4bf680e, 0x06a5e211, 0x2361ed0a, 0x4c8ffa80, 0x68676665, 4, 0xa4beea44) == 0xb9c0c733
    ensures HH(0x4c8ffa80, 0xb9c0c733, 0x06a5e211, 0x2361ed0a, 0x74737271, 11, 0x4bdecfa9) == 0xf1e6dc7a
    ensures HH(0x2361ed0a, 0xf1e6dc7a, 0xb9c0c733, 0x06a5e211, 0x00000000, 16, 0xf6bb4b60) == 0x23a9451b
    ensures HH(0x06a5e211, 0x23a9451b, 0xf1e6dc7a, 0xb9c0c733, 0x00000000, 23, 0xbebfbc70) == 0x8d41bf99
  {
  }

  lemma From36()
    ensures Steps(Regs(0xb4bf680e, 0x06a5e211, 0x2361ed0a, 0x4c8ffa80), WORDS, Lines(36, 40)) ==
            Regs(0xb9c0c733, 0x8d41bf99, 0x23a9451b, 0xf1e6dc7a)
  {
    Values36();
    UsesFrom36();
    FourHH(Regs(0xb4bf680e, 0x06a5e211, 0x2361ed0a, 0x4c8ffa80), WORDS, 36,
           [1, 4, 7, 10], [0xa4beea44, 0x4bdecfa9, 0xf6bb4b60, 0xbebfbc70],
           0xb9c0c733, 0xf1e6dc7a, 0x23a9451b, 0x8d41bf99);
  }

  lemma Values40()
    ensures HH(0xb9c0c733, 0x8d41bf99, 0x23a9451b, 0xf1e6dc7a, 0x00000000, 4, 0x289b7ec6) == 0xa3e88ead
    ensures HH(0xf1e6dc7a, 0xa3e88ead, 0x8d41bf99, 0x23a9451b, 0x64636261, 11, 0xeaa127fa) == 0x02c0b11c
    ensures HH(0x23a9451b, 0x02c0b11c, 0xa3e88ead, 0x8d41bf99, 0x706f6e6d, 16, 0xd4ef3085) == 0x66f6468d
    ensures HH(0x8d41bf99, 0x66f6468d, 0x02c0b11c, 0xa3e88ead, 0x00807a79, 23, 0x04881d05) == 0x90a35af5
  {
  }

  lemma From40()
    ensures Steps(Regs(0xb9c0c733, 0x8d41bf99, 0x23a9451b, 0xf1e6dc7a), WORDS, Lines(40, 44)) ==
            Regs(0xa3e88ead, 0x90a35af5, 0x66f6468d, 0x02c0b11c)
  {
    Values40();
    UsesFrom40();
    FourHH(Regs(0xb9c0c733, 0x8d41bf99, 0x23a9451b, 0xf1e6dc7a), WORDS, 40,
           [13, 0, 3, 6], [0x289b7ec6, 0xeaa127fa, 0xd4ef3085, 0x04881d05],
           0xa3e88ead, 0x02c0b11c, 0x66f6468d, 0x90a35af5);
  }

  lemma Values44()
    ensures HH(0xa3e88ead, 0x90a35af5, 0x66f6468d, 0x02c0b11c, 0x00000000, 4, 0xd9d4d039) == 0xb5d41f9c
    ensures HH(0x02c0b11c, 0xb5d41f9c, 0x90a35af5, 0x66f6468d, 0x00000000, 11, 0xe6db99e5) == 0xa04b4904
    ensures HH(0x66f6468d, 0xa04b4904, 0xb5d41f9c, 0x90a35af5, 0x00000000, 16, 0x1fa27cf8) == 0x703d54d8
    ensures HH(0x90a35af5, 0x703d54d8, 0xa04b4904, 0xb5d41f9c, 0x6c6b6a69, 23, 0xc4ac5665) == 0x71d10367
  {
  }

  lemma From44()
    ensures Steps(Regs(0xa3e88ead, 0x90a35af5, 0x66f6468d, 0x02c0b11c), WORDS, Lines(44, 48)) ==
            Regs(0xb5d41f9c, 0x71d10367, 0x703d54d8, 0xa04b4904)
  {
    Values44();
    UsesFrom44();
    FourHH(Regs(0xa3e88ead, 0x90a35af5, 0x66f6468d, 0x02c0b11c), WORDS, 44,
           [9, 12, 15, 2], [0xd9d4d039, 0xe6db99e5, 0x1fa27cf8, 0xc4ac5665],
           0xb5d41f9c, 0xa04b4904, 0x703d54d8, 0x71d10367);
  }

  lemma Values48()
    ensures II(0xb5d41f9c, 0x71d10367, 0x703d54d8, 0xa04b4904, 0x64636261, 6, 0xf4292244) == 0xfc32dd6e
    ensures II(0xa04b4904, 0xfc32dd6e, 0x71d10367, 0x703d54d8, 0x00000000, 10, 0x432aff97) == 0x65456b34
    ensures II(0x703d54d8, 0x65456b34, 0xfc32dd6e, 0x71d10367, 0x000000d0, 15, 0xab9423a7) == 0xb35602cb
    ensures II(0x71d10367, 0xb35602cb, 0x65456b34, 0xfc32dd6e, 0x78777675, 21, 0xfc93a039) == 0x33edb197
  {
  }

  lemma From48()
    ensures Steps(Regs(0xb5d41f9c, 0x71d10367, 0x703d54d8, 0xa04b4904), WORDS, Lines(48, 52)) ==
            Regs(0xfc32dd6e, 0x33edb197, 0xb35602cb, 0x65456b34)
  {
    Values48();
    UsesFrom48();
    FourII(Regs(0xb5d41f9c, 0x71d10367, 0x703d54d8, 0xa04b4904), WORDS, 48,
           [0, 7, 14, 5], [0xf4292244, 0x432aff97, 0xab9423a7, 0xfc93a039],
           0xfc32dd6e, 0x65456b34, 0xb35602cb, 0x33edb197);
  }

  lemma Values52()
    ensures II(0xfc32dd6e, 0x33edb197, 0xb35602cb, 0x65456b34, 0x00000000, 6, 0x655b59c3) == 0xc1e942f1
    ensures II(0x65456b34, 0xc1e942f1, 0x33edb197, 0xb35602cb, 0x706f6e6d, 10, 0x8f0ccc92) == 0xd9bb987c
    ensures II(0xb35602cb, 0xd9bb987c, 0xc1e942f1, 0x33edb197, 0x00000000, 15, 0xffeff47d) == 0x23a68048
    ensures II(0x33edb197, 0x23a68048, 0xd9bb987c, 0xc1e942f1, 0x68676665, 21, 0x85845dd1) == 0x83877d1b
  {
  }

  lemma From52()
    ensures Steps(Regs(0xfc32dd6e, 0x33edb197, 0xb35602cb, 0x65456b34), WORDS, Lines(52, 56)) ==
            Regs(0xc1e942f1, 0x83877d1b, 0x23a68048, 0xd9bb987c)
  {
    Values52();
    UsesFrom52();
    FourII(Regs(0xfc32dd6e, 0x33edb197, 0xb35602cb, 0x65456b34), WORDS, 52,
           [12, 3, 10, 1], [0x655b59c3, 0x8f0ccc92, 0xffeff47d, 0x85845dd1],
           0xc1e942f1, 0xd9bb987c, 0x23a68048, 0x83877d1b);
  }

  lemma Values56()
    ensures II(0xc1e942f1, 0x83877d1b, 0x23a68048, 0xd9bb987c, 0x00000000, 6, 0x6fa87e4f) == 0x0077c208
    ensures II(0xd9bb987c, 0x0077c208, 0x83877d1b, 0x23a68048, 0x00000000, 10, 0xfe2ce6e0) == 0x847fc2e7
    ensures II(0x23a68048, 0x847fc2e7, 0x0077c208, 0x83877d1b, 0x00807a79, 15, 0xa3014314) == 0xa3e2247f
    ensures II(0x83877d1b, 0xa3e2247f, 0x847fc2e7, 0x0077c208, 0x00000000, 21, 0x4e0811a1) == 0x5e6bc930
  {
  }

  lemma From56()
    ensures Steps(Regs(0xc1e942f1, 0x83877d1b, 0x23a68048, 0xd9bb987c), WORDS, Lines(56, 60)) ==
            Regs(0x0077c208, 0x5e6bc930, 0xa3e2247f, 0x847fc2e7)
  {
    Values56();
    UsesFrom56();
    FourII(Regs(0xc1e942f1, 0x83877d1b, 0x23a68048, 0xd9bb987c), WORDS, 56,
           [8, 15, 6, 13], [0x6fa87e4f, 0xfe2ce6e0, 0xa3014314, 0x4e0811a1],
           0x0077c208, 0x847fc2e7, 0xa3e2247f, 0x5e6bc930);
  }

  lemma Values60()
    ensures II(0x0077c208, 0x5e6bc930, 0xa3e2247f, 0x847fc2e7, 0x74737271, 6, 0xf7537e82) == 0x708ed9c2
    ensures II(0x847fc2e7, 0x708ed9c2, 0x5e6bc930, 0xa3e2247f, 0x00000000, 10, 0xbd3af235) == 0x2baf1354
    ensures II(0xa3e2247f, 0x2baf1354, 0x708ed9c2, 0x5e6bc930, 0x6c6b6a69, 15, 0x2ad7d2bb) == 0xd38f1e7f
    ensures II(0x5e6bc930, 0xd38f1e7f, 0x2baf1354, 0x708ed9c2, 0x00000000, 21, 0xeb86d391) == 0x1116e6d8
  {
  }

  lemma From60()
    ensures Steps(Regs(0x0077c208, 0x5e6bc930, 0xa3e2247f, 0x847fc2e7), WORDS, Lines(60, 64)) ==
            Regs(0x708ed9c2, 0x1116e6d8, 0xd38f1e7f, 0x2baf1354)
  {
    Values60();
    UsesFrom60();
    FourII(Regs(0x0077c208, 0x5e6bc930, 0xa3e2247f, 0x847fc2e7), WORDS, 60,
           [4, 11, 2, 9], [0xf7537e82, 0xbd3af235, 0x2ad7d2bb, 0xeb86d391],
           0x708ed9c2, 0x2baf1354, 0xd38f1e7f, 0x1116e6d8);
  }

  lemma Round1Is()
    ensures Steps(Regs(0x67452301, 0xefcdab89, 0x98badcfe, 0x10325476), WORDS, Lines(0, 16)) ==
            Regs(0x1754a316, 0x608d6b7e, 0x00df74d5, 0x85567d90)
  {
    var r := Regs(0x67452301, 0xefcdab89, 0x98badcfe, 0x10325476);
    From0();
    From4();
    RangesJoin(r, WORDS, 0, 4, 8);
    From8();
    RangesJoin(r, WORDS, 0, 8, 12);
    From12();
    RangesJoin(r, WORDS, 0, 12, 16);
  }

  lemma Round2Is()
    ensures Steps(Regs(0x1754a316, 0x608d6b7e, 0x00df74d5, 0x85567d90), WORDS, Lines(16, 32)) ==
            Regs(0xf54d8710, 0xaeb35766, 0x2e69afc7, 0x927b72e2)
  {
    var r := Regs(0x1754a316, 0x608d6b7e, 0x00df74d5, 0x85567d90);
    From16();
    From20();
    RangesJoin(r, WORDS, 16, 20, 24);
    From24();
    RangesJoin(r, WORDS, 16, 24, 28);
    From28();
    RangesJoin(r, WORDS, 16, 28, 32);
  }

  lemma Round3Is()
    ensures Steps(Regs(0xf54d8710, 0xaeb35766, 0x2e69afc7, 0x927b72e2), WORDS, Lines(32, 48)) ==
            Regs(0xb5d41f9c, 0x71d10367, 0x703d54d8, 0xa04b4904)
  {
    var r := Regs(0xf54d8710, 0xaeb35766, 0x2e69afc7, 0x927b72e2);
    From32();
    From36();
    RangesJoin(r, WORDS, 32, 36, 40);
    From40();
    RangesJoin(r, WORDS, 32, 40, 44);
    From44();
    RangesJoin(r, WORDS, 32, 44, 48);
  }

  lemma Round4Is()
    ensures Steps(Regs(0xb5d41f9c, 0x71d10367, 0x703d54d8, 0xa04b4904), WORDS, Lines(48, 64)) ==
            Regs(0x708ed9c2, 0x1116e6d8, 0xd38f1e7f, 0x2baf1354)
  {
    var r := Regs(0xb5d41f9c, 0x71d10367, 0x703d54d8, 0xa04b4904);
    From48();
    From52();
    RangesJoin(r, WORDS, 48, 52, 56);
    From56();
    RangesJoin(r, WORDS, 48, 56, 60);
    From60();
    RangesJoin(r, WORDS, 48, 60, 64);
  }

  lemma RoundsAre()
    ensures Steps(INITIAL, WORDS, Lines(0, 64)) == Regs(0x708ed9c2, 0x1116e6d8, 0xd38f1e7f, 0x2baf1354)
  {
    Round1Is();
    Round2Is();
    RangesJoin(INITIAL, WORDS, 0, 16, 32);
    Round3Is();
    RangesJoin(INITIAL, WORDS, 0, 32, 48);
    Round4Is();
    RangesJoin(INITIAL, WORDS, 0, 48, 64);
  }

  // ---------------------------------------------------------------- the bytes around them

  lemma EncodeMore(ws: seq<Word>, w: Word, more: seq<Word>)
    requires more == ws + [w]
    ensures Encode(more) == Encode(ws) + EncodeWord(w)
  {
    assert more[..|ws|] == ws;
  }

  lemma EncodeTwoMore(ws: seq<Word>, a: Word, b: Word, more: seq<Word>)
    requires more == ws + [a, b]
    ensures Encode(more) == Encode(ws) + (EncodeWord(a) + EncodeWord(b))
  {
    EncodeMore(ws, a, ws + [a]);
    EncodeMore(ws + [a], b, more);
  }

  lemma EncodeFour(ws: seq<Word>, a: Word, b: Word, c: Word, d: Word, bytes: seq<Octet>)
    requires bytes == EncodeWord(a) + EncodeWord(b) + EncodeWord(c) + EncodeWord(d)
    ensures Encode(ws + [a, b, c, d]) == Encode(ws) + bytes
  {
    EncodeTwoMore(ws, a, b, ws + [a, b]);
    EncodeTwoMore(ws + [a, b], c, d, ws + [a, b, c, d]);
    Reassociate(Encode(ws), EncodeWord(a), EncodeWord(b), EncodeWord(c), EncodeWord(d));
  }

  lemma Reassociate(s: seq<Octet>, a: seq<Octet>, b: seq<Octet>, c: seq<Octet>, d: seq<Octet>)
    ensures (s + (a + b)) + (c + d) == s + (a + b + c + d)
  {
  }

  lemma Bytes0()
    ensures EncodeWord(0x64636261) + EncodeWord(0x68676665) + EncodeWord(0x6c6b6a69) + EncodeWord(0x706f6e6d) ==
            [0x61, 0x62, 0x63, 0x64, 0x65, 0x66, 0x67, 0x68, 0x69, 0x6a, 0x6b, 0x6c, 0x6d, 0x6e, 0x6f, 0x70]
  {
  }

  lemma Bytes16()
    ensures EncodeWord(0x74737271) + EncodeWord(0x78777675) + EncodeWord(0x00807a79) + EncodeWord(0x00000000) ==
            [0x71, 0x72, 0x73, 0x74, 0x75, 0x76, 0x77, 0x78, 0x79, 0x7a, 0x80, 0x00, 0x00, 0x00, 0x00, 0x00]
  {
  }

  lemma Bytes32()
    ensures EncodeWord(0x00000000) + EncodeWord(0x00000000) + EncodeWord(0x00000000) + EncodeWord(0x00000000) ==
            [0x00, 0x00, 0x00, 0x00, 0x00, 0x00, 0x00, 0x00, 0x00, 0x00, 0x00, 0x00, 0x00, 0x00, 0x00, 0x00]
  {
  }

  lemma Bytes48()
    ensures EncodeWord(0x00000000) + EncodeWord(0x00000000) + EncodeWord(0x000000d0) + EncodeWord(0x00000000) ==
            [0x00, 0x00, 0x00, 0x00, 0x00, 0x00, 0x00, 0x00, 0xd0, 0x00, 0x00, 0x00, 0x00, 0x00, 0x00, 0x00]
  {
  }

  lemma BytesOut()
    ensures EncodeWord(0xd7d3fcc3) + EncodeWord(0x00e49261) + EncodeWord(0x6c49fb7d) + EncodeWord(0x3be167ca) ==
            DIGEST
  {
  }

  lemma DigestBytes()
    ensures EncodeRegs(Regs(0xd7d3fcc3, 0x00e49261, 0x6c49fb7d, 0x3be167ca)) == DIGEST
  {
    BytesOut();
    EncodeFour([], 0xd7d3fcc3, 0x00e49261, 0x6c49fb7d, 0x3be167ca, DIGEST);
    var ws: seq<Word> := [0xd7d3fcc3, 0x00e49261, 0x6c49fb7d, 0x3be167ca];
    assert [] + ws == ws && Encode(ws) == DIGEST;
  }

  lemma Quarter0()
    ensures Encode(WORDS[..4]) == Encode(WORDS[..0]) +
            [0x61, 0x62, 0x63, 0x64, 0x65, 0x66, 0x67, 0x68, 0x69, 0x6a, 0x6b, 0x6c, 0x6d, 0x6e, 0x6f, 0x70]
  {
    Bytes0();
    EncodeFour(WORDS[..0], 0x64636261, 0x68676665, 0x6c6b6a69, 0x706f6e6d,
               [0x61, 0x62, 0x63, 0x64, 0x65, 0x66, 0x67, 0x68, 0x69, 0x6a, 0x6b, 0x6c, 0x6d, 0x6e, 0x6f, 0x70]);
    assert WORDS[..4] == WORDS[..0] + [0x64636261, 0x68676665, 0x6c6b6a69, 0x706f6e6d];
  }

  lemma Quarter1()
    ensures Encode(WORDS[..8]) == Encode(WORDS[..4]) +
            [0x71, 0x72, 0x73, 0x74, 0x75, 0x76, 0x77, 0x78, 0x79, 0x7a, 0x80, 0x00, 0x00, 0x00, 0x00, 0x00]
  {
    Bytes16();
    EncodeFour(WORDS[..4], 0x74737271, 0x78777675, 0x00807a79, 0x00000000,
               [0x71, 0x72, 0x73, 0x74, 0x75, 0x76, 0x77, 0x78, 0x79, 0x7a, 0x80, 0x00, 0x00, 0x00, 0x00, 0x00]);
    assert WORDS[..8] == WORDS[..4] + [0x74737271, 0x78777675, 0x00807a79, 0x00000000];
  }

  lemma Quarter2()
    ensures Encode(WORDS[..12]) == Encode(WORDS[..8]) +
            [0x00, 0x00, 0x00, 0x00, 0x00, 0x00, 0x00, 0x00, 0x00, 0x00, 0x00, 0x00, 0x00, 0x00, 0x00, 0x00]
  {
    Bytes32();
    EncodeFour(WORDS[..8], 0x00000000, 0x00000000, 0x00000000, 0x00000000,
               [0x00, 0x00, 0x00, 0x00, 0x00, 0x00, 0x00, 0x00, 0x00, 0x00, 0x00, 0x00, 0x00, 0x00, 0x00, 0x00]);
    assert WORDS[..12] == WORDS[..8] + [0x00000000, 0x00000000, 0x00000000, 0x00000000];
  }

  lemma Quarter3()
    ensures Encode(WORDS[..16]) == Encode(WORDS[..12]) +
            [0x00, 0x00, 0x00, 0x00, 0x00, 0x00, 0x00, 0x00, 0xd0, 0x00, 0x00, 0x00, 0x00, 0x00, 0x00, 0x00]
  {
    Bytes48();
    EncodeFour(WORDS[..12], 0x00000000, 0x00000000, 0x000000d0, 0x00000000,
               [0x00, 0x00, 0x00, 0x00, 0x00, 0x00, 0x00, 0x00, 0xd0, 0x00, 0x00, 0x00, 0x00, 0x00, 0x00, 0x00]);
    assert WORDS[..16] == WORDS[..12] + [0x00000000, 0x00000000, 0x000000d0, 0x00000000];
  }

  lemma EncodeTwo(a: Word, b: Word)
    ensures Encode([a, b]) == EncodeWord(a) + EncodeWord(b)
  {
    EncodeTwoMore([], a, b, [a, b]);
  }

  lemma LengthWords(n: nat, bits: nat)
    requires n == 26 && bits == (8 * n) % TWO64
    ensures bits == 208 && (bits % TWO32) as Word == 0xd0 && (bits / TWO32) as Word == 0
  {
  }

  lemma LengthIs(n: nat)
    requires n == 26
    ensures LengthBytes(n) == [0xd0, 0, 0, 0, 0, 0, 0, 0]
  {
    LengthWords(n, (8 * n) % TWO64);
    EncodeTwo(0xd0, 0);
    assert EncodeWord(0xd0) == [0xd0, 0, 0, 0] && EncodeWord(0) == [0, 0, 0, 0];
  }

  lemma PaddingIs(n: nat)
    requires n == 26
    ensures Padding(n) == [0x80] + Zeros(29)
  {
  }

  lemma FourQuarters(p: seq<Octet>, q: seq<Octet>, r: seq<Octet>, s: seq<Octet>)
    requires p == ALPHABET[..16] && q == ALPHABET[16..] + [0x80, 0, 0, 0, 0, 0] && r == Zeros(16)
    requires s == Zeros(8) + [0xd0, 0, 0, 0, 0, 0, 0, 0]
    ensures p + q + r + s == ALPHABET + ([0x80] + Zeros(29)) + [0xd0, 0, 0, 0, 0, 0, 0, 0]
  {
  }

  lemma WordsAre()
    ensures Encode(WORDS) == ALPHABET + ([0x80] + Zeros(29)) + [0xd0, 0, 0, 0, 0, 0, 0, 0]
  {
    Quarter0();
    Quarter1();
    Quarter2();
    Quarter3();
    assert WORDS[..0] == [] && WORDS[..16] == WORDS && Encode([]) == [];
    FourQuarters([0x61, 0x62, 0x63, 0x64, 0x65, 0x66, 0x67, 0x68, 0x69, 0x6a, 0x6b, 0x6c, 0x6d, 0x6e, 0x6f, 0x70],
                 [0x71, 0x72, 0x73, 0x74, 0x75, 0x76, 0x77, 0x78, 0x79, 0x7a, 0x80, 0x00, 0x00, 0x00, 0x00, 0x00],
                 [0x00, 0x00, 0x00, 0x00, 0x00, 0x00, 0x00, 0x00, 0x00, 0x00, 0x00, 0x00, 0x00, 0x00, 0x00, 0x00],
                 [0x00, 0x00, 0x00, 0x00, 0x00, 0x00, 0x00, 0x00, 0xd0, 0x00, 0x00, 0x00, 0x00, 0x00, 0x00, 0x00]);
  }

  lemma PaddedIs()
    ensures Padded(ALPHABET) == Encode(WORDS)
  {
    WordsAre();
    PaddingIs(|ALPHABET|);
    LengthIs(|ALPHABET|);
  }

  /** `MD5("abcdefghijklmnopqrstuvwxyz") = c3fcd3d76192e4007dfb496cca67e13b` */
  lemma AlphabetDigest()
    ensures Digest(ALPHABET) == DIGEST
  {
    var block := Padded(ALPHABET);
    PaddedIs();
    DecodeInvertsEncode(WORDS);
    RoundsAre();
    AbsorbBlock(Compress, INITIAL, [], block);
    assert [] + block == block;
    DigestBytes();
  }
}
