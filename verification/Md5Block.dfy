/** The compression function of MD5: four rounds of sixteen steps over a block of sixteen words. */
module Md5Block {
  type Word = bv32
  type Octet = bv8
  type Block = b: seq<Octet> | |b| == 64 witness seq(64, _ => 0)

  /** How far a word is rotated. */
  type Places = bv6

  datatype Regs = Regs(a: Word, b: Word, c: Word, d: Word)

  // ---------------------------------------------------------------- the macros

  function F(x: Word, y: Word, z: Word): Word {
    (x & y) | (!x & z)
  }

  function G(x: Word, y: Word, z: Word): Word {
    (x & z) | (y & !z)
  }

  function H(x: Word, y: Word, z: Word): Word {
    x ^ y ^ z
  }

  function I(x: Word, y: Word, z: Word): Word {
    y ^ (x | !z)
  }

  function RotateLeft(x: Word, n: Places): Word
    requires n <= 32
  {
    (x << n) | (x >> (32 - n))
  }

  // What the macros compute, bit by bit: `m` selects the bits in which one word is all ones or all zeros.

  /** Where `x` has ones `F` takes `y`, elsewhere `z`. */
  lemma FSelects(x: Word, y: Word, z: Word, m: Word)
    ensures x & m == m ==> F(x, y, z) & m == y & m
    ensures x & m == 0 ==> F(x, y, z) & m == z & m
  {
  }

  /** Where `z` has ones `G` takes `x`, elsewhere `y`. */
  lemma GSelects(x: Word, y: Word, z: Word, m: Word)
    ensures z & m == m ==> G(x, y, z) & m == x & m
    ensures z & m == 0 ==> G(x, y, z) & m == y & m
  {
  }

  /** Where `x` and `y` agree `H` takes `z`, elsewhere `z` turned over. */
  lemma HIsParity(x: Word, y: Word, z: Word, m: Word)
    ensures x & m == y & m ==> H(x, y, z) & m == z & m
    ensures x & m == !y & m ==> H(x, y, z) & m == !z & m
  {
  }

  /** Where `z` has zeros, or `x` has ones, `I` is `y` turned over; elsewhere it is `y`. */
  lemma ITurnsOver(x: Word, y: Word, z: Word, m: Word)
    ensures x & m == m || z & m == 0 ==> I(x, y, z) & m == !y & m
    ensures x & m == 0 && z & m == m ==> I(x, y, z) & m == y & m
  {
  }

  predicate Bit(w: Word, i: bv6)
    requires i < 32
  {
    (w >> i) & 1 == 1
  }

  lemma RotateFew(x: Word, n: Places, i: bv6)
    requires n < 8 && i < 32
    ensures Bit(RotateLeft(x, n), (i + n) & 31) <==> Bit(x, i)
  {
  }

  lemma RotateSome(x: Word, n: Places, i: bv6)
    requires 8 <= n < 16 && i < 32
    ensures Bit(RotateLeft(x, n), (i + n) & 31) <==> Bit(x, i)
  {
  }

  lemma RotateMore(x: Word, n: Places, i: bv6)
    requires 16 <= n < 24 && i < 32
    ensures Bit(RotateLeft(x, n), (i + n) & 31) <==> Bit(x, i)
  {
  }

  lemma RotateMany(x: Word, n: Places, i: bv6)
    requires 24 <= n < 32 && i < 32
    ensures Bit(RotateLeft(x, n), (i + n) & 31) <==> Bit(x, i)
  {
  }

  /** Rotation by `n` places moves bit `i` to bit `(i + n) mod 32`. */
  lemma RotateMovesBit(x: Word, n: Places, i: bv6)
    requires n <= 32 && i < 32
    ensures Bit(RotateLeft(x, n), (i + n) & 31) <==> Bit(x, i)
  {
    if n < 8 {
      RotateFew(x, n, i);
    } else if n < 16 {
      RotateSome(x, n, i);
    } else if n < 24 {
      RotateMore(x, n, i);
    } else if n < 32 {
      RotateMany(x, n, i);
    } else {
      assert RotateLeft(x, n) == x && (i + n) & 31 == i;
    }
  }

  function FF(a: Word, b: Word, c: Word, d: Word, x: Word, s: Places, ac: Word): Word
    requires s <= 32
  {
    RotateLeft(a + (F(b, c, d) + x + ac), s) + b
  }

  function GG(a: Word, b: Word, c: Word, d: Word, x: Word, s: Places, ac: Word): Word
    requires s <= 32
  {
    RotateLeft(a + (G(b, c, d) + x + ac), s) + b
  }

  function HH(a: Word, b: Word, c: Word, d: Word, x: Word, s: Places, ac: Word): Word
    requires s <= 32
  {
    RotateLeft(a + (H(b, c, d) + x + ac), s) + b
  }

  function II(a: Word, b: Word, c: Word, d: Word, x: Word, s: Places, ac: Word): Word
    requires s <= 32
  {
    RotateLeft(a + (I(b, c, d) + x + ac), s) + b
  }

  // ---------------------------------------------------------------- the steps as section 3.4 of RFC 1321 gives them

  /** A step: its round, the block word `k`, the shift `s` and the table element `ac`. */
  datatype LineData = LineData(round: nat, k: nat, s: Places, ac: Word)

  type Line = l: LineData | l.round < 4 && l.k < 16 && l.s <= 32 witness LineData(0, 0, 0, 0)

  /** `a = b + ((a + f(b, c, d) + X[k] + T[i]) <<< s)`, after which the registers change places. */
  function Step(r: Regs, x: seq<Word>, l: Line): Regs
    requires |x| == 16
  {
    var b := match l.round
             case 0 => FF(r.a, r.b, r.c, r.d, x[l.k], l.s, l.ac)
             case 1 => GG(r.a, r.b, r.c, r.d, x[l.k], l.s, l.ac)
             case 2 => HH(r.a, r.b, r.c, r.d, x[l.k], l.s, l.ac)
             case _ => II(r.a, r.b, r.c, r.d, x[l.k], l.s, l.ac);
    Regs(r.d, b, r.b, r.c)
  }

  function WordIndex(i: nat): (k: nat)
    ensures k < 16
  {
    match i / 16
    case 0 => i % 16
    case 1 => (5 * i + 1) % 16
    case 2 => (3 * i + 5) % 16
    case _ => (7 * i) % 16
  }

  function Shift(i: nat): (s: Places)
    ensures s <= 32
  {
    match i / 16
    case 0 => [7, 12, 17, 22][i % 4]
    case 1 => [5, 9, 14, 20][i % 4]
    case 2 => [4, 11, 16, 23][i % 4]
    case _ => [6, 10, 15, 21][i % 4]
  }

  // The table of sine values, by round.

  function Sines1(i: nat): Word {
    match i
    case 0 => 0xd76aa478 case 1 => 0xe8c7b756 case 2 => 0x242070db case 3 => 0xc1bdceee
    case 4 => 0xf57c0faf case 5 => 0x4787c62a case 6 => 0xa8304613 case 7 => 0xfd469501
    case 8 => 0x698098d8 case 9 => 0x8b44f7af case 10 => 0xffff5bb1 case 11 => 0x895cd7be
    case 12 => 0x6b901122 case 13 => 0xfd987193 case 14 => 0xa679438e case _ => 0x49b40821
  }

  function Sines2(i: nat): Word {
    match i
    case 16 => 0xf61e2562 case 17 => 0xc040b340 case 18 => 0x265e5a51 case 19 => 0xe9b6c7aa
    case 20 => 0xd62f105d case 21 => 0x02441453 case 22 => 0xd8a1e681 case 23 => 0xe7d3fbc8
    case 24 => 0x21e1cde6 case 25 => 0xc33707d6 case 26 => 0xf4d50d87 case 27 => 0x455a14ed
    case 28 => 0xa9e3e905 case 29 => 0xfcefa3f8 case 30 => 0x676f02d9 case _ => 0x8d2a4c8a
  }

  function Sines3(i: nat): Word {
    match i
    case 32 => 0xfffa3942 case 33 => 0x8771f681 case 34 => 0x6d9d6122 case 35 => 0xfde5380c
    case 36 => 0xa4beea44 case 37 => 0x4bdecfa9 case 38 => 0xf6bb4b60 case 39 => 0xbebfbc70
    case 40 => 0x289b7ec6 case 41 => 0xeaa127fa case 42 => 0xd4ef3085 case 43 => 0x04881d05
    case 44 => 0xd9d4d039 case 45 => 0xe6db99e5 case 46 => 0x1fa27cf8 case _ => 0xc4ac5665
  }

  function Sines4(i: nat): Word {
    match i
    case 48 => 0xf4292244 case 49 => 0x432aff97 case 50 => 0xab9423a7 case 51 => 0xfc93a039
    case 52 => 0x655b59c3 case 53 => 0x8f0ccc92 case 54 => 0xffeff47d case 55 => 0x85845dd1
    case 56 => 0x6fa87e4f case 57 => 0xfe2ce6e0 case 58 => 0xa3014314 case 59 => 0x4e0811a1
    case 60 => 0xf7537e82 case 61 => 0xbd3af235 case 62 => 0x2ad7d2bb case _ => 0xeb86d391
  }

  function T(i: nat): Word {
    match i / 16
    case 0 => Sines1(i)
    case 1 => Sines2(i)
    case 2 => Sines3(i)
    case _ => Sines4(i)
  }

  function LineOf(i: nat): Line {
    LineData((i / 16) % 4, WordIndex(i), Shift(i), T(i))
  }

  function Range<L>(f: nat -> L, from: nat, to: nat): (s: seq<L>)
    requires from <= to
    ensures |s| == to - from
  {
    seq(to - from, i requires 0 <= i < to - from => f(from + i))
  }

  /** The steps number `from`, ..., `to - 1`. */
  function Lines(from: nat, to: nat): (ls: seq<Line>)
    requires from <= to
    ensures |ls| == to - from
  {
    Range(LineOf, from, to)
  }

  function Steps(r: Regs, x: seq<Word>, ls: seq<Line>): Regs
    requires |x| == 16
    decreases |ls|
  {
    if ls == [] then r else Steps(Step(r, x, ls[0]), x, ls[1..])
  }

  lemma StepsUnfold(r: Regs, x: seq<Word>, ls: seq<Line>, next: Regs)
    requires |x| == 16 && ls != [] && next == Step(r, x, ls[0])
    ensures Steps(r, x, ls) == Steps(next, x, ls[1..])
  {
  }

  lemma {:induction false} StepsJoin(r: Regs, x: seq<Word>, p: seq<Line>, q: seq<Line>)
    requires |x| == 16
    ensures Steps(Steps(r, x, p), x, q) == Steps(r, x, p + q)
    decreases |p|
  {
    if p == [] {
      assert p + q == q;
    } else {
      var next := Step(r, x, p[0]);
      StepsJoin(next, x, p[1..], q);
      assert (p + q)[1..] == p[1..] + q;
      StepsUnfold(r, x, p, next);
      StepsUnfold(r, x, p + q, next);
    }
  }

  lemma RangeJoin<L>(f: nat -> L, i: nat, j: nat, k: nat)
    requires i <= j <= k
    ensures Range(f, i, j) + Range(f, j, k) == Range(f, i, k)
  {
  }

  lemma RangeOfFour<L>(f: nat -> L, from: nat)
    ensures Range(f, from, from + 4) == [f(from), f(from + 1), f(from + 2), f(from + 3)]
  {
  }

  lemma RangesJoin(r: Regs, x: seq<Word>, i: nat, j: nat, k: nat)
    requires |x| == 16 && i <= j <= k
    ensures Steps(Steps(r, x, Lines(i, j)), x, Lines(j, k)) == Steps(r, x, Lines(i, k))
  {
    StepsJoin(r, x, Lines(i, j), Lines(j, k));
    RangeJoin(LineOf, i, j, k);
  }

  lemma OneStep(r: Regs, x: seq<Word>, l: Line, ls: seq<Line>)
    requires |x| == 16
    ensures Steps(r, x, [l] + ls) == Steps(Step(r, x, l), x, ls)
  {
    assert ([l] + ls)[1..] == ls;
  }

  lemma FourSteps(r: Regs, x: seq<Word>, l0: Line, l1: Line, l2: Line, l3: Line)
    requires |x| == 16
    ensures Steps(r, x, [l0, l1, l2, l3]) == Step(Step(Step(Step(r, x, l0), x, l1), x, l2), x, l3)
  {
    var r1 := Step(r, x, l0);
    var r2 := Step(r1, x, l1);
    var r3 := Step(r2, x, l2);
    OneStep(r, x, l0, [l1, l2, l3]);
    OneStep(r1, x, l1, [l2, l3]);
    OneStep(r2, x, l2, [l3]);
    OneStep(r3, x, l3, []);
    assert [l0] + [l1, l2, l3] == [l0, l1, l2, l3];
    assert [l1] + [l2, l3] == [l1, l2, l3];
    assert [l2] + [l3] == [l2, l3];
    assert [l3] + [] == [l3];
  }

  // ---------------------------------------------------------------- the steps as the macros spell them out

  lemma StepsFrom(r: Regs, x: seq<Word>, from: nat)
    requires |x| == 16
    ensures Steps(r, x, Lines(from, from + 4)) ==
            Step(Step(Step(Step(r, x, LineOf(from)), x, LineOf(from + 1)), x, LineOf(from + 2)), x, LineOf(from + 3))
  {
    RangeOfFour(LineOf, from);
    FourSteps(r, x, LineOf(from), LineOf(from + 1), LineOf(from + 2), LineOf(from + 3));
  }

  /** The four steps from `from` on use the words `k` and the table elements `t`, with the shifts of the round. */
  ghost predicate Uses(from: nat, round: nat, k: seq<nat>, s: seq<Places>, t: seq<Word>)
    requires |k| == |s| == |t| == 4
  {
    && LineOf(from) == LineData(round, k[0], s[0], t[0])
    && LineOf(from + 1) == LineData(round, k[1], s[1], t[1])
    && LineOf(from + 2) == LineData(round, k[2], s[2], t[2])
    && LineOf(from + 3) == LineData(round, k[3], s[3], t[3])
  }

  /** Four lines of round 1, which bring the registers back to their places. */
  method FourFF(r: Regs, x: seq<Word>, k: seq<nat>, t: seq<Word>, ghost from: nat) returns (r': Regs)
    requires |x| == 16 && |k| == |t| == 4
    requires Uses(from, 0, k, [7, 12, 17, 22], t)
    ensures r' == Steps(r, x, Lines(from, from + 4))
  {
    StepsFrom(r, x, from);
    var Regs(a, b, c, d) := r;
    a := FF(a, b, c, d, x[k[0]], 7, t[0]);
    d := FF(d, a, b, c, x[k[1]], 12, t[1]);
    c := FF(c, d, a, b, x[k[2]], 17, t[2]);
    b := FF(b, c, d, a, x[k[3]], 22, t[3]);
    r' := Regs(a, b, c, d);
  }

  /** Four lines of round 2, which bring the registers back to their places. */
  method FourGG(r: Regs, x: seq<Word>, k: seq<nat>, t: seq<Word>, ghost from: nat) returns (r': Regs)
    requires |x| == 16 && |k| == |t| == 4
    requires Uses(from, 1, k, [5, 9, 14, 20], t)
    ensures r' == Steps(r, x, Lines(from, from + 4))
  {
    StepsFrom(r, x, from);
    var Regs(a, b, c, d) := r;
    a := GG(a, b, c, d, x[k[0]], 5, t[0]);
    d := GG(d, a, b, c, x[k[1]], 9, t[1]);
    c := GG(c, d, a, b, x[k[2]], 14, t[2]);
    b := GG(b, c, d, a, x[k[3]], 20, t[3]);
    r' := Regs(a, b, c, d);
  }

  /** Four lines of round 3, which bring the registers back to their places. */
  method FourHH(r: Regs, x: seq<Word>, k: seq<nat>, t: seq<Word>, ghost from: nat) returns (r': Regs)
    requires |x| == 16 && |k| == |t| == 4
    requires Uses(from, 2, k, [4, 11, 16, 23], t)
    ensures r' == Steps(r, x, Lines(from, from + 4))
  {
    StepsFrom(r, x, from);
    var Regs(a, b, c, d) := r;
    a := HH(a, b, c, d, x[k[0]], 4, t[0]);
    d := HH(d, a, b, c, x[k[1]], 11, t[1]);
    c := HH(c, d, a, b, x[k[2]], 16, t[2]);
    b := HH(b, c, d, a, x[k[3]], 23, t[3]);
    r' := Regs(a, b, c, d);
  }

  /** Four lines of round 4, which bring the registers back to their places. */
  method FourII(r: Regs, x: seq<Word>, k: seq<nat>, t: seq<Word>, ghost from: nat) returns (r': Regs)
    requires |x| == 16 && |k| == |t| == 4
    requires Uses(from, 3, k, [6, 10, 15, 21], t)
    ensures r' == Steps(r, x, Lines(from, from + 4))
  {
    StepsFrom(r, x, from);
    var Regs(a, b, c, d) := r;
    a := II(a, b, c, d, x[k[0]], 6, t[0]);
    d := II(d, a, b, c, x[k[1]], 10, t[1]);
    c := II(c, d, a, b, x[k[2]], 15, t[2]);
    b := II(b, c, d, a, x[k[3]], 21, t[3]);
    r' := Regs(a, b, c, d);
  }

  lemma UsesFrom0()
    ensures Uses(0, 0, [0, 1, 2, 3], [7, 12, 17, 22], [0xd76aa478, 0xe8c7b756, 0x242070db, 0xc1bdceee])
  {
  }

  lemma UsesFrom4()
    ensures Uses(4, 0, [4, 5, 6, 7], [7, 12, 17, 22], [0xf57c0faf, 0x4787c62a, 0xa8304613, 0xfd469501])
  {
  }

  lemma UsesFrom8()
    ensures Uses(8, 0, [8, 9, 10, 11], [7, 12, 17, 22], [0x698098d8, 0x8b44f7af, 0xffff5bb1, 0x895cd7be])
  {
  }

  lemma UsesFrom12()
    ensures Uses(12, 0, [12, 13, 14, 15], [7, 12, 17, 22], [0x6b901122, 0xfd987193, 0xa679438e, 0x49b40821])
  {
  }

  lemma UsesFrom16()
    ensures Uses(16, 1, [1, 6, 11, 0], [5, 9, 14, 20], [0xf61e2562, 0xc040b340, 0x265e5a51, 0xe9b6c7aa])
  {
  }

  lemma UsesFrom20()
    ensures Uses(20, 1, [5, 10, 15, 4], [5, 9, 14, 20], [0xd62f105d, 0x02441453, 0xd8a1e681, 0xe7d3fbc8])
  {
  }

  lemma UsesFrom24()
    ensures Uses(24, 1, [9, 14, 3, 8], [5, 9, 14, 20], [0x21e1cde6, 0xc33707d6, 0xf4d50d87, 0x455a14ed])
  {
  }

  lemma UsesFrom28()
    ensures Uses(28, 1, [13, 2, 7, 12], [5, 9, 14, 20], [0xa9e3e905, 0xfcefa3f8, 0x676f02d9, 0x8d2a4c8a])
  {
  }

  lemma UsesFrom32()
    ensures Uses(32, 2, [5, 8, 11, 14], [4, 11, 16, 23], [0xfffa3942, 0x8771f681, 0x6d9d6122, 0xfde5380c])
  {
  }

  lemma UsesFrom36()
    ensures Uses(36, 2, [1, 4, 7, 10], [4, 11, 16, 23], [0xa4beea44, 0x4bdecfa9, 0xf6bb4b60, 0xbebfbc70])
  {
  }

  lemma UsesFrom40()
    ensures Uses(40, 2, [13, 0, 3, 6], [4, 11, 16, 23], [0x289b7ec6, 0xeaa127fa, 0xd4ef3085, 0x04881d05])
  {
  }

  lemma UsesFrom44()
    ensures Uses(44, 2, [9, 12, 15, 2], [4, 11, 16, 23], [0xd9d4d039, 0xe6db99e5, 0x1fa27cf8, 0xc4ac5665])
  {
  }

  lemma UsesFrom48()
    ensures Uses(48, 3, [0, 7, 14, 5], [6, 10, 15, 21], [0xf4292244, 0x432aff97, 0xab9423a7, 0xfc93a039])
  {
  }

  lemma UsesFrom52()
    ensures Uses(52, 3, [12, 3, 10, 1], [6, 10, 15, 21], [0x655b59c3, 0x8f0ccc92, 0xffeff47d, 0x85845dd1])
  {
  }

  lemma UsesFrom56()
    ensures Uses(56, 3, [8, 15, 6, 13], [6, 10, 15, 21], [0x6fa87e4f, 0xfe2ce6e0, 0xa3014314, 0x4e0811a1])
  {
  }

  lemma UsesFrom60()
    ensures Uses(60, 3, [4, 11, 2, 9], [6, 10, 15, 21], [0xf7537e82, 0xbd3af235, 0x2ad7d2bb, 0xeb86d391])
  {
  }

  method Round1(r: Regs, x: seq<Word>) returns (r': Regs)
    requires |x| == 16
    ensures r' == Steps(r, x, Lines(0, 16))
  {
    UsesFrom0();
    r' := FourFF(r, x, [0, 1, 2, 3], [0xd76aa478, 0xe8c7b756, 0x242070db, 0xc1bdceee], 0);
    UsesFrom4();
    r' := FourFF(r', x, [4, 5, 6, 7], [0xf57c0faf, 0x4787c62a, 0xa8304613, 0xfd469501], 4);
    RangesJoin(r, x, 0, 4, 8);
    UsesFrom8();
    r' := FourFF(r', x, [8, 9, 10, 11], [0x698098d8, 0x8b44f7af, 0xffff5bb1, 0x895cd7be], 8);
    RangesJoin(r, x, 0, 8, 12);
    UsesFrom12();
    r' := FourFF(r', x, [12, 13, 14, 15], [0x6b901122, 0xfd987193, 0xa679438e, 0x49b40821], 12);
    RangesJoin(r, x, 0, 12, 16);
  }

  method Round2(r: Regs, x: seq<Word>) returns (r': Regs)
    requires |x| == 16
    ensures r' == Steps(r, x, Lines(16, 32))
  {
    UsesFrom16();
    r' := FourGG(r, x, [1, 6, 11, 0], [0xf61e2562, 0xc040b340, 0x265e5a51, 0xe9b6c7aa], 16);
    UsesFrom20();
    r' := FourGG(r', x, [5, 10, 15, 4], [0xd62f105d, 0x02441453, 0xd8a1e681, 0xe7d3fbc8], 20);
    RangesJoin(r, x, 16, 20, 24);
    UsesFrom24();
    r' := FourGG(r', x, [9, 14, 3, 8], [0x21e1cde6, 0xc33707d6, 0xf4d50d87, 0x455a14ed], 24);
    RangesJoin(r, x, 16, 24, 28);
    UsesFrom28();
    r' := FourGG(r', x, [13, 2, 7, 12], [0xa9e3e905, 0xfcefa3f8, 0x676f02d9, 0x8d2a4c8a], 28);
    RangesJoin(r, x, 16, 28, 32);
  }

  method Round3(r: Regs, x: seq<Word>) returns (r': Regs)
    requires |x| == 16
    ensures r' == Steps(r, x, Lines(32, 48))
  {
    UsesFrom32();
    r' := FourHH(r, x, [5, 8, 11, 14], [0xfffa3942, 0x8771f681, 0x6d9d6122, 0xfde5380c], 32);
    UsesFrom36();
    r' := FourHH(r', x, [1, 4, 7, 10], [0xa4beea44, 0x4bdecfa9, 0xf6bb4b60, 0xbebfbc70], 36);
    RangesJoin(r, x, 32, 36, 40);
    UsesFrom40();
    r' := FourHH(r', x, [13, 0, 3, 6], [0x289b7ec6, 0xeaa127fa, 0xd4ef3085, 0x04881d05], 40);
    RangesJoin(r, x, 32, 40, 44);
    UsesFrom44();
    r' := FourHH(r', x, [9, 12, 15, 2], [0xd9d4d039, 0xe6db99e5, 0x1fa27cf8, 0xc4ac5665], 44);
    RangesJoin(r, x, 32, 44, 48);
  }

  method Round4(r: Regs, x: seq<Word>) returns (r': Regs)
    requires |x| == 16
    ensures r' == Steps(r, x, Lines(48, 64))
  {
    UsesFrom48();
    r' := FourII(r, x, [0, 7, 14, 5], [0xf4292244, 0x432aff97, 0xab9423a7, 0xfc93a039], 48);
    UsesFrom52();
    r' := FourII(r', x, [12, 3, 10, 1], [0x655b59c3, 0x8f0ccc92, 0xffeff47d, 0x85845dd1], 52);
    RangesJoin(r, x, 48, 52, 56);
    UsesFrom56();
    r' := FourII(r', x, [8, 15, 6, 13], [0x6fa87e4f, 0xfe2ce6e0, 0xa3014314, 0x4e0811a1], 56);
    RangesJoin(r, x, 48, 56, 60);
    UsesFrom60();
    r' := FourII(r', x, [4, 11, 2, 9], [0xf7537e82, 0xbd3af235, 0x2ad7d2bb, 0xeb86d391], 60);
    RangesJoin(r, x, 48, 60, 64);
  }

  // ---------------------------------------------------------------- bytes and words, the compression of one block

  function EncodeWord(w: Word): (s: seq<Octet>)
    ensures |s| == 4
  {
    [(w & 0xff) as Octet, ((w >> 8) & 0xff) as Octet, ((w >> 16) & 0xff) as Octet, ((w >> 24) & 0xff) as Octet]
  }

  function DecodeWord(s: seq<Octet>): Word {
    if |s| != 4 then 0 else (s[0] as Word) | ((s[1] as Word) << 8) | ((s[2] as Word) << 16) | ((s[3] as Word) << 24)
  }

  lemma DecodeEncodeWord(w: Word)
    ensures DecodeWord(EncodeWord(w)) == w
  {
  }

  function Spread(enc: Word -> seq<Octet>, ws: seq<Word>): seq<Octet> {
    if ws == [] then [] else Spread(enc, ws[..|ws| - 1]) + enc(ws[|ws| - 1])
  }

  function Gathered(dec: seq<Octet> -> Word, s: seq<Octet>): (ws: seq<Word>)
    ensures |ws| == |s| / 4
    decreases |s|
  {
    if |s| < 4 then [] else Gathered(dec, s[..|s| - 4]) + [dec(s[|s| - 4..])]
  }

  lemma {:induction false} SpreadSize(enc: Word -> seq<Octet>, ws: seq<Word>)
    requires forall w :: |enc(w)| == 4
    ensures |Spread(enc, ws)| == 4 * |ws|
    decreases |ws|
  {
    if ws != [] {
      SpreadSize(enc, ws[..|ws| - 1]);
    }
  }

  lemma {:induction false} GatherInvertsSpread(enc: Word -> seq<Octet>, dec: seq<Octet> -> Word, ws: seq<Word>)
    requires forall w :: |enc(w)| == 4 && dec(enc(w)) == w
    ensures Gathered(dec, Spread(enc, ws)) == ws
    decreases |ws|
  {
    if ws != [] {
      var init, last := ws[..|ws| - 1], ws[|ws| - 1];
      GatherInvertsSpread(enc, dec, init);
      var s := Spread(enc, init) + enc(last);
      assert s[..|s| - 4] == Spread(enc, init) && s[|s| - 4..] == enc(last);
    }
  }

  function Encode(ws: seq<Word>): (s: seq<Octet>)
    ensures |s| == 4 * |ws|
  {
    SpreadSize(EncodeWord, ws);
    Spread(EncodeWord, ws)
  }

  function Decode(s: seq<Octet>): (ws: seq<Word>)
    requires |s| % 4 == 0
    ensures |ws| == |s| / 4
  {
    Gathered(DecodeWord, s)
  }

  lemma DecodeInvertsEncode(ws: seq<Word>)
    ensures Decode(Encode(ws)) == ws
  {
    forall w: Word ensures DecodeWord(EncodeWord(w)) == w {
      DecodeEncodeWord(w);
    }
    GatherInvertsSpread(EncodeWord, DecodeWord, ws);
  }

  /** `Encode`: the words as bytes, least significant first. */
  method EncodeLoop(input: seq<Word>) returns (output: seq<Octet>)
    ensures output == Encode(input)
  {
    output := [];
    for i := 0 to |input|
      invariant output == Encode(input[..i])
    {
      assert input[..i + 1][..i] == input[..i];
      output := output + EncodeWord(input[i]);
    }
    assert input[..|input|] == input;
  }

  /** `Decode`, on a length that is a multiple of four. */
  method DecodeLoop(input: seq<Octet>) returns (output: seq<Word>)
    requires |input| % 4 == 0
    ensures output == Decode(input)
  {
    output := [];
    var j := 0;
    while j < |input|
      invariant 0 <= j <= |input| && j % 4 == 0
      invariant output == Decode(input[..j])
    {
      assert input[..j + 4][..j] == input[..j] && input[..j + 4][j..] == input[j..j + 4];
      output := output + [DecodeWord(input[j..j + 4])];
      j := j + 4;
    }
    assert input[..|input|] == input;
  }

  /** Bytes of a word by place value, the least significant first. */
  lemma EncodeWordPlaces(w: Word)
    ensures var s := EncodeWord(w);
            w == s[0] as Word + 0x100 * s[1] as Word + 0x1_0000 * s[2] as Word + 0x100_0000 * s[3] as Word
  {
  }

  function AddRegs(r: Regs, s: Regs): Regs {
    Regs(r.a + s.a, r.b + s.b, r.c + s.c, r.d + s.d)
  }

  /** Each register gets its own increment. */
  lemma AddsEach(a: Word, b: Word, c: Word, d: Word)
    ensures AddRegs(Regs(a, 0, c, 0), Regs(0, b, 0, d)) == Regs(a, b, c, d)
    ensures AddRegs(Regs(0, b, 0, d), Regs(a, 0, c, 0)) == Regs(a, b, c, d)
  {
  }

  /** One block folded into the state, as section 3.4 of RFC 1321 says. */
  function Compress(r: Regs, block: Block): Regs {
    AddRegs(r, Steps(r, Decode(block), Lines(0, 64)))
  }

  /** `MD5Transform` */
  method Transform(state: Regs, block: Block) returns (state': Regs)
    ensures state' == Compress(state, block)
  {
    var x := DecodeLoop(block);
    var r := Round1(state, x);
    r := Round2(r, x);
    RangesJoin(state, x, 0, 16, 32);
    r := Round3(r, x);
    RangesJoin(state, x, 0, 32, 48);
    r := Round4(r, x);
    RangesJoin(state, x, 0, 48, 64);
    state' := AddRegs(state, r);
  }
}
