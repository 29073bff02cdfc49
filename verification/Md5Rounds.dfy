/** The compression function of MD5, md5.c and md5.h: the sixty-four macro calls
    as written there, and the table of RFC 1321 section 3.4 they unroll. */
module Md5Rounds {

  datatype Regs = Regs(a: bv32, b: bv32, c: bv32, d: bv32)

  type Byte = bv8

  function F(x: bv32, y: bv32, z: bv32): bv32 { (x & y) | (!x & z) }
  function G(x: bv32, y: bv32, z: bv32): bv32 { (x & z) | (y & !z) }
  function H(x: bv32, y: bv32, z: bv32): bv32 { x ^ y ^ z }
  function I(x: bv32, y: bv32, z: bv32): bv32 { y ^ (x | !z) }

  function RotateLeft(x: bv32, n: nat): bv32
    requires 0 < n < 32
  {
    (x << n) | (x >> (32 - n))
  }

  // What RFC 1321, section 3.4 says of the four functions, bit by bit.

  /** "if X then Y else Z" */
  lemma FBits(x: bv32, y: bv32, z: bv32)
    ensures F(x, y, z) & x == y & x && F(x, y, z) & !x == z & !x
  {}

  /** "if Z then X else Y" */
  lemma GBits(x: bv32, y: bv32, z: bv32)
    ensures G(x, y, z) & z == x & z && G(x, y, z) & !z == y & !z
  {}

  /** The parity: Z where X and Y agree, turned over where they do not. */
  lemma HBits(x: bv32, y: bv32, z: bv32)
    ensures var same := !(x ^ y); H(x, y, z) & same == z & same && H(x, y, z) & !same == !z & !same
  {}

  /** Y, turned over where X is set or Z is not. */
  lemma IBits(x: bv32, y: bv32, z: bv32)
    ensures var turned := x | !z; I(x, y, z) & turned == !y & turned && I(x, y, z) & !turned == y & !turned
  {}

  /** FF, GG, HH and II: the new value of a in round r. */
  function Apply(r: nat, a: bv32, b: bv32, c: bv32, d: bv32, x: bv32, s: nat, ac: bv32): bv32
    requires r < 4 && 0 < s < 32
  {
    var f := if r == 0 then F(b, c, d) else if r == 1 then G(b, c, d) else if r == 2 then H(b, c, d) else I(b, c, d);
    RotateLeft(a + f + x + ac, s) + b
  }

  // The table of the standard: step i uses word Word(i), shift Shift(i) and
  // constant Sine(i); the roles of the registers turn after each step.

  function Word(i: nat): (k: nat)
    requires i < 64
    ensures k < 16
  {
    if i < 16 then i else if i < 32 then (5 * i + 1) % 16 else if i < 48 then (3 * i + 5) % 16 else 7 * i % 16
  }

  function Shift(i: nat): (s: nat)
    requires i < 64
    ensures 0 < s < 32
  {
    var k := i % 4;
    if i < 16 then (if k == 0 then 7 else if k == 1 then 12 else if k == 2 then 17 else 22)
    else if i < 32 then (if k == 0 then 5 else if k == 1 then 9 else if k == 2 then 14 else 20)
    else if i < 48 then (if k == 0 then 4 else if k == 1 then 11 else if k == 2 then 16 else 23)
    else (if k == 0 then 6 else if k == 1 then 10 else if k == 2 then 15 else 21)
  }

  const SINES1: seq<bv32> := [
    0xd76aa478, 0xe8c7b756, 0x242070db, 0xc1bdceee, 0xf57c0faf, 0x4787c62a, 0xa8304613, 0xfd469501,
    0x698098d8, 0x8b44f7af, 0xffff5bb1, 0x895cd7be, 0x6b901122, 0xfd987193, 0xa679438e, 0x49b40821
  ]

  const SINES2: seq<bv32> := [
    0xf61e2562, 0xc040b340, 0x265e5a51, 0xe9b6c7aa, 0xd62f105d, 0x2441453, 0xd8a1e681, 0xe7d3fbc8,
    0x21e1cde6, 0xc33707d6, 0xf4d50d87, 0x455a14ed, 0xa9e3e905, 0xfcefa3f8, 0x676f02d9, 0x8d2a4c8a
  ]

  const SINES3: seq<bv32> := [
    0xfffa3942, 0x8771f681, 0x6d9d6122, 0xfde5380c, 0xa4beea44, 0x4bdecfa9, 0xf6bb4b60, 0xbebfbc70,
    0x289b7ec6, 0xeaa127fa, 0xd4ef3085, 0x4881d05, 0xd9d4d039, 0xe6db99e5, 0x1fa27cf8, 0xc4ac5665
  ]

  const SINES4: seq<bv32> := [
    0xf4292244, 0x432aff97, 0xab9423a7, 0xfc93a039, 0x655b59c3, 0x8f0ccc92, 0xffeff47d, 0x85845dd1,
    0x6fa87e4f, 0xfe2ce6e0, 0xa3014314, 0x4e0811a1, 0xf7537e82, 0xbd3af235, 0x2ad7d2bb, 0xeb86d391
  ]

  function Sine(i: nat): bv32
    requires i < 64
  {
    if i < 16 then SINES1[i] else if i < 32 then SINES2[i - 16] else if i < 48 then SINES3[i - 32] else SINES4[i - 48]
  }

  function StepValue(a: bv32, b: bv32, c: bv32, d: bv32, x: seq<bv32>, i: nat): bv32
    requires i < 64 && |x| == 16
  {
    Apply(i / 16, a, b, c, d, x[Word(i)], Shift(i), Sine(i))
  }

  function TableStep(r: Regs, x: seq<bv32>, i: nat): Regs
    requires i < 64 && |x| == 16
  {
    Regs(r.d, StepValue(r.a, r.b, r.c, r.d, x, i), r.b, r.c)
  }

  /** Steps i to n - 1 of the table. */
  function TableSteps(r: Regs, x: seq<bv32>, i: nat, n: nat): Regs
    requires i <= n <= 64 && |x| == 16
    decreases n - i
  {
    if i == n then r else TableSteps(TableStep(r, x, i), x, i + 1, n)
  }

  /** Round 1 as the macro calls spell it out. */
  method Round1(r: Regs, x: seq<bv32>) returns (q: Regs)
    requires |x| == 16
    ensures q == TableSteps(r, x, 0, 16)
  {
    hide Apply, StepValue, TableStep, TableSteps, Word, Shift, Sine;
    TableEntries(x, 0);
    Words1();
    Shifts1();
    Sines1();
    var a, b, c, d := r.a, r.b, r.c, r.d;
    FourSteps(Regs(a, b, c, d), x, 0, 16);
    a := Apply(0, a, b, c, d, x[0], 7, 0xd76aa478);
    d := Apply(0, d, a, b, c, x[1], 12, 0xe8c7b756);
    c := Apply(0, c, d, a, b, x[2], 17, 0x242070db);
    b := Apply(0, b, c, d, a, x[3], 22, 0xc1bdceee);
    FourSteps(Regs(a, b, c, d), x, 4, 16);
    a := Apply(0, a, b, c, d, x[4], 7, 0xf57c0faf);
    d := Apply(0, d, a, b, c, x[5], 12, 0x4787c62a);
    c := Apply(0, c, d, a, b, x[6], 17, 0xa8304613);
    b := Apply(0, b, c, d, a, x[7], 22, 0xfd469501);
    FourSteps(Regs(a, b, c, d), x, 8, 16);
    a := Apply(0, a, b, c, d, x[8], 7, 0x698098d8);
    d := Apply(0, d, a, b, c, x[9], 12, 0x8b44f7af);
    c := Apply(0, c, d, a, b, x[10], 17, 0xffff5bb1);
    b := Apply(0, b, c, d, a, x[11], 22, 0x895cd7be);
    FourSteps(Regs(a, b, c, d), x, 12, 16);
    a := Apply(0, a, b, c, d, x[12], 7, 0x6b901122);
    d := Apply(0, d, a, b, c, x[13], 12, 0xfd987193);
    c := Apply(0, c, d, a, b, x[14], 17, 0xa679438e);
    b := Apply(0, b, c, d, a, x[15], 22, 0x49b40821);
    NoSteps(Regs(a, b, c, d), x, 16);
    q := Regs(a, b, c, d);
  }

  /** Round 2 as the macro calls spell it out. */
  method Round2(r: Regs, x: seq<bv32>) returns (q: Regs)
    requires |x| == 16
    ensures q == TableSteps(r, x, 16, 32)
  {
    hide Apply, StepValue, TableStep, TableSteps, Word, Shift, Sine;
    TableEntries(x, 1);
    Words2();
    Shifts2();
    Sines2();
    var a, b, c, d := r.a, r.b, r.c, r.d;
    FourSteps(Regs(a, b, c, d), x, 16, 32);
    a := Apply(1, a, b, c, d, x[1], 5, 0xf61e2562);
    d := Apply(1, d, a, b, c, x[6], 9, 0xc040b340);
    c := Apply(1, c, d, a, b, x[11], 14, 0x265e5a51);
    b := Apply(1, b, c, d, a, x[0], 20, 0xe9b6c7aa);
    FourSteps(Regs(a, b, c, d), x, 20, 32);
    a := Apply(1, a, b, c, d, x[5], 5, 0xd62f105d);
    d := Apply(1, d, a, b, c, x[10], 9, 0x2441453);
    c := Apply(1, c, d, a, b, x[15], 14, 0xd8a1e681);
    b := Apply(1, b, c, d, a, x[4], 20, 0xe7d3fbc8);
    FourSteps(Regs(a, b, c, d), x, 24, 32);
    a := Apply(1, a, b, c, d, x[9], 5, 0x21e1cde6);
    d := Apply(1, d, a, b, c, x[14], 9, 0xc33707d6);
    c := Apply(1, c, d, a, b, x[3], 14, 0xf4d50d87);
    b := Apply(1, b, c, d, a, x[8], 20, 0x455a14ed);
    FourSteps(Regs(a, b, c, d), x, 28, 32);
    a := Apply(1, a, b, c, d, x[13], 5, 0xa9e3e905);
    d := Apply(1, d, a, b, c, x[2], 9, 0xfcefa3f8);
    c := Apply(1, c, d, a, b, x[7], 14, 0x676f02d9);
    b := Apply(1, b, c, d, a, x[12], 20, 0x8d2a4c8a);
    NoSteps(Regs(a, b, c, d), x, 32);
    q := Regs(a, b, c, d);
  }

  /** Round 3 as the macro calls spell it out. */
  method Round3(r: Regs, x: seq<bv32>) returns (q: Regs)
    requires |x| == 16
    ensures q == TableSteps(r, x, 32, 48)
  {
    hide Apply, StepValue, TableStep, TableSteps, Word, Shift, Sine;
    TableEntries(x, 2);
    Words3();
    Shifts3();
    Sines3();
    var a, b, c, d := r.a, r.b, r.c, r.d;
    FourSteps(Regs(a, b, c, d), x, 32, 48);
    a := Apply(2, a, b, c, d, x[5], 4, 0xfffa3942);
    d := Apply(2, d, a, b, c, x[8], 11, 0x8771f681);
    c := Apply(2, c, d, a, b, x[11], 16, 0x6d9d6122);
    b := Apply(2, b, c, d, a, x[14], 23, 0xfde5380c);
    FourSteps(Regs(a, b, c, d), x, 36, 48);
    a := Apply(2, a, b, c, d, x[1], 4, 0xa4beea44);
    d := Apply(2, d, a, b, c, x[4], 11, 0x4bdecfa9);
    c := Apply(2, c, d, a, b, x[7], 16, 0xf6bb4b60);
    b := Apply(2, b, c, d, a, x[10], 23, 0xbebfbc70);
    FourSteps(Regs(a, b, c, d), x, 40, 48);
    a := Apply(2, a, b, c, d, x[13], 4, 0x289b7ec6);
    d := Apply(2, d, a, b, c, x[0], 11, 0xeaa127fa);
    c := Apply(2, c, d, a, b, x[3], 16, 0xd4ef3085);
    b := Apply(2, b, c, d, a, x[6], 23, 0x4881d05);
    FourSteps(Regs(a, b, c, d), x, 44, 48);
    a := Apply(2, a, b, c, d, x[9], 4, 0xd9d4d039);
    d := Apply(2, d, a, b, c, x[12], 11, 0xe6db99e5);
    c := Apply(2, c, d, a, b, x[15], 16, 0x1fa27cf8);
    b := Apply(2, b, c, d, a, x[2], 23, 0xc4ac5665);
    NoSteps(Regs(a, b, c, d), x, 48);
    q := Regs(a, b, c, d);
  }

  /** Round 4 as the macro calls spell it out. */
  method Round4(r: Regs, x: seq<bv32>) returns (q: Regs)
    requires |x| == 16
    ensures q == TableSteps(r, x, 48, 64)
  {
    hide Apply, StepValue, TableStep, TableSteps, Word, Shift, Sine;
    TableEntries(x, 3);
    Words4();
    Shifts4();
    Sines4();
    var a, b, c, d := r.a, r.b, r.c, r.d;
    FourSteps(Regs(a, b, c, d), x, 48, 64);
    a := Apply(3, a, b, c, d, x[0], 6, 0xf4292244);
    d := Apply(3, d, a, b, c, x[7], 10, 0x432aff97);
    c := Apply(3, c, d, a, b, x[14], 15, 0xab9423a7);
    b := Apply(3, b, c, d, a, x[5], 21, 0xfc93a039);
    FourSteps(Regs(a, b, c, d), x, 52, 64);
    a := Apply(3, a, b, c, d, x[12], 6, 0x655b59c3);
    d := Apply(3, d, a, b, c, x[3], 10, 0x8f0ccc92);
    c := Apply(3, c, d, a, b, x[10], 15, 0xffeff47d);
    b := Apply(3, b, c, d, a, x[1], 21, 0x85845dd1);
    FourSteps(Regs(a, b, c, d), x, 56, 64);
    a := Apply(3, a, b, c, d, x[8], 6, 0x6fa87e4f);
    d := Apply(3, d, a, b, c, x[15], 10, 0xfe2ce6e0);
    c := Apply(3, c, d, a, b, x[6], 15, 0xa3014314);
    b := Apply(3, b, c, d, a, x[13], 21, 0x4e0811a1);
    FourSteps(Regs(a, b, c, d), x, 60, 64);
    a := Apply(3, a, b, c, d, x[4], 6, 0xf7537e82);
    d := Apply(3, d, a, b, c, x[11], 10, 0xbd3af235);
    c := Apply(3, c, d, a, b, x[2], 15, 0x2ad7d2bb);
    b := Apply(3, b, c, d, a, x[9], 21, 0xeb86d391);
    NoSteps(Regs(a, b, c, d), x, 64);
    q := Regs(a, b, c, d);
  }

  lemma Words1()
    ensures Word(0) == 0 && Word(1) == 1 && Word(2) == 2 && Word(3) == 3
    ensures Word(4) == 4 && Word(5) == 5 && Word(6) == 6 && Word(7) == 7
    ensures Word(8) == 8 && Word(9) == 9 && Word(10) == 10 && Word(11) == 11
    ensures Word(12) == 12 && Word(13) == 13 && Word(14) == 14 && Word(15) == 15
  {}

  lemma Shifts1()
    ensures Shift(0) == 7 && Shift(1) == 12 && Shift(2) == 17 && Shift(3) == 22
    ensures Shift(4) == 7 && Shift(5) == 12 && Shift(6) == 17 && Shift(7) == 22
    ensures Shift(8) == 7 && Shift(9) == 12 && Shift(10) == 17 && Shift(11) == 22
    ensures Shift(12) == 7 && Shift(13) == 12 && Shift(14) == 17 && Shift(15) == 22
  {}

  lemma Sines1()
    ensures Sine(0) == 0xd76aa478 && Sine(1) == 0xe8c7b756 && Sine(2) == 0x242070db && Sine(3) == 0xc1bdceee
    ensures Sine(4) == 0xf57c0faf && Sine(5) == 0x4787c62a && Sine(6) == 0xa8304613 && Sine(7) == 0xfd469501
    ensures Sine(8) == 0x698098d8 && Sine(9) == 0x8b44f7af && Sine(10) == 0xffff5bb1 && Sine(11) == 0x895cd7be
    ensures Sine(12) == 0x6b901122 && Sine(13) == 0xfd987193 && Sine(14) == 0xa679438e && Sine(15) == 0x49b40821
  {}

  lemma Words2()
    ensures Word(16) == 1 && Word(17) == 6 && Word(18) == 11 && Word(19) == 0
    ensures Word(20) == 5 && Word(21) == 10 && Word(22) == 15 && Word(23) == 4
    ensures Word(24) == 9 && Word(25) == 14 && Word(26) == 3 && Word(27) == 8
    ensures Word(28) == 13 && Word(29) == 2 && Word(30) == 7 && Word(31) == 12
  {}

  lemma Shifts2()
    ensures Shift(16) == 5 && Shift(17) == 9 && Shift(18) == 14 && Shift(19) == 20
    ensures Shift(20) == 5 && Shift(21) == 9 && Shift(22) == 14 && Shift(23) == 20
    ensures Shift(24) == 5 && Shift(25) == 9 && Shift(26) == 14 && Shift(27) == 20
    ensures Shift(28) == 5 && Shift(29) == 9 && Shift(30) == 14 && Shift(31) == 20
  {}

  lemma Sines2()
    ensures Sine(16) == 0xf61e2562 && Sine(17) == 0xc040b340 && Sine(18) == 0x265e5a51 && Sine(19) == 0xe9b6c7aa
    ensures Sine(20) == 0xd62f105d && Sine(21) == 0x2441453 && Sine(22) == 0xd8a1e681 && Sine(23) == 0xe7d3fbc8
    ensures Sine(24) == 0x21e1cde6 && Sine(25) == 0xc33707d6 && Sine(26) == 0xf4d50d87 && Sine(27) == 0x455a14ed
    ensures Sine(28) == 0xa9e3e905 && Sine(29) == 0xfcefa3f8 && Sine(30) == 0x676f02d9 && Sine(31) == 0x8d2a4c8a
  {}

  lemma Words3()
    ensures Word(32) == 5 && Word(33) == 8 && Word(34) == 11 && Word(35) == 14
    ensures Word(36) == 1 && Word(37) == 4 && Word(38) == 7 && Word(39) == 10
    ensures Word(40) == 13 && Word(41) == 0 && Word(42) == 3 && Word(43) == 6
    ensures Word(44) == 9 && Word(45) == 12 && Word(46) == 15 && Word(47) == 2
  {}

  lemma Shifts3()
    ensures Shift(32) == 4 && Shift(33) == 11 && Shift(34) == 16 && Shift(35) == 23
    ensures Shift(36) == 4 && Shift(37) == 11 && Shift(38) == 16 && Shift(39) == 23
    ensures Shift(40) == 4 && Shift(41) == 11 && Shift(42) == 16 && Shift(43) == 23
    ensures Shift(44) == 4 && Shift(45) == 11 && Shift(46) == 16 && Shift(47) == 23
  {}

  lemma Sines3()
    ensures Sine(32) == 0xfffa3942 && Sine(33) == 0x8771f681 && Sine(34) == 0x6d9d6122 && Sine(35) == 0xfde5380c
    ensures Sine(36) == 0xa4beea44 && Sine(37) == 0x4bdecfa9 && Sine(38) == 0xf6bb4b60 && Sine(39) == 0xbebfbc70
    ensures Sine(40) == 0x289b7ec6 && Sine(41) == 0xeaa127fa && Sine(42) == 0xd4ef3085 && Sine(43) == 0x4881d05
    ensures Sine(44) == 0xd9d4d039 && Sine(45) == 0xe6db99e5 && Sine(46) == 0x1fa27cf8 && Sine(47) == 0xc4ac5665
  {}

  lemma Words4()
    ensures Word(48) == 0 && Word(49) == 7 && Word(50) == 14 && Word(51) == 5
    ensures Word(52) == 12 && Word(53) == 3 && Word(54) == 10 && Word(55) == 1
    ensures Word(56) == 8 && Word(57) == 15 && Word(58) == 6 && Word(59) == 13
    ensures Word(60) == 4 && Word(61) == 11 && Word(62) == 2 && Word(63) == 9
  {}

  lemma Shifts4()
    ensures Shift(48) == 6 && Shift(49) == 10 && Shift(50) == 15 && Shift(51) == 21
    ensures Shift(52) == 6 && Shift(53) == 10 && Shift(54) == 15 && Shift(55) == 21
    ensures Shift(56) == 6 && Shift(57) == 10 && Shift(58) == 15 && Shift(59) == 21
    ensures Shift(60) == 6 && Shift(61) == 10 && Shift(62) == 15 && Shift(63) == 21
  {}

  lemma Sines4()
    ensures Sine(48) == 0xf4292244 && Sine(49) == 0x432aff97 && Sine(50) == 0xab9423a7 && Sine(51) == 0xfc93a039
    ensures Sine(52) == 0x655b59c3 && Sine(53) == 0x8f0ccc92 && Sine(54) == 0xffeff47d && Sine(55) == 0x85845dd1
    ensures Sine(56) == 0x6fa87e4f && Sine(57) == 0xfe2ce6e0 && Sine(58) == 0xa3014314 && Sine(59) == 0x4e0811a1
    ensures Sine(60) == 0xf7537e82 && Sine(61) == 0xbd3af235 && Sine(62) == 0x2ad7d2bb && Sine(63) == 0xeb86d391
  {}

  /** The sixteen table steps of a round, with their own constants. */
  lemma TableEntries(x: seq<bv32>, r: nat)
    requires r < 4 && |x| == 16
    ensures forall i, a, b, c, d :: 16 * r <= i < 16 * r + 16 ==>
      StepValue(a, b, c, d, x, i) == Apply(r, a, b, c, d, x[Word(i)], Shift(i), Sine(i))
  {
    hide Apply, Word, Shift, Sine;
  }

  /** Four table steps bring every register back to its role. */
  lemma FourSteps(r: Regs, x: seq<bv32>, i: nat, n: nat)
    requires |x| == 16 && i + 4 <= n <= 64
    ensures var a := StepValue(r.a, r.b, r.c, r.d, x, i);
      var d := StepValue(r.d, a, r.b, r.c, x, i + 1);
      var c := StepValue(r.c, d, a, r.b, x, i + 2);
      var b := StepValue(r.b, c, d, a, x, i + 3);
      TableSteps(r, x, i, n) == TableSteps(Regs(a, b, c, d), x, i + 4, n)
  {
    hide StepValue;
    var r1 := TableStep(r, x, i);
    var r2 := TableStep(r1, x, i + 1);
    var r3 := TableStep(r2, x, i + 2);
    assert TableSteps(r, x, i, n) == TableSteps(r1, x, i + 1, n);
    assert TableSteps(r1, x, i + 1, n) == TableSteps(r2, x, i + 2, n);
    assert TableSteps(r2, x, i + 2, n) == TableSteps(r3, x, i + 3, n);
  }

  lemma NoSteps(r: Regs, x: seq<bv32>, n: nat)
    requires |x| == 16 && n <= 64
    ensures TableSteps(r, x, n, n) == r
  {}
}
