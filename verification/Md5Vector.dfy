/** The test suite of RFC 1321, section A.5, on its third message, abc. */
module Md5Vector {
  import opened Md5

  /** The 16 words of the padded message. */
  const WORDS: seq<bv32> := [
    0x80636261, 0x00000000, 0x00000000, 0x00000000, 0x00000000, 0x00000000, 0x00000000, 0x00000000,
    0x00000000, 0x00000000, 0x00000000, 0x00000000, 0x00000000, 0x00000000, 0x00000018, 0x00000000]

  /** One operation more, which changes one register. */
  lemma OneMore(n: nat, s: Regs)
    requires n < 64 && Operations(n, INIT, WORDS) == s
    ensures n % 4 == 0 ==> Operations(n + 1, INIT, WORDS) == s.(a := Operate(n, s.a, s.b, s.c, s.d, WORDS))
    ensures n % 4 == 1 ==> Operations(n + 1, INIT, WORDS) == s.(d := Operate(n, s.d, s.a, s.b, s.c, WORDS))
    ensures n % 4 == 2 ==> Operations(n + 1, INIT, WORDS) == s.(c := Operate(n, s.c, s.d, s.a, s.b, WORDS))
    ensures n % 4 == 3 ==> Operations(n + 1, INIT, WORDS) == s.(b := Operate(n, s.b, s.c, s.d, s.a, WORDS))
  {
    hide Operate;
  }

  lemma Tables2()
    ensures Word(0) == 0 && Sine(0) == 0xd76aa478 && Shift(0) == 7
    ensures Word(1) == 1 && Sine(1) == 0xe8c7b756 && Shift(1) == 12
  {
  }

  lemma Tables4()
    ensures Word(2) == 2 && Sine(2) == 0x242070db && Shift(2) == 17
    ensures Word(3) == 3 && Sine(3) == 0xc1bdceee && Shift(3) == 22
  {
  }

  lemma Operations4()
    ensures Operations(4, INIT, WORDS) ==
      Regs(0xd6d117b4, 0x7ad956f2, 0x2f6fbd72, 0x344a8432)
  {
    hide Operations, Word, Sine, Shift;
    NoOperation();
    WordsAre();
    Tables2();
    Tables4();
    OneMore(0, Regs(0x67452301, 0xefcdab89, 0x98badcfe, 0x10325476));
    OneMore(1, Regs(0xd6d117b4, 0xefcdab89, 0x98badcfe, 0x10325476));
    OneMore(2, Regs(0xd6d117b4, 0xefcdab89, 0x98badcfe, 0x344a8432));
    OneMore(3, Regs(0xd6d117b4, 0xefcdab89, 0x2f6fbd72, 0x344a8432));
  }

  lemma Tables6()
    ensures Word(4) == 4 && Sine(4) == 0xf57c0faf && Shift(4) == 7
    ensures Word(5) == 5 && Sine(5) == 0x4787c62a && Shift(5) == 12
  {
  }

  lemma Tables8()
    ensures Word(6) == 6 && Sine(6) == 0xa8304613 && Shift(6) == 17
    ensures Word(7) == 7 && Sine(7) == 0xfd469501 && Shift(7) == 22
  {
  }

  lemma Operations8()
    ensures Operations(8, INIT, WORDS) ==
      Regs(0xc73741ef, 0x928d99f6, 0x207dc67b, 0x8bac3051)
  {
    hide Operations, Word, Sine, Shift;
    Operations4();
    WordsAre();
    Tables6();
    Tables8();
    OneMore(4, Regs(0xd6d117b4, 0x7ad956f2, 0x2f6fbd72, 0x344a8432));
    OneMore(5, Regs(0xc73741ef, 0x7ad956f2, 0x2f6fbd72, 0x344a8432));
    OneMore(6, Regs(0xc73741ef, 0x7ad956f2, 0x2f6fbd72, 0x8bac3051));
    OneMore(7, Regs(0xc73741ef, 0x7ad956f2, 0x207dc67b, 0x8bac3051));
  }

  lemma Tables10()
    ensures Word(8) == 8 && Sine(8) == 0x698098d8 && Shift(8) == 7
    ensures Word(9) == 9 && Sine(9) == 0x8b44f7af && Shift(9) == 12
  {
  }

  lemma Tables12()
    ensures Word(10) == 10 && Sine(10) == 0xffff5bb1 && Shift(10) == 17
    ensures Word(11) == 11 && Sine(11) == 0x895cd7be && Shift(11) == 22
  {
  }

  lemma Operations12()
    ensures Operations(12, INIT, WORDS) ==
      Regs(0x854b3712, 0x5ed49596, 0x3020401c, 0x74e2f284)
  {
    hide Operations, Word, Sine, Shift;
    Operations8();
    WordsAre();
    Tables10();
    Tables12();
    OneMore(8, Regs(0xc73741ef, 0x928d99f6, 0x207dc67b, 0x8bac3051));
    OneMore(9, Regs(0x854b3712, 0x928d99f6, 0x207dc67b, 0x8bac3051));
    OneMore(10, Regs(0x854b3712, 0x928d99f6, 0x207dc67b, 0x74e2f284));
    OneMore(11, Regs(0x854b3712, 0x928d99f6, 0x3020401c, 0x74e2f284));
  }

  lemma Tables14()
    ensures Word(12) == 12 && Sine(12) == 0x6b901122 && Shift(12) == 7
    ensures Word(13) == 13 && Sine(13) == 0xfd987193 && Shift(13) == 12
  {
  }

  lemma Tables16()
    ensures Word(14) == 14 && Sine(14) == 0xa679438e && Shift(14) == 17
    ensures Word(15) == 15 && Sine(15) == 0x49b40821 && Shift(15) == 22
  {
  }

  lemma Operations16()
    ensures Operations(16, INIT, WORDS) ==
      Regs(0xdda9b9a6, 0x72aff2e0, 0xe396856b, 0xa1051895)
  {
    hide Operations, Word, Sine, Shift;
    Operations12();
    WordsAre();
    Tables14();
    Tables16();
    OneMore(12, Regs(0x854b3712, 0x5ed49596, 0x3020401c, 0x74e2f284));
    OneMore(13, Regs(0xdda9b9a6, 0x5ed49596, 0x3020401c, 0x74e2f284));
    OneMore(14, Regs(0xdda9b9a6, 0x5ed49596, 0x3020401c, 0xa1051895));
    OneMore(15, Regs(0xdda9b9a6, 0x5ed49596, 0xe396856b, 0xa1051895));
  }

  lemma Tables18()
    ensures Word(16) == 1 && Sine(16) == 0xf61e2562 && Shift(16) == 5
    ensures Word(17) == 6 && Sine(17) == 0xc040b340 && Shift(17) == 9
  {
  }

  lemma Tables20()
    ensures Word(18) == 11 && Sine(18) == 0x265e5a51 && Shift(18) == 14
    ensures Word(19) == 0 && Sine(19) == 0xe9b6c7aa && Shift(19) == 20
  {
  }

  lemma Operations20()
    ensures Operations(20, INIT, WORDS) ==
      Regs(0x3e9e9126, 0xb5b204e4, 0xe25e1652, 0x4a1d804e)
  {
    hide Operations, Word, Sine, Shift;
    Operations16();
    WordsAre();
    Tables18();
    Tables20();
    OneMore(16, Regs(0xdda9b9a6, 0x72aff2e0, 0xe396856b, 0xa1051895));
    OneMore(17, Regs(0x3e9e9126, 0x72aff2e0, 0xe396856b, 0xa1051895));
    OneMore(18, Regs(0x3e9e9126, 0x72aff2e0, 0xe396856b, 0x4a1d804e));
    OneMore(19, Regs(0x3e9e9126, 0x72aff2e0, 0xe25e1652, 0x4a1d804e));
  }

  lemma Tables22()
    ensures Word(20) == 5 && Sine(20) == 0xd62f105d && Shift(20) == 5
    ensures Word(21) == 10 && Sine(21) == 0x02441453 && Shift(21) == 9
  {
  }

  lemma Tables24()
    ensures Word(22) == 15 && Sine(22) == 0xd8a1e681 && Shift(22) == 14
    ensures Word(23) == 4 && Sine(23) == 0xe7d3fbc8 && Shift(23) == 20
  {
  }

  lemma Operations24()
    ensures Operations(24, INIT, WORDS) ==
      Regs(0x59a8ffda, 0x47092c07, 0xabfc7920, 0x6d002f1e)
  {
    hide Operations, Word, Sine, Shift;
    Operations20();
    WordsAre();
    Tables22();
    Tables24();
    OneMore(20, Regs(0x3e9e9126, 0xb5b204e4, 0xe25e1652, 0x4a1d804e));
    OneMore(21, Regs(0x59a8ffda, 0xb5b204e4, 0xe25e1652, 0x4a1d804e));
    OneMore(22, Regs(0x59a8ffda, 0xb5b204e4, 0xe25e1652, 0x6d002f1e));
    OneMore(23, Regs(0x59a8ffda, 0xb5b204e4, 0xabfc7920, 0x6d002f1e));
  }

  lemma Tables26()
    ensures Word(24) == 9 && Sine(24) == 0x21e1cde6 && Shift(24) == 5
    ensures Word(25) == 14 && Sine(25) == 0xc33707d6 && Shift(25) == 9
  {
  }

  lemma Tables28()
    ensures Word(26) == 3 && Sine(26) == 0xf4d50d87 && Shift(26) == 14
    ensures Word(27) == 8 && Sine(27) == 0x455a14ed && Shift(27) == 20
  {
  }

  lemma Operations28()
    ensures Operations(28, INIT, WORDS) ==
      Regs(0xb7f268cf, 0x786acb8f, 0xfe1623b1, 0x09388eff)
  {
    hide Operations, Word, Sine, Shift;
    Operations24();
    WordsAre();
    Tables26();
    Tables28();
    OneMore(24, Regs(0x59a8ffda, 0x47092c07, 0xabfc7920, 0x6d002f1e));
    OneMore(25, Regs(0xb7f268cf, 0x47092c07, 0xabfc7920, 0x6d002f1e));
    OneMore(26, Regs(0xb7f268cf, 0x47092c07, 0xabfc7920, 0x09388eff));
    OneMore(27, Regs(0xb7f268cf, 0x47092c07, 0xfe1623b1, 0x09388eff));
  }

  lemma Tables30()
    ensures Word(28) == 13 && Sine(28) == 0xa9e3e905 && Shift(28) == 5
    ensures Word(29) == 2 && Sine(29) == 0xfcefa3f8 && Shift(29) == 9
  {
  }

  lemma Tables32()
    ensures Word(30) == 7 && Sine(30) == 0x676f02d9 && Shift(30) == 14
    ensures Word(31) == 12 && Sine(31) == 0x8d2a4c8a && Shift(31) == 20
  {
  }

  lemma Operations32()
    ensures Operations(32, INIT, WORDS) ==
      Regs(0x790a77fb, 0x726342d3, 0xa62884aa, 0x9f47e4f8)
  {
    hide Operations, Word, Sine, Shift;
    Operations28();
    WordsAre();
    Tables30();
    Tables32();
    OneMore(28, Regs(0xb7f268cf, 0x786acb8f, 0xfe1623b1, 0x09388eff));
    OneMore(29, Regs(0x790a77fb, 0x786acb8f, 0xfe1623b1, 0x09388eff));
    OneMore(30, Regs(0x790a77fb, 0x786acb8f, 0xfe1623b1, 0x9f47e4f8));
    OneMore(31, Regs(0x790a77fb, 0x786acb8f, 0xa62884aa, 0x9f47e4f8));
  }

  lemma Tables34()
    ensures Word(32) == 5 && Sine(32) == 0xfffa3942 && Shift(32) == 4
    ensures Word(33) == 8 && Sine(33) == 0x8771f681 && Shift(33) == 11
  {
  }

  lemma Tables36()
    ensures Word(34) == 11 && Sine(34) == 0x6d9d6122 && Shift(34) == 16
    ensures Word(35) == 14 && Sine(35) == 0xfde5380c && Shift(35) == 23
  {
  }

  lemma Operations36()
    ensures Operations(36, INIT, WORDS) ==
      Regs(0xb3707ebf, 0x3b0875c7, 0x8d212ff5, 0x60127b2e)
  {
    hide Operations, Word, Sine, Shift;
    Operations32();
    WordsAre();
    Tables34();
    Tables36();
    OneMore(32, Regs(0x790a77fb, 0x726342d3, 0xa62884aa, 0x9f47e4f8));
    OneMore(33, Regs(0xb3707ebf, 0x726342d3, 0xa62884aa, 0x9f47e4f8));
    OneMore(34, Regs(0xb3707ebf, 0x726342d3, 0xa62884aa, 0x60127b2e));
    OneMore(35, Regs(0xb3707ebf, 0x726342d3, 0x8d212ff5, 0x60127b2e));
  }

  lemma Tables38()
    ensures Word(36) == 1 && Sine(36) == 0xa4beea44 && Shift(36) == 4
    ensures Word(37) == 4 && Sine(37) == 0x4bdecfa9 && Shift(37) == 11
  {
  }

  lemma Tables40()
    ensures Word(38) == 7 && Sine(38) == 0xf6bb4b60 && Shift(38) == 16
    ensures Word(39) == 10 && Sine(39) == 0xbebfbc70 && Shift(39) == 23
  {
  }

  lemma Operations40()
    ensures Operations(40, INIT, WORDS) ==
      Regs(0x21b117b9, 0x5a2f5ea5, 0x3575227e, 0x6e7429d5)
  {
    hide Operations, Word, Sine, Shift;
    Operations36();
    WordsAre();
    Tables38();
    Tables40();
    OneMore(36, Regs(0xb3707ebf, 0x3b0875c7, 0x8d212ff5, 0x60127b2e));
    OneMore(37, Regs(0x21b117b9, 0x3b0875c7, 0x8d212ff5, 0x60127b2e));
    OneMore(38, Regs(0x21b117b9, 0x3b0875c7, 0x8d212ff5, 0x6e7429d5));
    OneMore(39, Regs(0x21b117b9, 0x3b0875c7, 0x3575227e, 0x6e7429d5));
  }

  lemma Tables42()
    ensures Word(40) == 13 && Sine(40) == 0x289b7ec6 && Shift(40) == 4
    ensures Word(41) == 0 && Sine(41) == 0xeaa127fa && Shift(41) == 11
  {
  }

  lemma Tables44()
    ensures Word(42) == 3 && Sine(42) == 0xd4ef3085 && Shift(42) == 16
    ensures Word(43) == 6 && Sine(43) == 0x04881d05 && Shift(43) == 23
  {
  }

  lemma Operations44()
    ensures Operations(44, INIT, WORDS) ==
      Regs(0x11de1779, 0x4c6124f4, 0x31c465ca, 0xfadcaa38)
  {
    hide Operations, Word, Sine, Shift;
    Operations40();
    WordsAre();
    Tables42();
    Tables44();
    OneMore(40, Regs(0x21b117b9, 0x5a2f5ea5, 0x3575227e, 0x6e7429d5));
    OneMore(41, Regs(0x11de1779, 0x5a2f5ea5, 0x3575227e, 0x6e7429d5));
    OneMore(42, Regs(0x11de1779, 0x5a2f5ea5, 0x3575227e, 0xfadcaa38));
    OneMore(43, Regs(0x11de1779, 0x5a2f5ea5, 0x31c465ca, 0xfadcaa38));
  }

  lemma Tables46()
    ensures Word(44) == 9 && Sine(44) == 0xd9d4d039 && Shift(44) == 4
    ensures Word(45) == 12 && Sine(45) == 0xe6db99e5 && Shift(45) == 11
  {
  }

  lemma Tables48()
    ensures Word(46) == 15 && Sine(46) == 0x1fa27cf8 && Shift(46) == 16
    ensures Word(47) == 2 && Sine(47) == 0xc4ac5665 && Shift(47) == 23
  {
  }

  lemma Operations48()
    ensures Operations(48, INIT, WORDS) ==
      Regs(0x7f2e507b, 0x7beb9700, 0x8fae6399, 0x99d9679d)
  {
    hide Operations, Word, Sine, Shift;
    Operations44();
    WordsAre();
    Tables46();
    Tables48();
    OneMore(44, Regs(0x11de1779, 0x4c6124f4, 0x31c465ca, 0xfadcaa38));
    OneMore(45, Regs(0x7f2e507b, 0x4c6124f4, 0x31c465ca, 0xfadcaa38));
    OneMore(46, Regs(0x7f2e507b, 0x4c6124f4, 0x31c465ca, 0x99d9679d));
    OneMore(47, Regs(0x7f2e507b, 0x4c6124f4, 0x8fae6399, 0x99d9679d));
  }

  lemma Tables50()
    ensures Word(48) == 0 && Sine(48) == 0xf4292244 && Shift(48) == 6
    ensures Word(49) == 7 && Sine(49) == 0x432aff97 && Shift(49) == 10
  {
  }

  lemma Tables52()
    ensures Word(50) == 14 && Sine(50) == 0xab9423a7 && Shift(50) == 15
    ensures Word(51) == 5 && Sine(51) == 0xfc93a039 && Shift(51) == 21
  {
  }

  lemma Operations52()
    ensures Operations(52, INIT, WORDS) ==
      Regs(0x7b201df8, 0x8bf025c4, 0xb298cefd, 0xf4e8e96e)
  {
    hide Operations, Word, Sine, Shift;
    Operations48();
    WordsAre();
    Tables50();
    Tables52();
    OneMore(48, Regs(0x7f2e507b, 0x7beb9700, 0x8fae6399, 0x99d9679d));
    OneMore(49, Regs(0x7b201df8, 0x7beb9700, 0x8fae6399, 0x99d9679d));
    OneMore(50, Regs(0x7b201df8, 0x7beb9700, 0x8fae6399, 0xf4e8e96e));
    OneMore(51, Regs(0x7b201df8, 0x7beb9700, 0xb298cefd, 0xf4e8e96e));
  }

  lemma Tables54()
    ensures Word(52) == 12 && Sine(52) == 0x655b59c3 && Shift(52) == 6
    ensures Word(53) == 3 && Sine(53) == 0x8f0ccc92 && Shift(53) == 10
  {
  }

  lemma Tables56()
    ensures Word(54) == 10 && Sine(54) == 0xffeff47d && Shift(54) == 15
    ensures Word(55) == 1 && Sine(55) == 0x85845dd1 && Shift(55) == 21
  {
  }

  lemma Operations56()
    ensures Operations(56, INIT, WORDS) ==
      Regs(0x06cc5e8a, 0x3bfa2c27, 0x7d632dd0, 0x5b0d97aa)
  {
    hide Operations, Word, Sine, Shift;
    Operations52();
    WordsAre();
    Tables54();
    Tables56();
    OneMore(52, Regs(0x7b201df8, 0x8bf025c4, 0xb298cefd, 0xf4e8e96e));
    OneMore(53, Regs(0x06cc5e8a, 0x8bf025c4, 0xb298cefd, 0xf4e8e96e));
    OneMore(54, Regs(0x06cc5e8a, 0x8bf025c4, 0xb298cefd, 0x5b0d97aa));
    OneMore(55, Regs(0x06cc5e8a, 0x8bf025c4, 0x7d632dd0, 0x5b0d97aa));
  }

  lemma Tables58()
    ensures Word(56) == 8 && Sine(56) == 0x6fa87e4f && Shift(56) == 6
    ensures Word(57) == 15 && Sine(57) == 0xfe2ce6e0 && Shift(57) == 10
  {
  }

  lemma Tables60()
    ensures Word(58) == 6 && Sine(58) == 0xa3014314 && Shift(58) == 15
    ensures Word(59) == 13 && Sine(59) == 0x4e0811a1 && Shift(59) == 21
  {
  }

  lemma Operations60()
    ensures Operations(60, INIT, WORDS) ==
      Regs(0x7f81cc35, 0x7327d604, 0x4f9dbe3f, 0x094454ab)
  {
    hide Operations, Word, Sine, Shift;
    Operations56();
    WordsAre();
    Tables58();
    Tables60();
    OneMore(56, Regs(0x06cc5e8a, 0x3bfa2c27, 0x7d632dd0, 0x5b0d97aa));
    OneMore(57, Regs(0x7f81cc35, 0x3bfa2c27, 0x7d632dd0, 0x5b0d97aa));
    OneMore(58, Regs(0x7f81cc35, 0x3bfa2c27, 0x7d632dd0, 0x094454ab));
    OneMore(59, Regs(0x7f81cc35, 0x3bfa2c27, 0x4f9dbe3f, 0x094454ab));
  }

  lemma Tables62()
    ensures Word(60) == 4 && Sine(60) == 0xf7537e82 && Shift(60) == 6
    ensures Word(61) == 11 && Sine(61) == 0xbd3af235 && Shift(61) == 10
  {
  }

  lemma Tables64()
    ensures Word(62) == 2 && Sine(62) == 0x2ad7d2bb && Shift(62) == 15
    ensures Word(63) == 9 && Sine(63) == 0xeb86d391 && Shift(63) == 21
  {
  }

  lemma Operations64()
    ensures Operations(64, INIT, WORDS) ==
      Regs(0x310ade8f, 0xc08226b3, 0xe484b9d8, 0x624d8cb2)
  {
    hide Operations, Word, Sine, Shift;
    Operations60();
    WordsAre();
    Tables62();
    Tables64();
    OneMore(60, Regs(0x7f81cc35, 0x7327d604, 0x4f9dbe3f, 0x094454ab));
    OneMore(61, Regs(0x310ade8f, 0x7327d604, 0x4f9dbe3f, 0x094454ab));
    OneMore(62, Regs(0x310ade8f, 0x7327d604, 0x4f9dbe3f, 0x624d8cb2));
    OneMore(63, Regs(0x310ade8f, 0x7327d604, 0xe484b9d8, 0x624d8cb2));
  }

  lemma WordsAre()
    ensures WORDS[0] == 0x80636261 && WORDS[1] == 0x00000000 && WORDS[2] == 0x00000000 && WORDS[3] == 0x00000000
    ensures WORDS[4] == 0x00000000 && WORDS[5] == 0x00000000 && WORDS[6] == 0x00000000 && WORDS[7] == 0x00000000
    ensures WORDS[8] == 0x00000000 && WORDS[9] == 0x00000000 && WORDS[10] == 0x00000000 && WORDS[11] == 0x00000000
    ensures WORDS[12] == 0x00000000 && WORDS[13] == 0x00000000 && WORDS[14] == 0x00000018 && WORDS[15] == 0x00000000
  {
  }

  lemma NoOperation()
    ensures Operations(0, INIT, WORDS) == INIT
  {
  }

  const ABC: octets := [0x61, 0x62, 0x63]

  lemma Padding()
    ensures Padded(ABC) == ABC + [0x80] + Zero(52) + [24, 0, 0, 0, 0, 0, 0, 0]
  {
    hide Zero;
    LengthIs();
  }

  lemma LengthIs()
    ensures Fill(3) == 52 && LengthOctets(BitLength(3)) == [24, 0, 0, 0, 0, 0, 0, 0]
  {
    hide BitLength, LengthOctets;
    Bits();
    Octets();
  }

  lemma Bits()
    ensures BitLength(3) == 24 as bv64
  {
    assert 3 * 8 % 0x1_0000_0000_0000_0000 == 24;
  }

  lemma Octets()
    ensures LengthOctets(24) == [24, 0, 0, 0, 0, 0, 0, 0]
  {
    hide WordOctets;
    OctetsOf();
    assert (24 as bv64 & 0xffff_ffff) as bv32 == 24 && ((24 as bv64) >> 32) as bv32 == 0;
  }

  lemma OctetsOf()
    ensures WordOctets(24) == [24, 0, 0, 0] && WordOctets(0) == [0, 0, 0, 0]
  {
  }

  lemma MessageWords()
    ensures BlockWords(Padded(ABC)) == WORDS
  {
    hide Padded;
    Padding();
    WordsAre();
    var b := Padded(ABC);
    assert b[0] == 0x61 && b[1] == 0x62 && b[2] == 0x63 && b[3] == 0x80 && b[56] == 24;
    assert forall i | 4 <= i < 64 && i != 56 :: b[i] == 0;
    forall i: nat | i < 16 ensures LeWord(b, 4 * i) == WORDS[i] {
      WhichWord(i);
    }
  }

  lemma WhichWord(i: nat)
    requires i < 16
    ensures WORDS[i] == if i == 0 then 0x80636261 else if i == 14 then 24 else 0
  {
    WordsAre();
  }

  /** The digest of abc, as the RFC gives it. */
  lemma DigestOfAbc()
    ensures Digest(ABC) ==
      [0x90, 0x01, 0x50, 0x98, 0x3c, 0xd2, 0x4f, 0xb0,
       0xd6, 0x96, 0x3f, 0x7d, 0x28, 0xe1, 0x7f, 0x72]
  {
    hide Operations, Padded, BlockWords;
    Padding();
    MessageWords();
    Operations64();
    FoldOfOne(INIT, Padded(ABC));
  }
}
