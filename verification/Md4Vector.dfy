/** The digest of "abc" by section 3 of RFC 1320, step by step: what the test suite
    in its section A.5 says it is. */
module Md4Vector {
  import opened Sequences
  import opened Octets
  import opened BlockStream
  import opened Md4Padding
  import opened Md4Block
  import opened Md4

  const ABC: Bytes := [0x61, 0x62, 0x63]

  /** Its one block as words: the text and a one bit, and the length in bits. */
  predicate IsAbc(x: seq<Word>) {
    |x| == 16 && x[0] == 0x80636261 && x[14] == 24 && forall i :: 0 < i < 16 && i != 14 ==> x[i] == 0
  }

  /** What one step puts into the register that it works on. */
  function OneStep(round: nat, r: Word, s: Word, t: Word, u: Word, w: Word, shift: Shift): Word
    requires 1 <= round <= 3
  {
    Rotated(Plus(Plus(r, RoundFunction(round, s, t, u)), w), shift)
  }

  /** The n-th word that the round takes, and the shift of the n-th step. */
  predicate Uses(round: nat, x: seq<Word>, n: nat, w: Word, shift: Shift)
    requires 1 <= round <= 3 && |x| == 16 && n < 16
  {
    w == x[Index(round, n)] && shift == ShiftOf(round, n)
  }

  lemma NextA(round: nat, start: seq<Word>, x: seq<Word>, n: nat, a: Word, b: Word, c: Word, d: Word, w: Word,
              shift: Shift)
    requires 1 <= round <= 3 && |start| == 4 && |x| == 16 && n < 16 && Register(n) == 0
    requires Uses(round, x, n, w, shift) && Round(round, start, x, n) == [a, b, c, d]
    ensures Round(round, start, x, n + 1) == [OneStep(round, a, b, c, d, w, shift), b, c, d]
  {
    hide Rotated;
    hide RoundFunction;
    hide Plus;
  }

  lemma NextD(round: nat, start: seq<Word>, x: seq<Word>, n: nat, a: Word, b: Word, c: Word, d: Word, w: Word,
              shift: Shift)
    requires 1 <= round <= 3 && |start| == 4 && |x| == 16 && n < 16 && Register(n) == 3
    requires Uses(round, x, n, w, shift) && Round(round, start, x, n) == [a, b, c, d]
    ensures Round(round, start, x, n + 1) == [a, b, c, OneStep(round, d, a, b, c, w, shift)]
  {
    hide Rotated;
    hide RoundFunction;
    hide Plus;
  }

  lemma NextC(round: nat, start: seq<Word>, x: seq<Word>, n: nat, a: Word, b: Word, c: Word, d: Word, w: Word,
              shift: Shift)
    requires 1 <= round <= 3 && |start| == 4 && |x| == 16 && n < 16 && Register(n) == 2
    requires Uses(round, x, n, w, shift) && Round(round, start, x, n) == [a, b, c, d]
    ensures Round(round, start, x, n + 1) == [a, b, OneStep(round, c, d, a, b, w, shift), d]
  {
    hide Rotated;
    hide RoundFunction;
    hide Plus;
  }

  lemma NextB(round: nat, start: seq<Word>, x: seq<Word>, n: nat, a: Word, b: Word, c: Word, d: Word, w: Word,
              shift: Shift)
    requires 1 <= round <= 3 && |start| == 4 && |x| == 16 && n < 16 && Register(n) == 1
    requires Uses(round, x, n, w, shift) && Round(round, start, x, n) == [a, b, c, d]
    ensures Round(round, start, x, n + 1) == [a, OneStep(round, b, c, d, a, w, shift), c, d]
  {
    hide Rotated;
    hide RoundFunction;
    hide Plus;
  }

  lemma RegistersAre(n: nat)
    requires n <= 12 && n % 4 == 0
    ensures Register(n) == 0 && Register(n + 1) == 3 && Register(n + 2) == 2 && Register(n + 3) == 1
  {
  }

  lemma LaterRegistersAre(n: nat)
    requires n <= 14 && n % 4 == 2
    ensures Register(n) == 2 && Register(n + 1) == 1
  {
  }

  lemma StepsAD(round: nat, start: seq<Word>, x: seq<Word>, n: nat, a: Word, b: Word, c: Word, d: Word,
                a1: Word, d1: Word, w: Word, v: Word, s0: Shift, s1: Shift)
    requires 1 <= round <= 3 && |start| == 4 && |x| == 16 && n <= 12 && n % 4 == 0
    requires Uses(round, x, n, w, s0) && Uses(round, x, n + 1, v, s1) && Round(round, start, x, n) == [a, b, c, d]
    requires a1 == OneStep(round, a, b, c, d, w, s0) && d1 == OneStep(round, d, a1, b, c, v, s1)
    ensures Round(round, start, x, n + 2) == [a1, b, c, d1]
  {
    RegistersAre(n);
    hide *;
    NextA(round, start, x, n, a, b, c, d, w, s0);
    NextD(round, start, x, n + 1, a1, b, c, d, v, s1);
  }

  lemma StepsCB(round: nat, start: seq<Word>, x: seq<Word>, n: nat, a: Word, b: Word, c: Word, d: Word,
                c1: Word, b1: Word, w: Word, v: Word, s0: Shift, s1: Shift)
    requires 1 <= round <= 3 && |start| == 4 && |x| == 16 && n <= 14 && n % 4 == 2
    requires Uses(round, x, n, w, s0) && Uses(round, x, n + 1, v, s1) && Round(round, start, x, n) == [a, b, c, d]
    requires c1 == OneStep(round, c, d, a, b, w, s0) && b1 == OneStep(round, b, c1, d, a, v, s1)
    ensures Round(round, start, x, n + 2) == [a, b1, c1, d]
  {
    LaterRegistersAre(n);
    hide *;
    NextC(round, start, x, n, a, b, c, d, w, s0);
    NextB(round, start, x, n + 1, a, b, c1, d, v, s1);
  }

  lemma Round1From0Words()
    ensures OneStep(1, 0x67452301, 0xefcdab89, 0x98badcfe, 0x10325476, 0x80636261, 3) == 0x031b1304
    ensures OneStep(1, 0x10325476, 0x031b1304, 0xefcdab89, 0x98badcfe, 0, 7) == 0xee123855
    ensures OneStep(1, 0x98badcfe, 0xee123855, 0x031b1304, 0xefcdab89, 0, 11) == 0xd38454e4
    ensures OneStep(1, 0xefcdab89, 0xd38454e4, 0xee123855, 0x031b1304, 0, 19) == 0xf66d8f45
  {
  }

  lemma Round1From0(start: seq<Word>, x: seq<Word>)
    requires |start| == 4 && IsAbc(x) && Round(1, start, x, 0) == [0x67452301, 0xefcdab89, 0x98badcfe, 0x10325476]
    ensures Round(1, start, x, 4) == [0x031b1304, 0xf66d8f45, 0xd38454e4, 0xee123855]
  {
    Round1From0Words();
    hide Round;
    hide OneStep;
    StepsAD(1, start, x, 0, 0x67452301, 0xefcdab89, 0x98badcfe, 0x10325476,
            0x031b1304, 0xee123855, 0x80636261, 0, 3, 7);
    StepsCB(1, start, x, 2, 0x031b1304, 0xefcdab89, 0x98badcfe, 0xee123855,
            0xd38454e4, 0xf66d8f45, 0, 0, 11, 19);
  }

  lemma Round1From4Words()
    ensures OneStep(1, 0x031b1304, 0xf66d8f45, 0xd38454e4, 0xee123855, 0, 3) == 0xe98a3ac6
    ensures OneStep(1, 0xee123855, 0xe98a3ac6, 0xf66d8f45, 0xd38454e4, 0, 7) == 0x0f435cf0
    ensures OneStep(1, 0xd38454e4, 0x0f435cf0, 0xe98a3ac6, 0xf66d8f45, 0, 11) == 0x97854e65
    ensures OneStep(1, 0xf66d8f45, 0x97854e65, 0x0f435cf0, 0xe98a3ac6, 0, 19) == 0x613b2bc8
  {
  }

  lemma Round1From4(start: seq<Word>, x: seq<Word>)
    requires |start| == 4 && IsAbc(x) && Round(1, start, x, 4) == [0x031b1304, 0xf66d8f45, 0xd38454e4, 0xee123855]
    ensures Round(1, start, x, 8) == [0xe98a3ac6, 0x613b2bc8, 0x97854e65, 0x0f435cf0]
  {
    Round1From4Words();
    hide Round;
    hide OneStep;
    StepsAD(1, start, x, 4, 0x031b1304, 0xf66d8f45, 0xd38454e4, 0xee123855,
            0xe98a3ac6, 0x0f435cf0, 0, 0, 3, 7);
    StepsCB(1, start, x, 6, 0xe98a3ac6, 0xf66d8f45, 0xd38454e4, 0x0f435cf0,
            0x97854e65, 0x613b2bc8, 0, 0, 11, 19);
  }

  lemma Round1From8Words()
    ensures OneStep(1, 0xe98a3ac6, 0x613b2bc8, 0x97854e65, 0x0f435cf0, 0, 3) == 0xc65cc9b7
    ensures OneStep(1, 0x0f435cf0, 0xc65cc9b7, 0x613b2bc8, 0x97854e65, 0, 7) == 0x6e365830
    ensures OneStep(1, 0x97854e65, 0x6e365830, 0xc65cc9b7, 0x613b2bc8, 0, 11) == 0x15d2eef5
    ensures OneStep(1, 0x613b2bc8, 0x15d2eef5, 0x6e365830, 0xc65cc9b7, 0, 19) == 0xa7d13acb
  {
  }

  lemma Round1From8(start: seq<Word>, x: seq<Word>)
    requires |start| == 4 && IsAbc(x) && Round(1, start, x, 8) == [0xe98a3ac6, 0x613b2bc8, 0x97854e65, 0x0f435cf0]
    ensures Round(1, start, x, 12) == [0xc65cc9b7, 0xa7d13acb, 0x15d2eef5, 0x6e365830]
  {
    Round1From8Words();
    hide Round;
    hide OneStep;
    StepsAD(1, start, x, 8, 0xe98a3ac6, 0x613b2bc8, 0x97854e65, 0x0f435cf0,
            0xc65cc9b7, 0x6e365830, 0, 0, 3, 7);
    StepsCB(1, start, x, 10, 0xc65cc9b7, 0x613b2bc8, 0x97854e65, 0x6e365830,
            0x15d2eef5, 0xa7d13acb, 0, 0, 11, 19);
  }

  lemma Round1From12Words()
    ensures OneStep(1, 0xc65cc9b7, 0xa7d13acb, 0x15d2eef5, 0x6e365830, 0, 3) == 0xa299a540
    ensures OneStep(1, 0x6e365830, 0xa299a540, 0xa7d13acb, 0x15d2eef5, 0, 7) == 0x04e19293
    ensures OneStep(1, 0x15d2eef5, 0x04e19293, 0xa299a540, 0xa7d13acb, 0x00000018, 11) == 0x24baadcb
    ensures OneStep(1, 0xa7d13acb, 0x24baadcb, 0x04e19293, 0xa299a540, 0, 19) == 0xda717395
  {
  }

  lemma Round1From12(start: seq<Word>, x: seq<Word>)
    requires |start| == 4 && IsAbc(x) && Round(1, start, x, 12) == [0xc65cc9b7, 0xa7d13acb, 0x15d2eef5, 0x6e365830]
    ensures Round(1, start, x, 16) == [0xa299a540, 0xda717395, 0x24baadcb, 0x04e19293]
  {
    Round1From12Words();
    hide Round;
    hide OneStep;
    StepsAD(1, start, x, 12, 0xc65cc9b7, 0xa7d13acb, 0x15d2eef5, 0x6e365830,
            0xa299a540, 0x04e19293, 0, 0, 3, 7);
    StepsCB(1, start, x, 14, 0xa299a540, 0xa7d13acb, 0x15d2eef5, 0x04e19293,
            0x24baadcb, 0xda717395, 0x00000018, 0, 11, 19);
  }

  lemma Round2From0Words()
    ensures OneStep(2, 0xa299a540, 0xda717395, 0x24baadcb, 0x04e19293, 0x80636261, 3) == 0x1389a66c
    ensures OneStep(2, 0x04e19293, 0x1389a66c, 0xda717395, 0x24baadcb, 0, 5) == 0x43b67f2e
    ensures OneStep(2, 0x24baadcb, 0x43b67f2e, 0x1389a66c, 0xda717395, 0, 9) == 0xdd3d21a5
    ensures OneStep(2, 0xda717395, 0xdd3d21a5, 0x43b67f2e, 0x1389a66c, 0, 13) == 0x228b5116
  {
  }

  lemma Round2From0(start: seq<Word>, x: seq<Word>)
    requires |start| == 4 && IsAbc(x) && Round(2, start, x, 0) == [0xa299a540, 0xda717395, 0x24baadcb, 0x04e19293]
    ensures Round(2, start, x, 4) == [0x1389a66c, 0x228b5116, 0xdd3d21a5, 0x43b67f2e]
  {
    Round2From0Words();
    hide Round;
    hide OneStep;
    StepsAD(2, start, x, 0, 0xa299a540, 0xda717395, 0x24baadcb, 0x04e19293,
            0x1389a66c, 0x43b67f2e, 0x80636261, 0, 3, 5);
    StepsCB(2, start, x, 2, 0x1389a66c, 0xda717395, 0x24baadcb, 0x43b67f2e,
            0xdd3d21a5, 0x228b5116, 0, 0, 9, 13);
  }

  lemma Round2From4Words()
    ensures OneStep(2, 0x1389a66c, 0x228b5116, 0xdd3d21a5, 0x43b67f2e, 0, 3) == 0x8e5c895d
    ensures OneStep(2, 0x43b67f2e, 0x8e5c895d, 0x228b5116, 0xdd3d21a5, 0, 5) == 0x8abf3b85
    ensures OneStep(2, 0xdd3d21a5, 0x8abf3b85, 0x8e5c895d, 0x228b5116, 0, 9) == 0xbd68a784
    ensures OneStep(2, 0x228b5116, 0xbd68a784, 0x8abf3b85, 0x8e5c895d, 0, 13) == 0x4ec68171
  {
  }

  lemma Round2From4(start: seq<Word>, x: seq<Word>)
    requires |start| == 4 && IsAbc(x) && Round(2, start, x, 4) == [0x1389a66c, 0x228b5116, 0xdd3d21a5, 0x43b67f2e]
    ensures Round(2, start, x, 8) == [0x8e5c895d, 0x4ec68171, 0xbd68a784, 0x8abf3b85]
  {
    Round2From4Words();
    hide Round;
    hide OneStep;
    StepsAD(2, start, x, 4, 0x1389a66c, 0x228b5116, 0xdd3d21a5, 0x43b67f2e,
            0x8e5c895d, 0x8abf3b85, 0, 0, 3, 5);
    StepsCB(2, start, x, 6, 0x8e5c895d, 0x228b5116, 0xdd3d21a5, 0x8abf3b85,
            0xbd68a784, 0x4ec68171, 0, 0, 9, 13);
  }

  lemma Round2From8Words()
    ensures OneStep(2, 0x8e5c895d, 0x4ec68171, 0xbd68a784, 0x8abf3b85, 0, 3) == 0xbe6d33db
    ensures OneStep(2, 0x8abf3b85, 0xbe6d33db, 0x4ec68171, 0xbd68a784, 0, 5) == 0x75cb1df4
    ensures OneStep(2, 0xbd68a784, 0x75cb1df4, 0xbe6d33db, 0x4ec68171, 0, 9) == 0x74661d2d
    ensures OneStep(2, 0x4ec68171, 0x74661d2d, 0x75cb1df4, 0xbe6d33db, 0x00000018, 13) == 0x0323e3b7
  {
  }

  lemma Round2From8(start: seq<Word>, x: seq<Word>)
    requires |start| == 4 && IsAbc(x) && Round(2, start, x, 8) == [0x8e5c895d, 0x4ec68171, 0xbd68a784, 0x8abf3b85]
    ensures Round(2, start, x, 12) == [0xbe6d33db, 0x0323e3b7, 0x74661d2d, 0x75cb1df4]
  {
    Round2From8Words();
    hide Round;
    hide OneStep;
    StepsAD(2, start, x, 8, 0x8e5c895d, 0x4ec68171, 0xbd68a784, 0x8abf3b85,
            0xbe6d33db, 0x75cb1df4, 0, 0, 3, 5);
    StepsCB(2, start, x, 10, 0xbe6d33db, 0x4ec68171, 0xbd68a784, 0x75cb1df4,
            0x74661d2d, 0x0323e3b7, 0, 0x00000018, 9, 13);
  }

  lemma Round2From12Words()
    ensures OneStep(2, 0xbe6d33db, 0x0323e3b7, 0x74661d2d, 0x75cb1df4, 0, 3) == 0x7296594c
    ensures OneStep(2, 0x75cb1df4, 0x7296594c, 0x0323e3b7, 0x74661d2d, 0, 5) == 0x4e7e1748
    ensures OneStep(2, 0x74661d2d, 0x4e7e1748, 0x7296594c, 0x0323e3b7, 0, 9) == 0x3dd42422
    ensures OneStep(2, 0x0323e3b7, 0x3dd42422, 0x4e7e1748, 0x7296594c, 0, 13) == 0x8e531b8f
  {
  }

  lemma Round2From12(start: seq<Word>, x: seq<Word>)
    requires |start| == 4 && IsAbc(x) && Round(2, start, x, 12) == [0xbe6d33db, 0x0323e3b7, 0x74661d2d, 0x75cb1df4]
    ensures Round(2, start, x, 16) == [0x7296594c, 0x8e531b8f, 0x3dd42422, 0x4e7e1748]
  {
    Round2From12Words();
    hide Round;
    hide OneStep;
    StepsAD(2, start, x, 12, 0xbe6d33db, 0x0323e3b7, 0x74661d2d, 0x75cb1df4,
            0x7296594c, 0x4e7e1748, 0, 0, 3, 5);
    StepsCB(2, start, x, 14, 0x7296594c, 0x0323e3b7, 0x74661d2d, 0x4e7e1748,
            0x3dd42422, 0x8e531b8f, 0, 0, 9, 13);
  }

  lemma Round3From0Words()
    ensures OneStep(3, 0x7296594c, 0x8e531b8f, 0x3dd42422, 0x4e7e1748, 0x80636261, 3) == 0xfe66819a
    ensures OneStep(3, 0x4e7e1748, 0xfe66819a, 0x8e531b8f, 0x3dd42422, 0, 9) == 0x73824016
    ensures OneStep(3, 0x3dd42422, 0x73824016, 0xfe66819a, 0x8e531b8f, 0, 11) == 0x2f4e3583
    ensures OneStep(3, 0x8e531b8f, 0x2f4e3583, 0x73824016, 0xfe66819a, 0, 15) == 0xfd9fcfeb
  {
  }

  lemma Round3From0(start: seq<Word>, x: seq<Word>)
    requires |start| == 4 && IsAbc(x) && Round(3, start, x, 0) == [0x7296594c, 0x8e531b8f, 0x3dd42422, 0x4e7e1748]
    ensures Round(3, start, x, 4) == [0xfe66819a, 0xfd9fcfeb, 0x2f4e3583, 0x73824016]
  {
    Round3From0Words();
    hide Round;
    hide OneStep;
    StepsAD(3, start, x, 0, 0x7296594c, 0x8e531b8f, 0x3dd42422, 0x4e7e1748,
            0xfe66819a, 0x73824016, 0x80636261, 0, 3, 9);
    StepsCB(3, start, x, 2, 0xfe66819a, 0x8e531b8f, 0x3dd42422, 0x73824016,
            0x2f4e3583, 0xfd9fcfeb, 0, 0, 11, 15);
  }

  lemma Round3From4Words()
    ensures OneStep(3, 0xfe66819a, 0xfd9fcfeb, 0x2f4e3583, 0x73824016, 0, 3) == 0x74a13dc8
    ensures OneStep(3, 0x73824016, 0x74a13dc8, 0xfd9fcfeb, 0x2f4e3583, 0, 9) == 0x99e6af11
    ensures OneStep(3, 0x2f4e3583, 0x99e6af11, 0x74a13dc8, 0xfd9fcfeb, 0, 11) == 0x03f2b578
    ensures OneStep(3, 0xfd9fcfeb, 0x03f2b578, 0x99e6af11, 0x74a13dc8, 0x00000018, 15) == 0x71a2ad97
  {
  }

  lemma Round3From4(start: seq<Word>, x: seq<Word>)
    requires |start| == 4 && IsAbc(x) && Round(3, start, x, 4) == [0xfe66819a, 0xfd9fcfeb, 0x2f4e3583, 0x73824016]
    ensures Round(3, start, x, 8) == [0x74a13dc8, 0x71a2ad97, 0x03f2b578, 0x99e6af11]
  {
    Round3From4Words();
    hide Round;
    hide OneStep;
    StepsAD(3, start, x, 4, 0xfe66819a, 0xfd9fcfeb, 0x2f4e3583, 0x73824016,
            0x74a13dc8, 0x99e6af11, 0, 0, 3, 9);
    StepsCB(3, start, x, 6, 0x74a13dc8, 0xfd9fcfeb, 0x2f4e3583, 0x99e6af11,
            0x03f2b578, 0x71a2ad97, 0, 0x00000018, 11, 15);
  }

  lemma Round3From8Words()
    ensures OneStep(3, 0x74a13dc8, 0x71a2ad97, 0x03f2b578, 0x99e6af11, 0, 3) == 0x798f0b3e
    ensures OneStep(3, 0x99e6af11, 0x798f0b3e, 0x71a2ad97, 0x03f2b578, 0, 9) == 0x3f5d0629
    ensures OneStep(3, 0x03f2b578, 0x3f5d0629, 0x798f0b3e, 0x71a2ad97, 0, 11) == 0xea0ccd51
    ensures OneStep(3, 0x71a2ad97, 0xea0ccd51, 0x3f5d0629, 0x798f0b3e, 0, 15) == 0xacbf46ad
  {
  }

  lemma Round3From8(start: seq<Word>, x: seq<Word>)
    requires |start| == 4 && IsAbc(x) && Round(3, start, x, 8) == [0x74a13dc8, 0x71a2ad97, 0x03f2b578, 0x99e6af11]
    ensures Round(3, start, x, 12) == [0x798f0b3e, 0xacbf46ad, 0xea0ccd51, 0x3f5d0629]
  {
    Round3From8Words();
    hide Round;
    hide OneStep;
    StepsAD(3, start, x, 8, 0x74a13dc8, 0x71a2ad97, 0x03f2b578, 0x99e6af11,
            0x798f0b3e, 0x3f5d0629, 0, 0, 3, 9);
    StepsCB(3, start, x, 10, 0x798f0b3e, 0x71a2ad97, 0x03f2b578, 0x3f5d0629,
            0xea0ccd51, 0xacbf46ad, 0, 0, 11, 15);
  }

  lemma Round3From12Words()
    ensures OneStep(3, 0x798f0b3e, 0xacbf46ad, 0xea0ccd51, 0x3f5d0629, 0, 3) == 0x12bc25a3
    ensures OneStep(3, 0x3f5d0629, 0x12bc25a3, 0xacbf46ad, 0xea0ccd51, 0, 9) == 0x8d405204
    ensures OneStep(3, 0xea0ccd51, 0x8d405204, 0x12bc25a3, 0xacbf46ad, 0, 11) == 0x4f4fe461
    ensures OneStep(3, 0xacbf46ad, 0x4f4fe461, 0x8d405204, 0x12bc25a3, 0, 15) == 0x630a7626
  {
  }

  lemma Round3From12(start: seq<Word>, x: seq<Word>)
    requires |start| == 4 && IsAbc(x) && Round(3, start, x, 12) == [0x798f0b3e, 0xacbf46ad, 0xea0ccd51, 0x3f5d0629]
    ensures Round(3, start, x, 16) == [0x12bc25a3, 0x630a7626, 0x4f4fe461, 0x8d405204]
  {
    Round3From12Words();
    hide Round;
    hide OneStep;
    StepsAD(3, start, x, 12, 0x798f0b3e, 0xacbf46ad, 0xea0ccd51, 0x3f5d0629,
            0x12bc25a3, 0x8d405204, 0, 0, 3, 9);
    StepsCB(3, start, x, 14, 0x12bc25a3, 0xacbf46ad, 0xea0ccd51, 0x8d405204,
            0x4f4fe461, 0x630a7626, 0, 0, 11, 15);
  }

  lemma RoundStart(round: nat, s: seq<Word>, x: seq<Word>)
    requires 1 <= round <= 3 && |s| == 4 && |x| == 16
    ensures Round(round, s, x, 0) == s
  {
  }

  lemma Round1OfAbc(x: seq<Word>)
    requires IsAbc(x)
    ensures Round(1, [0x67452301, 0xefcdab89, 0x98badcfe, 0x10325476], x, 16) ==
              [0xa299a540, 0xda717395, 0x24baadcb, 0x04e19293]
  {
    hide Round;
    var start: seq<Word> := [0x67452301, 0xefcdab89, 0x98badcfe, 0x10325476];
    RoundStart(1, start, x);
    Round1From0(start, x);
    Round1From4(start, x);
    Round1From8(start, x);
    Round1From12(start, x);
  }

  lemma Round2OfAbc(x: seq<Word>)
    requires IsAbc(x)
    ensures Round(2, [0xa299a540, 0xda717395, 0x24baadcb, 0x04e19293], x, 16) ==
              [0x7296594c, 0x8e531b8f, 0x3dd42422, 0x4e7e1748]
  {
    hide Round;
    var start: seq<Word> := [0xa299a540, 0xda717395, 0x24baadcb, 0x04e19293];
    RoundStart(2, start, x);
    Round2From0(start, x);
    Round2From4(start, x);
    Round2From8(start, x);
    Round2From12(start, x);
  }

  lemma Round3OfAbc(x: seq<Word>)
    requires IsAbc(x)
    ensures Round(3, [0x7296594c, 0x8e531b8f, 0x3dd42422, 0x4e7e1748], x, 16) ==
              [0x12bc25a3, 0x630a7626, 0x4f4fe461, 0x8d405204]
  {
    hide Round;
    var start: seq<Word> := [0x7296594c, 0x8e531b8f, 0x3dd42422, 0x4e7e1748];
    RoundStart(3, start, x);
    Round3From0(start, x);
    Round3From4(start, x);
    Round3From8(start, x);
    Round3From12(start, x);
  }

  lemma AbcAdded()
    ensures Added([0x67452301, 0xefcdab89, 0x98badcfe, 0x10325476], [0x12bc25a3, 0x630a7626, 0x4f4fe461, 0x8d405204]) ==
            [0x7a0148a4, 0x52d821af, 0xe80ac15f, 0x9d72a67a]
  {
  }

  lemma WordOfIs(b: Bytes, v: nat)
    requires |b| == 4 && v < 0x1_0000_0000
    requires var b0: int, b1: int, b2: int, b3: int := b[0], b[1], b[2], b[3];
             v == b0 + 256 * b1 + 65536 * b2 + 16777216 * b3
    ensures WordOf(b) == v as Word
  {
  }

  lemma NumberAsWord(n: nat, w: Word)
    requires n == w as nat
    ensures n < 0x1_0000_0000 && n as Word == w
  {
  }

  lemma WordsOfAbc()
    ensures WordOf([0x61, 0x62, 0x63, 0x80]) == 0x80636261
    ensures WordOf([24, 0, 0, 0]) == 24
    ensures WordOf([0, 0, 0, 0]) == 0
  {
    WordOfIs([0x61, 0x62, 0x63, 0x80], 0x80636261);
    WordOfIs([24, 0, 0, 0], 24);
    WordOfIs([0, 0, 0, 0], 0);
    NumberAsWord(0x80636261, 0x80636261);
    NumberAsWord(24, 24);
    NumberAsWord(0, 0);
    hide WordOf;
  }

  /** The octets of the block. */
  predicate BlockIs(all: Bytes) {
    |all| == 64 && all[..4] == [0x61, 0x62, 0x63, 0x80] && all[56] == 24
    && forall i :: 4 <= i < 64 && i != 56 ==> all[i] == 0
  }

  lemma OctetsOfBlock()
    ensures BlockIs(ABC + Padding(3))
  {
    LengthOfAbc();
    var zeros := seq(52, i => 0);
    assert Padding(3) == [0x80] + zeros + [24, 0, 0, 0, 0, 0, 0, 0];
    hide Padding;
    hide LowOctets;
  }

  lemma BlockOfAbc()
    ensures var all := ABC + Padding(3); |all| == 64 && IsAbc(Words(all))
  {
    OctetsOfBlock();
    WordsOfAbc();
    hide Padding;
    hide WordOf;
    var all := ABC + Padding(3);
    forall i | 0 < i < 16 && i != 14 ensures all[4 * i..4 * i + 4] == [0, 0, 0, 0] {
    }
    assert all[4 * 0..4 * 0 + 4] == [0x61, 0x62, 0x63, 0x80];
    assert all[4 * 14..4 * 14 + 4] == [24, 0, 0, 0];
  }

  lemma LengthOfAbc()
    ensures LowOctets(24, 8) == [24, 0, 0, 0, 0, 0, 0, 0]
  {
    assert LowOctets(0, 0) == [];
    assert LowOctets(0, 1) == [0];
    assert LowOctets(0, 2) == [0, 0];
    assert LowOctets(0, 4) == [0, 0, 0, 0] by { assert LowOctets(0, 3) == [0, 0, 0]; }
    assert LowOctets(0, 7) == [0, 0, 0, 0, 0, 0, 0] by {
      assert LowOctets(0, 5) == [0, 0, 0, 0, 0];
      assert LowOctets(0, 6) == [0, 0, 0, 0, 0, 0];
    }
  }

  lemma CompressedAbc(block: Bytes)
    requires |block| == 64 && IsAbc(Words(block))
    ensures Compressed([0x67452301, 0xefcdab89, 0x98badcfe, 0x10325476], block) ==
              [0x7a0148a4, 0x52d821af, 0xe80ac15f, 0x9d72a67a]
  {
    var x := Words(block);
    Round1OfAbc(x);
    Round2OfAbc(x);
    Round3OfAbc(x);
    AbcAdded();
    hide Words;
    hide Round;
    hide Added;
  }

  lemma WordsAsNumbers()
    ensures (0x7a0148a4 as Word) as nat == 0x7a0148a4 && (0x52d821af as Word) as nat == 0x52d821af
    ensures (0xe80ac15f as Word) as nat == 0xe80ac15f && (0x9d72a67a as Word) as nat == 0x9d72a67a
  {
  }

  lemma FourWords()
    ensures LowOctets(0x7a0148a4, 4) == [0xa4, 0x48, 0x01, 0x7a]
    ensures LowOctets(0x52d821af, 4) == [0xaf, 0x21, 0xd8, 0x52]
    ensures LowOctets(0xe80ac15f, 4) == [0x5f, 0xc1, 0x0a, 0xe8]
    ensures LowOctets(0x9d72a67a, 4) == [0x7a, 0xa6, 0x72, 0x9d]
  {
    FourOctets(0x7a0148a4);
    FourOctets(0x52d821af);
    FourOctets(0xe80ac15f);
    FourOctets(0x9d72a67a);
    hide LowOctets;
  }

  lemma OctetsOfAbc()
    ensures OctetsOf(Of([0x7a0148a4, 0x52d821af, 0xe80ac15f, 0x9d72a67a])) ==
            [0xa4, 0x48, 0x01, 0x7a, 0xaf, 0x21, 0xd8, 0x52, 0x5f, 0xc1, 0x0a, 0xe8, 0x7a, 0xa6, 0x72, 0x9d]
  {
    WordsAsNumbers();
    FourWords();
    hide LowOctets;
  }

  /** As section A.5 has it. */
  lemma DigestOfAbc()
    ensures Digest(ABC) ==
            [0xa4, 0x48, 0x01, 0x7a, 0xaf, 0x21, 0xd8, 0x52, 0x5f, 0xc1, 0x0a, 0xe8, 0x7a, 0xa6, 0x72, 0x9d]
  {
    BlockOfAbc();
    OctetsOfAbc();
    assert |ABC| == 3;
    hide *;
    var all := ABC + Padding(|ABC|);
    CompressedAbc(all);
    AfterOfAbc(all);
    DigestIs(ABC, 1);
  }

  lemma AfterOfAbc(all: Bytes)
    requires |all| == 64
               && Compressed([0x67452301, 0xefcdab89, 0x98badcfe, 0x10325476], all) ==
                    [0x7a0148a4, 0x52d821af, 0xe80ac15f, 0x9d72a67a]
    ensures After(all, 1) == Of([0x7a0148a4, 0x52d821af, 0xe80ac15f, 0x9d72a67a])
  {
    hide Compressed;
    assert all[0..64] == all;
    assert After(all, 1) == Next(After(all, 0), all);
  }
}
