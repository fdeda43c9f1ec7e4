/** samba/_passlib/_md4.py's _process: one block of MD4, by its tables, against
    section 3.4 of RFC 1320. */
module Md4Block {
  import opened Octets
  import opened Md4Padding

  type Word = bv32

  // --------------------------------------------------------- words and octets

  function WordOf(b: Bytes): Word
    requires |b| == 4
  {
    var b0: int, b1: int, b2: int, b3: int := b[0], b[1], b[2], b[3];
    (b0 + 256 * b1 + 65536 * b2 + 16777216 * b3) as Word
  }

  /** A block as sixteen words. */
  function Words(block: Bytes): (x: seq<Word>)
    requires |block| == 64
    ensures |x| == 16
  {
    seq(16, i requires 0 <= i < 16 => WordOf(block[4 * i..4 * i + 4]))
  }

  // ------------------------------------------------- one block, by section 3.4

  function F(x: Word, y: Word, z: Word): Word { (x & y) | (!x & z) }

  function G(x: Word, y: Word, z: Word): Word { (x & y) | (x & z) | (y & z) }

  function H(x: Word, y: Word, z: Word): Word { x ^ y ^ z }

  /** F takes the bits of `y` where those of `x` are set, and of `z` elsewhere. */
  lemma Selects(x: Word, y: Word, z: Word, bits: Word)
    ensures bits & x == bits ==> bits & F(x, y, z) == bits & y
    ensures bits & x == 0 ==> bits & F(x, y, z) == bits & z
  {
  }

  /** G takes what two of the words agree on, bit by bit. */
  lemma Majority(x: Word, y: Word, z: Word, bits: Word)
    ensures bits & x == bits & y ==> bits & G(x, y, z) == bits & x
    ensures bits & x == bits & z ==> bits & G(x, y, z) == bits & x
    ensures bits & y == bits & z ==> bits & G(x, y, z) == bits & y
  {
    AgreedBits(bits & x, bits & y, bits & z);
    assert bits & G(x, y, z) == G(bits & x, bits & y, bits & z);
    hide G;
  }

  lemma AgreedBits(x: Word, y: Word, z: Word)
    ensures G(x, x, z) == x && G(x, y, x) == x && G(x, y, y) == y
  {
    Twice(x, z);
    Twice(x, y);
    Twice(y, x);
    hide *;
  }

  lemma Twice(x: Word, z: Word)
    ensures G(x, x, z) == x && G(x, z, x) == x && G(z, x, x) == x
  {
    assert (x & x) | (x & z) | (x & z) == x;
    assert (x & z) | (x & x) | (z & x) == x;
    assert (z & x) | (z & x) | (x & x) == x;
  }

  /** H is odd where an odd number of them is. */
  lemma Parity(x: Word, y: Word, z: Word)
    ensures H(x, y, z) ^ x ^ y ^ z == 0
  {
  }

  /** Addition modulo 2^32. */
  function Plus(x: Word, y: Word): Word { x + y }

  type Shift = s: nat | 0 < s < 32 witness 1

  function Rotated(t: Word, s: Shift): Word {
    t.RotateLeft(s)
  }

  /** The i-th step of a round works on the register i places before the first. */
  function Register(i: nat): nat {
    (16 - i) % 4
  }

  /** Which word the i-th step of each round takes: in order, by columns, and with
      the bits of the index reversed. */
  function Index(round: nat, i: nat): (k: nat)
    requires 1 <= round <= 3 && i < 16
    ensures k < 16
  {
    if round == 1 then i
    else if round == 2 then i % 4 * 4 + i / 4
    else i % 2 * 8 + i / 2 % 2 * 4 + i / 4 % 2 * 2 + i / 8
  }

  function ShiftOf(round: nat, i: nat): Shift
    requires 1 <= round <= 3
  {
    if round == 1 then [3, 7, 11, 19][i % 4]
    else if round == 2 then [3, 5, 9, 13][i % 4]
    else [3, 9, 11, 15][i % 4]
  }

  function RoundFunction(round: nat, x: Word, y: Word, z: Word): Word
    requires 1 <= round <= 3
  {
    if round == 1 then F(x, y, z) else if round == 2 then Plus(G(x, y, z), 0x5a827999) else Plus(H(x, y, z), 0x6ed9eba1)
  }

  function Mixed(round: nat, s: seq<Word>, a: nat): Word
    requires 1 <= round <= 3 && |s| == 4 && a < 4
  {
    var x, y, z := s[(a + 1) % 4], s[(a + 2) % 4], s[(a + 3) % 4];
    RoundFunction(round, x, y, z)
  }

  function Stepped(round: nat, s: seq<Word>, x: seq<Word>, i: nat): (r: seq<Word>)
    requires 1 <= round <= 3 && |s| == 4 && |x| == 16 && i < 16
    ensures |r| == 4
  {
    var a := Register(i);
    s[a := Rotated(Plus(Plus(s[a], Mixed(round, s, a)), x[Index(round, i)]), ShiftOf(round, i))]
  }

  /** The first `n` steps of a round. */
  function Round(round: nat, s: seq<Word>, x: seq<Word>, n: nat): (r: seq<Word>)
    requires 1 <= round <= 3 && |s| == 4 && |x| == 16 && n <= 16
    ensures |r| == 4
  {
    if n == 0 then s else Stepped(round, Round(round, s, x, n - 1), x, n - 1)
  }

  function Added(s: seq<Word>, t: seq<Word>): (r: seq<Word>)
    requires |s| == |t| == 4
    ensures |r| == 4
  {
    [Plus(s[0], t[0]), Plus(s[1], t[1]), Plus(s[2], t[2]), Plus(s[3], t[3])]
  }

  function Compressed(s: seq<Word>, block: Bytes): (r: seq<Word>)
    requires |s| == 4 && |block| == 64
    ensures |r| == 4
  {
    var x := Words(block);
    Added(s, Round(3, Round(2, Round(1, s, x, 16), x, 16), x, 16))
  }

  lemma AddedAll(was: seq<Word>, s: seq<Word>, now: seq<Word>)
    requires |was| == |s| == |now| == 4 && forall j :: 0 <= j < 4 ==> now[j] == Plus(was[j], s[j])
    ensures now == Added(was, s)
  {
  }

  lemma CompressedIs(was: seq<Word>, block: Bytes, s: seq<Word>)
    requires |was| == 4 && |block| == 64
    requires var x := Words(block); s == Round(3, Round(2, Round(1, was, x, 16), x, 16), x, 16)
    ensures Compressed(was, block) == Added(was, s)
  {
    hide Round;
    hide Words;
    hide Added;
  }

  // ---------------------------------------------------------------- the registers

  /** The four registers between two blocks. */
  datatype Registers = Registers(a: Word, b: Word, c: Word, d: Word)

  const INITIAL := Registers(0x67452301, 0xefcdab89, 0x98badcfe, 0x10325476)

  function AsSeq(r: Registers): (s: seq<Word>)
    ensures |s| == 4
  {
    [r.a, r.b, r.c, r.d]
  }

  function Of(s: seq<Word>): Registers
    requires |s| == 4
  {
    Registers(s[0], s[1], s[2], s[3])
  }

  /** The registers as sixteen octets. */
  function OctetsOf(r: Registers): (o: Bytes)
    ensures |o| == 16
  {
    LowOctets(r.a as nat, 4) + LowOctets(r.b as nat, 4) + LowOctets(r.c as nat, 4) + LowOctets(r.d as nat, 4)
  }

  /** The registers after one more block. */
  function Next(r: Registers, block: Bytes): Registers {
    if |block| == 64 then Of(Compressed(AsSeq(r), block)) else r
  }

  // ------------------------------------------------------------------ the tables

  /** The rows that are applied step by step: four registers, a word and a shift. */
  const ROUND1: seq<seq<nat>> := [
    [0, 1, 2, 3, 0, 3], [3, 0, 1, 2, 1, 7], [2, 3, 0, 1, 2, 11], [1, 2, 3, 0, 3, 19],
    [0, 1, 2, 3, 4, 3], [3, 0, 1, 2, 5, 7], [2, 3, 0, 1, 6, 11], [1, 2, 3, 0, 7, 19],
    [0, 1, 2, 3, 8, 3], [3, 0, 1, 2, 9, 7], [2, 3, 0, 1, 10, 11], [1, 2, 3, 0, 11, 19],
    [0, 1, 2, 3, 12, 3], [3, 0, 1, 2, 13, 7], [2, 3, 0, 1, 14, 11], [1, 2, 3, 0, 15, 19]]

  const ROUND2: seq<seq<nat>> := [
    [0, 1, 2, 3, 0, 3], [3, 0, 1, 2, 4, 5], [2, 3, 0, 1, 8, 9], [1, 2, 3, 0, 12, 13],
    [0, 1, 2, 3, 1, 3], [3, 0, 1, 2, 5, 5], [2, 3, 0, 1, 9, 9], [1, 2, 3, 0, 13, 13],
    [0, 1, 2, 3, 2, 3], [3, 0, 1, 2, 6, 5], [2, 3, 0, 1, 10, 9], [1, 2, 3, 0, 14, 13],
    [0, 1, 2, 3, 3, 3], [3, 0, 1, 2, 7, 5], [2, 3, 0, 1, 11, 9], [1, 2, 3, 0, 15, 13]]

  const ROUND3: seq<seq<nat>> := [
    [0, 1, 2, 3, 0, 3], [3, 0, 1, 2, 8, 9], [2, 3, 0, 1, 4, 11], [1, 2, 3, 0, 12, 15],
    [0, 1, 2, 3, 2, 3], [3, 0, 1, 2, 10, 9], [2, 3, 0, 1, 6, 11], [1, 2, 3, 0, 14, 15],
    [0, 1, 2, 3, 1, 3], [3, 0, 1, 2, 9, 9], [2, 3, 0, 1, 5, 11], [1, 2, 3, 0, 13, 15],
    [0, 1, 2, 3, 3, 3], [3, 0, 1, 2, 11, 9], [2, 3, 0, 1, 7, 11], [1, 2, 3, 0, 15, 15]]

  function Table(round: nat): seq<seq<nat>>
    requires 1 <= round <= 3
  {
    if round == 1 then ROUND1 else if round == 2 then ROUND2 else ROUND3
  }

  predicate RowIs(row: seq<nat>, round: nat, i: nat)
    requires 1 <= round <= 3 && i < 16
  {
    && |row| == 6
    && row[0] == Register(i) && row[1] == (Register(i) + 1) % 4 && row[2] == (Register(i) + 2) % 4
    && row[3] == (Register(i) + 3) % 4 && row[4] == Index(round, i) && row[5] == ShiftOf(round, i)
  }

  /** The tables hold what section 3.4 prescribes. */
  lemma RowsAre(round: nat, i: nat)
    requires 1 <= round <= 3 && i < 16
    ensures |Table(round)| == 16 && RowIs(Table(round)[i], round, i)
  {
    if i < 8 {
      if i < 4 { LowRows(round, i); } else { MoreRows(round, i); }
    } else {
      if i < 12 { HighRows(round, i); } else { LastRows(round, i); }
    }
  }

  lemma LowRows(round: nat, i: nat)
    requires 1 <= round <= 3 && i < 4
    ensures |Table(round)| == 16 && RowIs(Table(round)[i], round, i)
  {
    if i == 0 {} else if i == 1 {} else if i == 2 {} else {}
  }

  lemma MoreRows(round: nat, i: nat)
    requires 1 <= round <= 3 && 4 <= i < 8
    ensures |Table(round)| == 16 && RowIs(Table(round)[i], round, i)
  {
    if i == 4 {} else if i == 5 {} else if i == 6 {} else {}
  }

  lemma HighRows(round: nat, i: nat)
    requires 1 <= round <= 3 && 8 <= i < 12
    ensures |Table(round)| == 16 && RowIs(Table(round)[i], round, i)
  {
    if i == 8 {} else if i == 9 {} else if i == 10 {} else {}
  }

  lemma LastRows(round: nat, i: nat)
    requires 1 <= round <= 3 && 12 <= i < 16
    ensures |Table(round)| == 16 && RowIs(Table(round)[i], round, i)
  {
    if i == 12 {} else if i == 13 {} else if i == 14 {} else {}
  }

  /** A shift to the left and one to the right add up to a rotation. */
  lemma RotationIsSum(t: Word, s: nat)
    requires s in {3, 5, 7, 9, 11, 13, 15, 19}
    ensures (t << s) + (t >> (32 - s)) == t.RotateLeft(s)
  {
    if s == 3 { assert (t << 3) + (t >> 29) == t.RotateLeft(3); }
    else if s == 5 { assert (t << 5) + (t >> 27) == t.RotateLeft(5); }
    else if s == 7 { assert (t << 7) + (t >> 25) == t.RotateLeft(7); }
    else if s == 9 { assert (t << 9) + (t >> 23) == t.RotateLeft(9); }
    else if s == 11 { assert (t << 11) + (t >> 21) == t.RotateLeft(11); }
    else if s == 13 { assert (t << 13) + (t >> 19) == t.RotateLeft(13); }
    else if s == 15 { assert (t << 15) + (t >> 17) == t.RotateLeft(15); }
    else { assert (t << 19) + (t >> 13) == t.RotateLeft(19); }
  }

  lemma RotatedIs(t: Word, s: nat)
    requires s in {3, 5, 7, 9, 11, 13, 15, 19}
    ensures ShiftedBack(t, s) == Rotated(t, s)
  {
    RotationIsSum(t, s);
  }

  lemma ShiftsAre(round: nat, i: nat)
    requires 1 <= round <= 3 && i < 16
    ensures ShiftOf(round, i) in {3, 5, 7, 9, 11, 13, 15, 19}
  {
    var j := i % 4;
    assert j == 0 || j == 1 || j == 2 || j == 3;
  }

  /** The rotation as it is written: the bits pushed out on the left come back on
      the right. */
  function ShiftedBack(t: Word, s: nat): Word
    requires s <= 32
  {
    (t << s) + (t >> (32 - s))
  }

  /** A row of a table is a step of the round. */
  lemma RowSteps(round: nat, row: seq<nat>, s: seq<Word>, x: seq<Word>, i: nat)
    requires 1 <= round <= 3 && i < 16 && RowIs(row, round, i) && |s| == 4 && |x| == 16
    ensures |row| == 6 && row[0] < 4 && row[1] < 4 && row[2] < 4 && row[3] < 4 && row[4] < 16 && row[5] < 32
    ensures var t := Plus(Plus(s[row[0]], RoundFunction(round, s[row[1]], s[row[2]], s[row[3]])), x[row[4]]);
            s[row[0] := ShiftedBack(t, row[5])] == Stepped(round, s, x, i)
  {
    ShiftsAre(round, i);
    hide RoundFunction;
    hide Rotated;
    hide Index;
    hide ShiftOf;
    hide Plus;
    hide ShiftedBack;
    var t := Plus(Plus(s[row[0]], RoundFunction(round, s[row[1]], s[row[2]], s[row[3]])), x[row[4]]);
    RotatedIs(t, row[5]);
  }

  method StepRow(round: nat, row: seq<nat>, s: array<Word>, x: seq<Word>, ghost i: nat)
    requires 1 <= round <= 3 && i < 16 && RowIs(row, round, i) && s.Length == 4 && |x| == 16
    modifies s
    ensures s[..] == Stepped(round, old(s[..]), x, i)
  {
    hide *;
    RowSteps(round, row, s[..], x, i);
    var a, b, c, d, k, shift := row[0], row[1], row[2], row[3], row[4], row[5];
    var t := Plus(Plus(s[a], RoundFunction(round, s[b], s[c], s[d])), x[k]);
    s[a] := ShiftedBack(t, shift);
  }

  method RunRound(round: nat, s: array<Word>, x: seq<Word>)
    requires 1 <= round <= 3 && s.Length == 4 && |x| == 16
    modifies s
    ensures s[..] == Round(round, old(s[..]), x, 16)
  {
    hide *;
    RoundStarts(round, s[..], x);
    for i := 0 to 16
      invariant s[..] == Round(round, old(s[..]), x, i)
    {
      RowsAre(round, i);
      RoundGoesOn(round, old(s[..]), x, i);
      StepRow(round, Table(round)[i], s, x, i);
    }
  }

  lemma RoundStarts(round: nat, s: seq<Word>, x: seq<Word>)
    requires 1 <= round <= 3 && |s| == 4 && |x| == 16
    ensures Round(round, s, x, 0) == s
  {
  }

  lemma RoundGoesOn(round: nat, s: seq<Word>, x: seq<Word>, n: nat)
    requires 1 <= round <= 3 && |s| == 4 && |x| == 16 && n < 16
    ensures Round(round, s, x, n + 1) == Stepped(round, Round(round, s, x, n), x, n)
  {
    hide Stepped;
  }

  method CopyOf(s: array<Word>) returns (t: array<Word>)
    requires s.Length == 4
    ensures fresh(t) && t.Length == 4 && t[..] == s[..]
  {
    t := new Word[4];
    t[0], t[1], t[2], t[3] := s[0], s[1], s[2], s[3];
    SameWords(t[..], s[..]);
  }

  lemma SameWords(s: seq<Word>, t: seq<Word>)
    requires |s| == |t| == 4 && s[0] == t[0] && s[1] == t[1] && s[2] == t[2] && s[3] == t[3]
    ensures s == t
  {
  }

  /** _process, on the array it works on in place. */
  method ProcessArray(state: array<Word>, block: Bytes)
    requires state.Length == 4 && |block| == 64
    modifies state
    ensures state[..] == Compressed(old(state[..]), block)
  {
    hide *;
    var x := Words(block);
    var s := CopyOf(state);
    ghost var was := state[..];
    RunRound(1, s, x);
    RunRound(2, s, x);
    RunRound(3, s, x);
    CompressedIs(was, block, s[..]);
    AddBack(state, s);
  }

  method AddBack(state: array<Word>, s: array<Word>)
    requires state.Length == 4 && s.Length == 4 && s != state
    modifies state
    ensures state[..] == Added(old(state[..]), s[..])
  {
    ghost var was := state[..];
    hide *;
    for i := 0 to 4
      invariant s[..] == old(s[..])
      invariant forall j :: 0 <= j < i ==> state[j] == Plus(was[j], s[j])
      invariant forall j :: i <= j < 4 ==> state[j] == was[j]
    {
      state[i] := Plus(state[i], s[i]);
    }
    AddedAll(was, s[..], state[..]);
  }

  lemma NextIs(s: seq<Word>, block: Bytes)
    requires |s| == 4 && |block| == 64
    ensures Next(Of(s), block) == Of(Compressed(s, block))
  {
    SameWords(s, AsSeq(Of(s)));
    hide Compressed;
  }
}
