/** samba/_passlib/_md4.py: MD4 over content that comes in pieces, against the
    digest of section 3 of RFC 1320, which is of the whole message at once. */
module Md4 {
  import opened Sequences
  import opened Octets
  import opened BlockStream
  import opened Md4Padding
  import opened Md4Block

  /** The registers after the first `n` blocks of a message. */
  function After(m: Bytes, n: nat): Registers
    requires n * 64 <= |m|
  {
    Absorbed(Next, INITIAL, m, n)
  }

  function Digest(message: Bytes): Bytes {
    var all := message + Padding(|message|);
    OctetsOf(After(all, |all| / 64))
  }

  lemma EndsValid(h: Hash, content: Bytes, idx: nat)
    requires h.state.Length == 4 && AllTaken(h.message, h.count, content, idx) && idx + 64 > |content|
    requires h.buf == content[idx..] && h.Now() == After(h.message, h.count)
    ensures h.Valid()
  {
    hide After;
  }

  lemma Starts(message: Bytes, count: nat, buf: Bytes, more: Bytes)
    requires |message| == count * 64 + |buf| && buf == message[count * 64..]
    ensures AllTaken(message + more, count, if buf != [] then buf + more else more, 0)
    ensures After(message + more, count) == After(message, count)
  {
    hide Next;
    LeftOver(Next, INITIAL, message, count, buf, more);
  }

  lemma Continues(total: Bytes, count: nat, content: Bytes, idx: nat)
    requires AllTaken(total, count, content, idx) && idx + 64 <= |content|
    ensures AllTaken(total, count + 1, content, idx + 64)
    ensures |content[idx..idx + 64]| == 64
    ensures After(total, count + 1) == Next(After(total, count), content[idx..idx + 64])
  {
    hide Next;
    NextBlock(Next, INITIAL, total, count, content, idx);
  }

  lemma Padded(message: Bytes, count: nat, buf: Bytes, block: Bytes)
    requires |message| == count * 64 + |buf| && |buf| < 64 && buf == message[count * 64..]
    requires block == buf + Padding(|message|)
    ensures var all := message + Padding(|message|);
            && all[count * 64..] == block && |all| == count * 64 + |block|
            && (|block| == 64 || |block| == 128)
            && After(all, count) == After(message, count)
  {
    hide *;
    PadSize(count, buf);
    DropConcat(message, Padding(|message|), count * 64);
    AfterPrefix(message, Padding(|message|), count);
  }

  lemma PadSize(count: nat, buf: Bytes)
    requires |buf| < 64
    ensures |buf| + |Padding(count * 64 + |buf|)| == 64 || |buf| + |Padding(count * 64 + |buf|)| == 128
  {
    Rest(count, |buf|);
    PaddingLength(count * 64 + |buf|);
    hide Padding;
  }

  lemma AfterPrefix(m: Bytes, more: Bytes, n: nat)
    requires n * 64 <= |m|
    ensures After(m + more, n) == After(m, n)
  {
    hide Next;
    AbsorbedPrefix(Next, INITIAL, m, more, n);
  }

  lemma DigestIs(message: Bytes, n: nat)
    requires |message + Padding(|message|)| == 64 * n
    ensures Digest(message) == OctetsOf(After(message + Padding(|message|), n))
  {
    hide After;
    hide OctetsOf;
    hide Padding;
  }

  lemma AfterLast(all: Bytes, count: nat, block: Bytes)
    requires |all| == count * 64 + |block| && all[count * 64..] == block
    ensures |block| == 64 ==> After(all, count + 1) == Next(After(all, count), block)
    ensures |block| == 128 ==> After(all, count + 2) == Next(Next(After(all, count), block[..64]), block[64..])
  {
    hide Next;
    if |block| == 64 { LastBlock(Next, INITIAL, all, count, block); }
    if |block| == 128 { LastTwo(Next, INITIAL, all, count, block); }
  }

  /** The one or two blocks that are processed last make the digest. */
  lemma LastBlocks(message: Bytes, count: nat, buf: Bytes, block: Bytes)
    requires |message| == count * 64 + |buf| && |buf| < 64 && buf == message[count * 64..]
    requires block == buf + Padding(|message|)
    ensures |block| == 64 || |block| == 128
    ensures |block| == 64 ==> Digest(message) == OctetsOf(Next(After(message, count), block))
    ensures |block| == 128 ==>
              Digest(message) == OctetsOf(Next(Next(After(message, count), block[..64]), block[64..]))
  {
    var all := message + Padding(|message|);
    hide *;
    Padded(message, count, buf, block);
    AfterLast(all, count, block);
    if |block| == 64 { DigestIs(message, count + 1); }
    if |block| == 128 { DigestIs(message, count + 2); }
  }

  class Hash {
    /** How many blocks were processed. */
    var count: nat
    var state: array<Word>
    /** What is left over of the content, less than a block. */
    var buf: Bytes
    /** All the content there was. */
    ghost var message: Bytes

    ghost function Now(): Registers
      reads this`state, state
      requires state.Length == 4
    {
      Of(state[..])
    }

    ghost predicate Valid()
      reads this, state
    {
      && state.Length == 4 && |buf| < 64
      && |message| == count * 64 + |buf| && buf == message[count * 64..]
      && Now() == After(message, count)
    }

    constructor ()
      ensures Valid() && message == [] && fresh(state)
    {
      count, buf, message := 0, [], [];
      state := new Word[] [0x67452301, 0xefcdab89, 0x98badcfe, 0x10325476];
      new;
      assert Now() == INITIAL;
    }

    method Process(block: Bytes)
      requires state.Length == 4 && |block| == 64
      modifies state
      ensures Now() == Next(old(Now()), block)
    {
      ghost var was := state[..];
      NextIs(was, block);
      ProcessArray(state, block);
    }

    method Update(more: Bytes)
      requires Valid()
      modifies this, state
      ensures Valid() && state == old(state)
      ensures message == old(message) + more
    {
      ghost var total := message + more;
      var content := if buf != [] then buf + more else more;
      Starts(message, count, buf, more);
      hide *;
      var idx := TakeBlocks(content, total);
      buf := content[idx..];
      message := total;
      EndsValid(this, content, idx);
    }

    /** As many blocks as there are in the content. */
    method TakeBlocks(content: Bytes, ghost total: Bytes) returns (idx: nat)
      requires state.Length == 4 && AllTaken(total, count, content, 0) && Now() == After(total, count)
      modifies this`count, state
      ensures idx <= |content| < idx + 64
      ensures AllTaken(total, count, content, idx) && Now() == After(total, count)
    {
      idx := 0;
      hide *;
      while idx + 64 <= |content|
        invariant idx <= |content|
        invariant AllTaken(total, count, content, idx) && Now() == After(total, count)
        decreases |content| - idx
      {
        TakeBlock(content, idx, total);
        idx := idx + 64;
      }
    }

    method TakeBlock(content: Bytes, idx: nat, ghost total: Bytes)
      requires idx + 64 <= |content|
      requires state.Length == 4 && AllTaken(total, count, content, idx) && Now() == After(total, count)
      modifies this`count, state
      ensures AllTaken(total, count, content, idx + 64) && Now() == After(total, count)
    {
      hide *;
      Continues(total, count, content, idx);
      Process(content[idx..idx + 64]);
      count := count + 1;
    }

    method Copy() returns (other: Hash)
      requires Valid()
      ensures fresh(other) && fresh(other.state) && other.Valid()
      ensures other.message == message
    {
      other := new Hash();
      other.count, other.buf, other.message := count, buf, message;
      other.state := CopyOf(state);
      hide After;
    }

    method ProcessTail(block: Bytes)
      requires state.Length == 4 && (|block| == 64 || |block| == 128)
      modifies state
      ensures Now() == if |block| == 64 then Next(old(Now()), block)
                       else Next(Next(old(Now()), block[..64]), block[64..])
    {
      hide *;
      if |block| == 128 {
        Process(block[..64]);
        Process(block[64..]);
      } else {
        Process(block);
      }
    }

    /** digest: the registers are worked on, and put back as they were. */
    method DigestSoFar() returns (out: Bytes)
      requires Valid()
      modifies this`state, state
      ensures Valid() && fresh(state)
      ensures out == Digest(message)
    {
      hide After;
      hide Next;
      hide OctetsOf;
      hide Digest;
      var orig := CopyOf(state);
      ghost var before := Now();
      var bits := count * 512 + |buf| * 8;
      var block := buf + [0x80] + seq((119 - |buf| % 64) % 64, i => 0) +
                   (LowOctets(bits % 0x1_0000_0000, 4) + LowOctets(bits / 0x1_0000_0000 % 0x1_0000_0000, 4));
      assert block == Tail(count, buf);
      hide Tail;
      hide LowOctets;
      TailIs(count, buf);
      LastBlocks(message, count, buf, block);
      ProcessTail(block);
      out := OctetsOf(Registers(state[0], state[1], state[2], state[3]));
      state := orig;
    }
  }

  /** Pieces hashed one after another, with digests taken in between, give the
      digest of the whole. */
  method HashPieces(pieces: seq<Bytes>) returns (outs: seq<Bytes>)
    ensures |outs| == |pieces|
    ensures forall i :: 0 <= i < |pieces| ==> outs[i] == Digest(Flatten(pieces[..i + 1]))
  {
    var h := new Hash();
    outs := [];
    hide *;
    NoPieces(pieces);
    for i := 0 to |pieces|
      invariant h.Valid() && fresh(h) && fresh(h.state)
      invariant h.message == Flatten(pieces[..i]) && |outs| == i
      invariant forall j :: 0 <= j < i ==> outs[j] == Digest(Flatten(pieces[..j + 1]))
    {
      OnePiece(pieces, i);
      h.Update(pieces[i]);
      var out := h.DigestSoFar();
      outs := outs + [out];
    }
  }

  lemma NoPieces(pieces: seq<Bytes>)
    ensures Flatten(pieces[..0]) == []
  {
  }

  lemma OnePiece(pieces: seq<Bytes>, i: nat)
    requires i < |pieces|
    ensures Flatten(pieces[..i + 1]) == Flatten(pieces[..i]) + pieces[i]
  {
    FlattenSnoc(pieces[..i], pieces[i]);
    assert pieces[..i + 1] == pieces[..i] + [pieces[i]];
  }

  /** A copy and what it was copied from go their own ways. */
  method CopyDiverges(common: Bytes, left: Bytes, right: Bytes) returns (a: Bytes, b: Bytes, c: Bytes)
    ensures a == Digest(common + left) && b == Digest(common + right) && c == Digest(common + left)
  {
    hide *;
    var h := new Hash();
    NothingFirst(common);
    h.Update(common);
    var other := h.Copy();
    h.Update(left);
    a := h.DigestSoFar();
    other.Update(right);
    b := other.DigestSoFar();
    c := h.DigestSoFar();
  }
}
