/** A hash that takes a message block by block: what is left over of the message
    between two blocks, and what the blocks come to. */
module BlockStream {
  import opened Octets

  /** The state after the first `n` blocks of a message. */
  function Absorbed<R>(f: (R, Bytes) -> R, init: R, m: Bytes, n: nat): R
    requires n * 64 <= |m|
    decreases n
  {
    if n == 0 then init else f(Absorbed(f, init, m, n - 1), m[(n - 1) * 64..n * 64])
  }

  lemma DropConcat<T>(a: seq<T>, b: seq<T>, i: nat)
    requires i <= |a|
    ensures (a + b)[i..] == a[i..] + b
  {
  }

  lemma SliceConcat<T>(a: seq<T>, b: seq<T>, i: nat, j: nat)
    requires i <= j <= |a|
    ensures (a + b)[i..j] == a[i..j]
  {
  }

  lemma NothingFirst<T>(s: seq<T>)
    ensures [] + s == s
  {
  }

  lemma SliceDrop<T>(s: seq<T>, i: nat, n: nat)
    requires i + n <= |s|
    ensures s[i..][..n] == s[i..i + n] && s[i..][n..] == s[i + n..] && |s[i..]| == |s| - i
  {
  }

  lemma TakeAll<T>(s: seq<T>)
    ensures s[..|s|] == s
  {
  }

  /** What comes after its blocks makes no difference. */
  lemma {:induction false} AbsorbedPrefix<R>(f: (R, Bytes) -> R, init: R, m: Bytes, more: Bytes, n: nat)
    requires n * 64 <= |m|
    ensures Absorbed(f, init, m + more, n) == Absorbed(f, init, m, n)
    decreases n
  {
    if n > 0 {
      AbsorbedPrefix(f, init, m, more, n - 1);
      SliceConcat(m, more, (n - 1) * 64, n * 64);
    }
  }

  lemma AbsorbedNext<R>(f: (R, Bytes) -> R, init: R, m: Bytes, n: nat)
    requires (n + 1) * 64 <= |m|
    ensures Absorbed(f, init, m, n + 1) == f(Absorbed(f, init, m, n), m[n * 64..(n + 1) * 64])
  {
  }

  /** `count` blocks of the whole were processed, and the content from `idx` on is
      the rest of it. */
  ghost predicate AllTaken(total: Bytes, count: nat, content: Bytes, idx: nat) {
    idx <= |content| && count * 64 <= |total| && content[idx..] == total[count * 64..]
  }

  lemma LeftOver<R>(f: (R, Bytes) -> R, init: R, message: Bytes, count: nat, buf: Bytes, more: Bytes)
    requires |message| == count * 64 + |buf| && buf == message[count * 64..]
    ensures AllTaken(message + more, count, if buf != [] then buf + more else more, 0)
    ensures Absorbed(f, init, message + more, count) == Absorbed(f, init, message, count)
  {
    AbsorbedPrefix(f, init, message, more, count);
    DropConcat(message, more, count * 64);
    NothingFirst(more);
    hide Absorbed;
  }

  lemma Slices(a: Bytes, b: Bytes, i: nat, j: nat)
    requires i + 64 <= |a| && j <= |b| && a[i..] == b[j..]
    ensures j + 64 <= |b| && a[i..i + 64] == b[j..j + 64] && a[i + 64..] == b[j + 64..]
  {
    assert |a[i..]| == |b[j..]|;
    SliceDrop(a, i, 64);
    SliceDrop(b, j, 64);
  }

  lemma NextBlock<R>(f: (R, Bytes) -> R, init: R, total: Bytes, count: nat, content: Bytes, idx: nat)
    requires AllTaken(total, count, content, idx) && idx + 64 <= |content|
    ensures AllTaken(total, count + 1, content, idx + 64)
    ensures |content[idx..idx + 64]| == 64
    ensures Absorbed(f, init, total, count + 1) == f(Absorbed(f, init, total, count), content[idx..idx + 64])
  {
    var done := count * 64;
    assert done + 64 == (count + 1) * 64;
    Slices(content, total, idx, done);
    hide Absorbed;
    AbsorbedNext(f, init, total, count);
  }

  /** The last one or two blocks of a whole message. */
  lemma LastBlock<R>(f: (R, Bytes) -> R, init: R, all: Bytes, count: nat, block: Bytes)
    requires |all| == count * 64 + |block| && all[count * 64..] == block && |block| == 64
    ensures Absorbed(f, init, all, count + 1) == f(Absorbed(f, init, all, count), block)
  {
    AbsorbedNext(f, init, all, count);
    SliceDrop(all, count * 64, 64);
    TakeAll(block);
    hide *;
  }

  lemma LastTwo<R>(f: (R, Bytes) -> R, init: R, all: Bytes, count: nat, block: Bytes)
    requires |all| == count * 64 + |block| && all[count * 64..] == block && |block| == 128
    ensures Absorbed(f, init, all, count + 2) == f(f(Absorbed(f, init, all, count), block[..64]), block[64..])
  {
    hide *;
    AbsorbedNext(f, init, all, count);
    SliceDrop(all, count * 64, 64);
    LastBlock(f, init, all, count + 1, block[64..]);
  }
}
