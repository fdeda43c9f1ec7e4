/** ldapserver.py's receive loop: messages out of a byte stream that arrives in
    chunks of any size. */
module Framing {
  import opened Options
  import opened Sequences
  import opened Octets
  import opened PureBer
  import opened PureLdap

  /** What is made of a whole frame, by its masked tag and its content: an
      object, nothing for a tag that is not known, or a failure. */
  type Decoder<!M> = (Byte, Bytes) -> Decoded<Option<M>>

  datatype Step<M> = Got(message: M, used: nat) | Skipped(used: nat) | Wait | Fail

  /** berDecodeObject on the buffer, an insufficient-data exception caught. */
  function Decode<M>(d: Decoder<M>, m: Bytes): (r: Step<M>)
    ensures r.Got? || r.Skipped? ==> 2 <= r.used <= |m|
  {
    match ReadFrame(m)
    case NoData => Wait
    case Incomplete(_) => Wait
    case Frame(tag, content, used) =>
      match d(tag, content)
      case Done(found) => if found.Some? then Got(found.value, used) else Skipped(used)
      case Insufficient(_) => Wait
      case Rejected => Fail
      case Beyond => Fail
  }

  /** What was handled, what is left in the buffer, and whether it raised. */
  datatype Received<M> = Received(messages: seq<M>, rest: Bytes, failed: bool)

  /** data_received_async's loop. It ends at a frame whose tag is not known, once
      that is taken out of the buffer. */
  function Receive<M>(d: Decoder<M>, buffer: Bytes): Received<M>
    decreases |buffer|
  {
    match Decode(d, buffer)
    case Wait => Received([], buffer, false)
    case Fail => Received([], buffer, true)
    case Skipped(used) => Received([], buffer[used..], false)
    case Got(message, used) => Before([message], Receive(d, buffer[used..]))
  }

  function Before<M>(ms: seq<M>, r: Received<M>): Received<M> {
    Received(ms + r.messages, r.rest, r.failed)
  }

  lemma BeforeTwice<M>(a: seq<M>, b: seq<M>, r: Received<M>)
    ensures Before(a, Before(b, r)) == Before(a + b, r)
  {
    assert a + (b + r.messages) == a + b + r.messages;
  }

  lemma BeforeNone<M>(r: Received<M>)
    ensures Before([], r) == r
  {
    assert [] + r.messages == r.messages;
  }

  class Receiver<M> {
    const decoder: Decoder<M>
    var buffer: Bytes
    var handled: seq<M>

    constructor (decoder: Decoder<M>)
      ensures this.decoder == decoder && buffer == [] && handled == []
    {
      this.decoder := decoder;
      buffer, handled := [], [];
    }

    method DataReceived(recd: Bytes) returns (raised: bool)
      modifies this
      ensures Before(old(handled), Receive(decoder, old(buffer) + recd)) == Received(handled, buffer, raised)
    {
      buffer := buffer + recd;
      hide Decode;
      while true
        invariant Before(handled, Receive(decoder, buffer)) ==
                  Before(old(handled), Receive(decoder, old(buffer) + recd))
        decreases |buffer|
      {
        var step := Decode(decoder, buffer);
        assert handled + [] == handled;
        match step
        case Wait => return false;
        case Fail => return true;
        case Skipped(used) =>
          buffer := buffer[used..];
          return false;
        case Got(message, used) =>
          BeforeTwice(handled, [message], Receive(decoder, buffer[used..]));
          buffer := buffer[used..];
          handled := handled + [message];
      }
    }
  }

  /** Chunk after chunk, from what is in the buffer. */
  function ReceiveAll<M>(d: Decoder<M>, buffer: Bytes, chunks: seq<Bytes>): Received<M>
    decreases |chunks|
  {
    if chunks == [] then Received([], buffer, false)
    else
      var r := Receive(d, buffer + chunks[0]);
      if r.failed then r else Before(r.messages, ReceiveAll(d, r.rest, chunks[1..]))
  }

  // ------------------------------------------------------ any stream of octets

  /** The octets are left alone until more arrive. */
  predicate Waits<M>(d: Decoder<M>, buffer: Bytes) {
    Decode(d, buffer).Wait?
  }

  /** No complete frame comes after one whose tag is not known. */
  predicate Settles<M>(d: Decoder<M>, buffer: Bytes)
    decreases |buffer|
  {
    match Decode(d, buffer)
    case Wait => true
    case Fail => true
    case Skipped(used) => Waits(d, buffer[used..])
    case Got(_, used) => Settles(d, buffer[used..])
  }

  lemma WaitsIs<M>(d: Decoder<M>, buffer: Bytes)
    ensures Waits(d, buffer) <==> Receive(d, buffer) == Received([], buffer, false)
  {
    hide Decode;
    var step := Decode(d, buffer);
    if step.Skipped? { assert |buffer[step.used..]| < |buffer|; }
  }

  lemma DecodeMore<M>(d: Decoder<M>, a: Bytes, b: Bytes)
    ensures ReadFrame(a).Frame? ==> Decode(d, a + b) == Decode(d, a)
    ensures !ReadFrame(a).Frame? ==> Waits(d, a)
  {
    FrameMore(a, b);
  }

  /** What came first is handled as it would be with what came later, provided
      the loop does not stop short of frames that it could go on with. */
  lemma {:induction false} ReceiveMore<M>(d: Decoder<M>, a: Bytes, b: Bytes)
    requires Settles(d, a + b)
    ensures var r := Receive(d, a);
            if r.failed then Receive(d, a + b).failed && Receive(d, a + b).messages == r.messages
            else
              && Receive(d, a + b) == Before(r.messages, Receive(d, r.rest + b))
              && Settles(d, r.rest + b) && Waits(d, r.rest)
    decreases |a|
  {
    DecodeMore(d, a, b);
    if ReadFrame(a).Frame? {
      hide Decode;
      var step := Decode(d, a);
      if step.Got? {
        assert (a + b)[step.used..] == a[step.used..] + b;
        ReceiveMore(d, a[step.used..], b);
        var r := Receive(d, a[step.used..]);
        if !r.failed {
          BeforeTwice([step.message], r.messages, Receive(d, r.rest + b));
        }
      } else if step.Skipped? {
        assert (a + b)[step.used..] == a[step.used..] + b;
        WaitsIs(d, a[step.used..] + b);
        DecodeMore(d, a[step.used..], b);
        BeforeNone(Receive(d, a[step.used..] + b));
      } else {
        BeforeNone(Receive(d, a + b));
      }
    } else {
      BeforeNone(Receive(d, a + b));
    }
  }

  /** The same messages, and the same octets left over unless it raised. */
  predicate Alike<M(==)>(x: Received<M>, y: Received<M>) {
    x.messages == y.messages && x.failed == y.failed && (!x.failed ==> x.rest == y.rest)
  }

  lemma {:induction false} ChunksAlike<M>(d: Decoder<M>, buffer: Bytes, chunks: seq<Bytes>)
    requires Settles(d, buffer + Flatten(chunks)) && Waits(d, buffer)
    ensures Alike(ReceiveAll(d, buffer, chunks), Receive(d, buffer + Flatten(chunks)))
    decreases |chunks|
  {
    if chunks == [] {
      assert buffer + Flatten(chunks) == buffer;
      WaitsIs(d, buffer);
    } else {
      var more := Flatten(chunks[1..]);
      assert buffer + Flatten(chunks) == buffer + chunks[0] + more;
      ReceiveMore(d, buffer + chunks[0], more);
      var r := Receive(d, buffer + chunks[0]);
      if !r.failed {
        ChunksAlike(d, r.rest, chunks[1..]);
      }
    }
  }

  /** Where the loop stops short of something that it could go on with. */
  lemma {:induction false} StopsShort<M>(d: Decoder<M>, b: Bytes) returns (n: nat)
    requires !Settles(d, b)
    ensures n <= |b| && !Waits(d, b[n..])
    ensures Receive(d, b[..n]) == Received(Receive(d, b).messages, [], false)
    ensures Receive(d, b).rest == b[n..] && !Receive(d, b).failed
    decreases |b|
  {
    var step := Decode(d, b);
    if step.Got? {
      var m := StopsShort(d, b[step.used..]);
      n := step.used + m;
      FrameEnough(b, n);
      assert b[step.used..][m..] == b[n..];
      assert b[..n][step.used..] == b[step.used..][..m];
      assert Decode(d, b[..n]) == step;
    } else {
      n := step.used;
      FrameEnough(b, n);
      assert b[..n][n..] == [];
    }
  }

  /** However a stream is cut into chunks, the same messages are handled in the
      same order and the same octets are left over -- exactly when the loop does
      not meet a frame whose tag it does not know with a complete frame behind
      it: there it stops until more data comes. */
  lemma ChunkIndependence<M>(d: Decoder<M>, b: Bytes)
    ensures Settles(d, b) <==>
            forall chunks: seq<Bytes> :: Flatten(chunks) == b ==> Alike(ReceiveAll(d, [], chunks), Receive(d, b))
  {
    if Settles(d, b) {
      forall chunks: seq<Bytes> | Flatten(chunks) == b ensures Alike(ReceiveAll(d, [], chunks), Receive(d, b)) {
        assert [] + Flatten(chunks) == b;
        ChunksAlike(d, [], chunks);
      }
    } else {
      var n := StopsShort(d, b);
      TwoChunks(d, b, n);
    }
  }

  lemma ReceiveLast<M>(d: Decoder<M>, b: Bytes)
    ensures ReceiveAll(d, [], [b]) == Receive(d, b)
  {
    hide Receive;
    ConcatEmpty(b);
    var r := Receive(d, b);
    ConcatEmpty(r.messages);
    assert [b][1..] == [];
    assert ReceiveAll(d, r.rest, [b][1..]) == Received([], r.rest, false);
  }

  lemma ReceiveTwo<M>(d: Decoder<M>, a: Bytes, b: Bytes)
    requires !Receive(d, a).failed && Receive(d, a).rest == []
    ensures ReceiveAll(d, [], [a, b]) == Before(Receive(d, a).messages, Receive(d, b))
  {
    hide Receive;
    ConcatEmpty(a);
    ReceiveLast(d, b);
    assert [a, b][1..] == [b];
  }

  lemma ConcatEmpty<T>(s: seq<T>)
    ensures s + [] == s && [] + s == s
  {
  }

  lemma BeforeAlike<M>(messages: seq<M>, r: Received<M>, rest: Bytes)
    ensures Alike(Before(messages, r), Received(messages, rest, false)) <==> r == Received([], rest, false)
  {
  }

  lemma FlattenTwo(b: Bytes, n: nat)
    requires n <= |b|
    ensures Flatten([b[..n], b[n..]]) == b
  {
    FlattenOne(b[n..]);
    assert [b[..n], b[n..]][1..] == [b[n..]];
  }

  lemma TwoChunks<M>(d: Decoder<M>, b: Bytes, n: nat)
    requires n <= |b| && !Waits(d, b[n..])
    requires Receive(d, b[..n]) == Received(Receive(d, b).messages, [], false)
    requires Receive(d, b).rest == b[n..] && !Receive(d, b).failed
    ensures Flatten([b[..n], b[n..]]) == b
    ensures !Alike(ReceiveAll(d, [], [b[..n], b[n..]]), Receive(d, b))
  {
    hide *;
    FlattenTwo(b, n);
    WaitsIs(d, b[n..]);
    ReceiveTwo(d, b[..n], b[n..]);
    BeforeAlike(Receive(d, b).messages, Receive(d, b[n..]), b[n..]);
  }

  // ------------------------------------------------------- a stream of messages

  /** One whole frame that decodes to a message. */
  ghost predicate Carries<M>(d: Decoder<M>, e: Bytes, m: M) {
    Decode(d, e) == Got(m, |e|)
  }

  ghost predicate AllCarry<M>(d: Decoder<M>, es: seq<Bytes>, ms: seq<M>) {
    |es| == |ms| && forall i :: 0 <= i < |es| ==> Carries(d, es[i], ms[i])
  }

  /** The first `k` messages were handled, and what of the stream is left over is
      less than the frame of the next one. */
  ghost predicate UpTo<M>(r: Received<M>, es: seq<Bytes>, ms: seq<M>, p: Bytes, k: nat) {
    && k <= |es| == |ms| && !r.failed && r.messages == ms[..k]
    && p == Flatten(es[..k]) + r.rest
    && (if k < |es| then |r.rest| < |es[k]| && r.rest <= es[k] else r.rest == [])
  }

  lemma CutFrame<M>(d: Decoder<M>, e: Bytes, m: M, k: nat)
    requires Carries(d, e, m) && k < |e|
    ensures Waits(d, e[..k])
  {
    FrameMore(e[..k], e[k..]);
    assert e[..k] + e[k..] == e;
  }

  /** Any prefix of the stream of several messages: exactly those that are there
      to their last octet are handled, in order, and the octets of the next one
      stay in the buffer. */
  lemma {:induction false} PrefixReceived<M>(d: Decoder<M>, es: seq<Bytes>, ms: seq<M>, p: Bytes) returns (k: nat)
    requires AllCarry(d, es, ms) && p <= Flatten(es)
    ensures UpTo(Receive(d, p), es, ms, p, k) && Settles(d, p)
    decreases |es|
  {
    if es == [] {
      k := 0;
      assert Decode(d, p).Wait?;
    } else {
      var e := es[0];
      assert Carries(d, e, ms[0]);
      if |p| < |e| {
        k := 0;
        CutFrame(d, e, ms[0], |p|);
        assert p == e[..|p|];
        WaitsIs(d, p);
      } else {
        var q := p[|e|..];
        assert p == e + q;
        assert q <= Flatten(es[1..]);
        DecodeMore(d, e, q);
        k := PrefixReceived(d, es[1..], ms[1..], q);
        NextReceived(d, es, ms, p, k);
        k := k + 1;
      }
    }
  }

  lemma NextReceived<M>(d: Decoder<M>, es: seq<Bytes>, ms: seq<M>, p: Bytes, k: nat)
    requires es != [] && |es| == |ms| && es[0] <= p && Decode(d, p) == Got(ms[0], |es[0]|)
    requires UpTo(Receive(d, p[|es[0]|..]), es[1..], ms[1..], p[|es[0]|..], k)
    ensures UpTo(Receive(d, p), es, ms, p, k + 1)
  {
    assert Receive(d, p) == Before([ms[0]], Receive(d, p[|es[0]|..])) by { hide UpTo; }
    hide Decode;
    hide Receive;
    UpToNext(Receive(d, p[|es[0]|..]), es, ms, p, k);
  }

  lemma UpToNext<M>(r: Received<M>, es: seq<Bytes>, ms: seq<M>, p: Bytes, k: nat)
    requires es != [] && |es| == |ms| && es[0] <= p
    requires UpTo(r, es[1..], ms[1..], p[|es[0]|..], k)
    ensures UpTo(Before([ms[0]], r), es, ms, p, k + 1)
  {
    TakeNext(ms, k);
    FlattenTake(es, k);
    Regroup(es[0], Flatten(es[1..][..k]), r.rest);
    hide Flatten;
    assert p == es[0] + p[|es[0]|..];
  }

  lemma TakeNext<T>(s: seq<T>, k: nat)
    requires k < |s|
    ensures s[..k + 1] == [s[0]] + s[1..][..k]
  {
  }

  lemma FlattenTake(es: seq<Bytes>, k: nat)
    requires k < |es|
    ensures Flatten(es[..k + 1]) == es[0] + Flatten(es[1..][..k])
  {
    assert es[..k + 1][1..] == es[1..][..k];
  }

  lemma Cancel(a: Bytes, x: Bytes, y: Bytes)
    requires a + x == a + y
    ensures x == y
  {
    assert (a + x)[|a|..] == x && (a + y)[|a|..] == y;
  }

  /** The same after any number of chunks of any size. */
  lemma MessagesReceived<M>(d: Decoder<M>, es: seq<Bytes>, ms: seq<M>, chunks: seq<Bytes>) returns (k: nat)
    requires AllCarry(d, es, ms) && Flatten(chunks) <= Flatten(es)
    ensures UpTo(ReceiveAll(d, [], chunks), es, ms, Flatten(chunks), k)
    ensures Flatten(chunks) == Flatten(es) ==> ReceiveAll(d, [], chunks) == Received(ms, [], false)
  {
    k := PrefixReceived(d, es, ms, Flatten(chunks));
    assert [] + Flatten(chunks) == Flatten(chunks);
    ChunksAlike(d, [], chunks);
    if Flatten(chunks) == Flatten(es) {
      AllThere(es, k, ReceiveAll(d, [], chunks).rest);
      assert ms[..|ms|] == ms;
    }
  }

  lemma {:induction false} AllThere(es: seq<Bytes>, k: nat, rest: Bytes)
    requires k <= |es| && Flatten(es) == Flatten(es[..k]) + rest
    requires k < |es| ==> |rest| < |es[k]|
    ensures k == |es|
    decreases k
  {
    if k > 0 {
      FlattenTake(es, k - 1);
      Regroup(es[0], Flatten(es[1..][..k - 1]), rest);
      Cancel(es[0], Flatten(es[1..]), Flatten(es[1..][..k - 1]) + rest);
      AllThere(es[1..], k - 1, rest);
    }
  }

  // ------------------------------------------------------- the server's decoder

  /** How the server decodes a frame, in the context it starts from. */
  function ServerDecoder(): Decoder<Ber> {
    (tag: Byte, content: Bytes) =>
      var c := Lookup(SERVER, tag);
      if c.None? then Done(None)
      else
        match FromBer(c.value, content, Inherit(SERVER))
        case Done(b) => Done(Some(b))
        case Insufficient(missing) => Insufficient(missing)
        case Rejected => Rejected
        case Beyond => Beyond
  }

  lemma ServerDecodes(m: Bytes)
    ensures Decode(ServerDecoder(), m) ==
            match DecodeObject(SERVER, m)
            case Done(one) => if one.used == 0 then Wait else if one.found.Some? then Got(one.found.value, one.used)
                              else Skipped(one.used)
            case Insufficient(_) => Wait
            case Rejected => Fail
            case Beyond => Fail
  {
    hide FromBer;
    hide Lookup;
  }

  ghost predicate IsSearchMessage(m: Ber) {
    m.Message? && m.op.SearchRequest? && IsFilter(m.op.filter) && Fits(|Content(m)|)
  }

  function Canonicals(ms: seq<Ber>): seq<Ber> {
    seq(|ms|, i requires 0 <= i < |ms| => Canonical(ms[i]))
  }

  /** Search request messages sent one after another reach the server, however
      the transport cuts them up: once all octets are there, each was handled
      once, in order, and nothing is left over. */
  lemma SearchMessagesReceived(ms: seq<Ber>, chunks: seq<Bytes>)
    requires forall i :: 0 <= i < |ms| ==> IsSearchMessage(ms[i])
    requires Flatten(chunks) == Flatten(Encoded(ms))
    ensures ReceiveAll(ServerDecoder(), [], chunks) == Received(Canonicals(ms), [], false)
  {
    hide Content;
    hide FromBer;
    hide Canonical;
    var es := Encoded(ms);
    forall i | 0 <= i < |ms| ensures Carries(ServerDecoder(), es[i], Canonicals(ms)[i]) {
      assert IsSearchMessage(ms[i]);
      MessageReads(ms[i]);
      assert es[i] + [] == es[i];
      ServerDecodes(es[i]);
    }
    hide Encode;
    var k := MessagesReceived(ServerDecoder(), es, Canonicals(ms), chunks);
  }

  /** The octets of an object that decodes to `m`, its length in any of its forms. */
  ghost predicate Spells<M>(d: Decoder<M>, e: Bytes, m: M) {
    exists id: Byte, l: Bytes, content: Bytes :: IsSpelling(d, e, m, id, l, content)
  }

  ghost predicate IsSpelling<M>(d: Decoder<M>, e: Bytes, m: M, id: Byte, l: Bytes, content: Bytes) {
    e == [id] + l + content && IsLength(l, |content|) && d(Masked(id), content) == Done(Some(m))
  }

  lemma SpelledCarries<M>(d: Decoder<M>, e: Bytes, m: M)
    requires Spells(d, e, m)
    ensures Carries(d, e, m)
  {
    var id: Byte, l: Bytes, content: Bytes :| IsSpelling(d, e, m, id, l, content);
    FrameReads(id, l, content, []);
    assert e + [] == e;
    hide ReadFrame;
  }

  /** Objects whose lengths are in any of their forms, after any chunks of them. */
  lemma SpelledReceived<M>(d: Decoder<M>, es: seq<Bytes>, ms: seq<M>, chunks: seq<Bytes>) returns (k: nat)
    requires |es| == |ms| && forall i :: 0 <= i < |es| ==> Spells(d, es[i], ms[i])
    requires Flatten(chunks) <= Flatten(es)
    ensures UpTo(ReceiveAll(d, [], chunks), es, ms, Flatten(chunks), k)
    ensures Flatten(chunks) == Flatten(es) ==> ReceiveAll(d, [], chunks) == Received(ms, [], false)
  {
    forall i | 0 <= i < |es| ensures Carries(d, es[i], ms[i]) {
      SpelledCarries(d, es[i], ms[i]);
    }
    hide *;
    k := MessagesReceived(d, es, ms, chunks) by { AllCarryIs(d, es, ms); }
  }

  lemma AllCarryIs<M>(d: Decoder<M>, es: seq<Bytes>, ms: seq<M>)
    requires |es| == |ms| && forall i :: 0 <= i < |es| ==> Carries(d, es[i], ms[i])
    ensures AllCarry(d, es, ms)
  {
  }

  /** Search request messages whose senders write lengths in whatever form. */
  lemma SearchMessagesSpelled(ms: seq<Ber>, ls: seq<Bytes>, es: seq<Bytes>, chunks: seq<Bytes>)
    requires |ls| == |es| == |ms|
    requires forall i :: 0 <= i < |ms| ==>
               IsSearchMessage(ms[i]) && IsLength(ls[i], |Content(ms[i])|) && es[i] == [0x30] + ls[i] + Content(ms[i])
    requires Flatten(chunks) == Flatten(es)
    ensures ReceiveAll(ServerDecoder(), [], chunks) == Received(Canonicals(ms), [], false)
  {
    hide Content;
    hide FromBer;
    hide Canonical;
    hide IsLength;
    forall i | 0 <= i < |ms| ensures Carries(ServerDecoder(), es[i], Canonicals(ms)[i]) {
      assert IsSearchMessage(ms[i]);
      MessageSpelled(ms[i], ls[i]);
      assert es[i] + [] == es[i];
      ServerDecodes(es[i]);
    }
    var k := MessagesReceived(ServerDecoder(), es, Canonicals(ms), chunks);
  }

  const NOISE: Bytes := [0x04, 0x00]

  lemma NoiseSkipped(more: Bytes)
    ensures Decode(ServerDecoder(), NOISE + more) == Skipped(2) && (NOISE + more)[2..] == more
  {
    var none: Bytes := [];
    assert Int2Ber(0, false) == [0];
    assert Fits(0) && Tlv(0x04, none) == NOISE;
    FrameBack(0x04, none, more);
    assert Lookup(SERVER, 0x04) == None;
    hide ReadFrame;
    hide FromBer;
  }

  /** A frame the server does not know, in one piece with the message after it,
      leaves the message in the buffer; the same octets in two pieces do not. */
  lemma NoiseMakesADifference(m: Ber)
    requires IsSearchMessage(m)
    ensures ReceiveAll(ServerDecoder(), [], [NOISE + Encode(m)]) == Received([], Encode(m), false)
    ensures ReceiveAll(ServerDecoder(), [], [NOISE, Encode(m)]) == Received([Canonical(m)], [], false)
  {
    var e := Encode(m);
    assert e + [] == e && NOISE + [] == NOISE;
    NoiseSkipped(e);
    NoiseSkipped([]);
    MessageReads(m);
    ServerDecodes(e);
    hide *;
    NoiseInOne(ServerDecoder(), e);
    NoiseInTwo(ServerDecoder(), e, Canonical(m));
  }

  lemma NoiseInOne<M>(d: Decoder<M>, e: Bytes)
    requires Decode(d, NOISE + e) == Skipped(2) && (NOISE + e)[2..] == e
    ensures ReceiveAll(d, [], [NOISE + e]) == Received([], e, false)
  {
    var chunks := [NOISE + e];
    hide Decode;
    var none: seq<Bytes> := [];
    assert chunks[1..] == none && [] + (NOISE + e) == NOISE + e;
    assert Receive(d, NOISE + e) == Received([], e, false);
    assert ReceiveAll(d, e, chunks[1..]) == Received([], e, false);
    BeforeNone<M>(ReceiveAll(d, e, chunks[1..]));
  }

  lemma NoiseInTwo<M>(d: Decoder<M>, e: Bytes, m: M)
    requires Decode(d, NOISE) == Skipped(2) && Decode(d, e) == Got(m, |e|)
    ensures ReceiveAll(d, [], [NOISE, e]) == Received([m], [], false)
  {
    var chunks := [NOISE, e];
    assert e[|e|..] == [] && NOISE[2..] == [];
    assert Decode(d, []).Wait?;
    hide Decode;
    var none: seq<Bytes> := [];
    assert chunks[1..] == [e] && chunks[1..][1..] == none;
    assert [] + NOISE == NOISE && [] + e == e;
    assert Receive(d, NOISE) == Received([], [], false);
    assert Receive(d, e) == Received([m], [], false);
    assert ReceiveAll(d, [], chunks[1..]) == Before([m], ReceiveAll(d, [], none)) == Received([m], [], false);
    BeforeNone<M>(ReceiveAll(d, [], chunks[1..]));
  }
}
