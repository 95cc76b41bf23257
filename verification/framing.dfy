/**
The length-prefixed wire format: EncodeMessage and TryDecodeMessage of
server/src/handler/protobuf_handler.cpp as functions of bytes.  Protobuf itself is a parameter.
*/
module Framing {
  import opened Wrappers
  import opened Buffers

  const HEADER_SIZE: nat := 4
  const MAX_MESSAGE_SIZE: nat := 0x10_0000

  /** Protobuf, seen only through its parser. */
  datatype Codec<E> = Codec(parse: seq<byte> -> Option<E>)

  /** A 32-bit size in network byte order; larger sizes are cut to 32 bits. */
  function Header(n: nat): (h: seq<byte>)
    ensures |h| == HEADER_SIZE
  {
    var w := n % 0x1_0000_0000;
    [w / 0x100_0000, w / 0x1_0000 % 0x100, w / 0x100 % 0x100, w % 0x100]
  }

  function HeaderValue(h: seq<byte>): (n: nat)
    requires |h| >= HEADER_SIZE
    ensures n < 0x1_0000_0000
  {
    (h[0] as int) * 0x100_0000 + (h[1] as int) * 0x1_0000 + (h[2] as int) * 0x100 + h[3] as int
  }

  lemma HeaderRoundTrip(n: nat)
    ensures HeaderValue(Header(n)) == n % 0x1_0000_0000
  {
    var w := n % 0x1_0000_0000;
    assert w / 0x1_0000 == w / 0x100 / 0x100 && w / 0x100_0000 == w / 0x1_0000 / 0x100;
  }

  /** One frame on the wire. */
  function Frame(payload: seq<byte>): seq<byte> {
    Header(|payload|) + payload
  }

  /** Frames one after another. */
  function Wire(payloads: seq<seq<byte>>): seq<byte> {
    if payloads == [] then [] else Frame(payloads[0]) + Wire(payloads[1..])
  }

  lemma {:induction false} WireConcat(a: seq<seq<byte>>, b: seq<seq<byte>>)
    ensures Wire(a + b) == Wire(a) + Wire(b)
  {
    if a == [] {
      assert a + b == b;
    } else {
      assert (a + b)[1..] == a[1..] + b;
      WireConcat(a[1..], b);
    }
  }

  lemma WireAppend(payloads: seq<seq<byte>>, payload: seq<byte>)
    ensures Wire(payloads + [payload]) == Wire(payloads) + Frame(payload)
  {
    WireConcat(payloads, [payload]);
    assert Wire([payload]) == Frame(payload) + [];
  }

  // ---------------------------------------------------------------- decoding

  /** What one attempt finds at the front of the readable bytes; `used` is how many it consumes. */
  datatype Decoded<E> =
    | NeedMore
    | TooLarge(used: nat)
    | Unparseable(used: nat)
    | Message(used: nat, envelope: E)

  function TryDecode<E>(codec: Codec<E>, bytes: seq<byte>): (d: Decoded<E>)
    ensures !d.NeedMore? ==> HEADER_SIZE <= d.used <= |bytes|
  {
    if |bytes| < HEADER_SIZE then NeedMore
    else
      var len := HeaderValue(bytes);
      if len > MAX_MESSAGE_SIZE then TooLarge(HEADER_SIZE)
      else if |bytes| < HEADER_SIZE + len then NeedMore
      else
        match codec.parse(bytes[HEADER_SIZE..HEADER_SIZE + len])
        case None => Unparseable(HEADER_SIZE + len)
        case Some(e) => Message(HEADER_SIZE + len, e)
  }

  /** What a processing pass dispatches and leaves: it stops at the first attempt that yields no message. */
  datatype Pass<E> = Pass(dispatched: seq<E>, rest: seq<byte>, waiting: bool)

  function Drain<E>(codec: Codec<E>, bytes: seq<byte>): (r: Pass<E>)
    ensures |r.rest| <= |bytes|
    decreases |bytes|
  {
    match TryDecode(codec, bytes)
    case NeedMore => Pass([], bytes, true)
    case TooLarge(used) => Pass([], bytes[used..], false)
    case Unparseable(used) => Pass([], bytes[used..], false)
    case Message(used, e) => Before(e, Drain(codec, bytes[used..]))
  }

  function Before<E>(e: E, tail: Pass<E>): Pass<E> {
    tail.(dispatched := [e] + tail.dispatched)
  }

  /** Decoding a frame gives its envelope back and consumes exactly the frame. */
  lemma DecodeFrame<E>(codec: Codec<E>, payload: seq<byte>, more: seq<byte>)
    requires |payload| <= MAX_MESSAGE_SIZE
    ensures TryDecode(codec, Frame(payload) + more) ==
            match codec.parse(payload)
            case None => Unparseable(|Frame(payload)|)
            case Some(e) => Message(|Frame(payload)|, e)
    ensures (Frame(payload) + more)[|Frame(payload)|..] == more
  {
    HeaderRoundTrip(|payload|);
    var bytes := Frame(payload) + more;
    assert bytes[..HEADER_SIZE] == Header(|payload|);
    assert HeaderValue(bytes) == HeaderValue(Header(|payload|));
    assert bytes[HEADER_SIZE..HEADER_SIZE + |payload|] == payload;
  }

  /** A proper prefix of a frame decodes to nothing yet. */
  lemma DecodePartial<E>(codec: Codec<E>, payload: seq<byte>, n: nat)
    requires |payload| <= MAX_MESSAGE_SIZE && n < |Frame(payload)|
    ensures TryDecode(codec, Frame(payload)[..n]) == NeedMore
  {
    HeaderRoundTrip(|payload|);
    var bytes := Frame(payload)[..n];
    if n >= HEADER_SIZE {
      assert bytes[..HEADER_SIZE] == Header(|payload|);
      assert HeaderValue(bytes) == HeaderValue(Header(|payload|));
    }
  }

  /** Bytes that arrive later cannot change what was already decided. */
  lemma DecodeExtends<E>(codec: Codec<E>, bytes: seq<byte>, more: seq<byte>)
    requires !TryDecode(codec, bytes).NeedMore?
    ensures TryDecode(codec, bytes + more) == TryDecode(codec, bytes)
  {
    var len := HeaderValue(bytes);
    assert HeaderValue(bytes + more) == len;
    if len <= MAX_MESSAGE_SIZE {
      assert (bytes + more)[HEADER_SIZE..HEADER_SIZE + len] == bytes[HEADER_SIZE..HEADER_SIZE + len];
    }
  }

  /** The pass over two passes. */
  function Then<E>(first: Pass<E>, second: Pass<E>): Pass<E> {
    second.(dispatched := first.dispatched + second.dispatched)
  }

  lemma ThenBefore<E>(e: E, first: Pass<E>, second: Pass<E>)
    ensures Before(e, Then(first, second)) == Then(Before(e, first), second)
  {
    assert [e] + (first.dispatched + second.dispatched) == ([e] + first.dispatched) + second.dispatched;
  }

  /** A pass over a message is that message and the pass over what follows it, however much follows. */
  lemma DrainMessage<E>(codec: Codec<E>, bytes: seq<byte>, more: seq<byte>, used: nat, e: E)
    requires TryDecode(codec, bytes) == Message(used, e)
    ensures used <= |bytes| && Drain(codec, bytes + more) == Before(e, Drain(codec, bytes[used..] + more))
  {
    DecodeExtends(codec, bytes, more);
    assert (bytes + more)[used..] == bytes[used..] + more;
  }

  /**
  Splitting the input between two passes, for any bytes at all.  After a pass that ended because it needed
  more, the second pass goes on exactly where one pass over everything would.  After a pass that a bad frame
  ended, one pass over everything would have ended there too, with the rest still to do.
  */
  lemma {:induction false} DrainSplits<E>(codec: Codec<E>, bytes: seq<byte>, more: seq<byte>)
    ensures var first := Drain(codec, bytes);
            Drain(codec, bytes + more)
            == if first.waiting then Then(first, Drain(codec, first.rest + more))
               else Pass(first.dispatched, first.rest + more, false)
    decreases |bytes|
  {
    var d := TryDecode(codec, bytes);
    if d.Message? {
      var first := Drain(codec, bytes[d.used..]);
      DrainMessage(codec, bytes, more, d.used, d.envelope);
      DrainSplits(codec, bytes[d.used..], more);
      ThenBefore(d.envelope, first, Drain(codec, first.rest + more));
    } else if !d.NeedMore? {
      DecodeExtends(codec, bytes, more);
      assert (bytes + more)[d.used..] == bytes[d.used..] + more;
    } else {
      assert Drain(codec, bytes) == Pass([], bytes, true);
    }
  }

  // ---------------------------------------------------------------- streams

  /** `k` is the number of frames that have arrived completely in the first `n` bytes. */
  ghost predicate Arrived(payloads: seq<seq<byte>>, n: nat, k: nat) {
    && k <= |payloads| && |Wire(payloads[..k])| <= n
    && (k < |payloads| ==> n < |Wire(payloads[..k + 1])|)
  }

  /** These payloads are of legal size and parse to these envelopes. */
  ghost predicate ParsesTo<E>(codec: Codec<E>, payloads: seq<seq<byte>>, es: seq<E>) {
    |payloads| == |es| && forall i :: 0 <= i < |es| ==>
      |payloads[i]| <= MAX_MESSAGE_SIZE && codec.parse(payloads[i]) == Some(es[i])
  }

  lemma WireTail(payloads: seq<seq<byte>>, k: nat)
    requires payloads != [] && k < |payloads|
    ensures Wire(payloads[..k + 1]) == Frame(payloads[0]) + Wire(payloads[1..][..k])
  {
    assert payloads[..k + 1][1..] == payloads[1..][..k];
  }

  lemma ArrivedNone(payloads: seq<seq<byte>>, n: nat)
    requires n <= |Wire(payloads)| && (payloads == [] || n < |Frame(payloads[0])|)
    ensures Arrived(payloads, n, 0) && payloads[..0] == [] && Wire(payloads)[|Wire(payloads[..0])|..n] == Wire(payloads)[..n]
  {
    if payloads != [] { WireTail(payloads, 0); }
  }

  lemma ArrivedNext(payloads: seq<seq<byte>>, n: nat, j: nat)
    requires payloads != [] && |Frame(payloads[0])| <= n <= |Wire(payloads)|
    requires Arrived(payloads[1..], n - |Frame(payloads[0])|, j)
    ensures Arrived(payloads, n, j + 1)
  {
    WireTail(payloads, j);
    if j + 1 < |payloads| { WireTail(payloads, j + 1); }
  }

  lemma SuffixNext(payloads: seq<seq<byte>>, n: nat, j: nat)
    requires payloads != [] && j + 1 <= |payloads| && |Wire(payloads[..j + 1])| <= n <= |Wire(payloads)|
    ensures |Wire(payloads[..j + 1])| == |Frame(payloads[0])| + |Wire(payloads[1..][..j])|
    ensures Wire(payloads)[|Wire(payloads[..j + 1])|..n]
            == Wire(payloads[1..])[|Wire(payloads[1..][..j])|..n - |Frame(payloads[0])|]
  {
    WireTail(payloads, j);
    DropHead(Frame(payloads[0]), Wire(payloads[1..]), |Wire(payloads[1..][..j])|, n - |Frame(payloads[0])|);
  }

  lemma DropHead(head: seq<byte>, tail: seq<byte>, i: nat, j: nat)
    requires i <= j <= |tail|
    ensures (head + tail)[|head| + i..|head| + j] == tail[i..j]
  {
  }

  lemma DrainShort<E>(codec: Codec<E>, payloads: seq<seq<byte>>, n: nat)
    requires n <= |Wire(payloads)|
    requires payloads == [] || (|payloads[0]| <= MAX_MESSAGE_SIZE && n < |Frame(payloads[0])|)
    ensures Drain(codec, Wire(payloads)[..n]) == Pass([], Wire(payloads)[..n], true)
  {
    if payloads != [] {
      assert Wire(payloads)[..n] == Frame(payloads[0])[..n];
      DecodePartial(codec, payloads[0], n);
    }
  }

  /** A pass over the first `n` bytes of a stream dispatches the frames that arrived and keeps the rest. */
  lemma {:induction false} DrainStream<E>(codec: Codec<E>, payloads: seq<seq<byte>>, es: seq<E>, n: nat)
    returns (k: nat)
    requires ParsesTo(codec, payloads, es) && n <= |Wire(payloads)|
    ensures Arrived(payloads, n, k)
    ensures Drain(codec, Wire(payloads)[..n]) == Pass(es[..k], Wire(payloads)[|Wire(payloads[..k])|..n], true)
    decreases |payloads|
  {
    if payloads == [] || n < |Frame(payloads[0])| {
      k := 0;
      ArrivedNone(payloads, n);
      DrainShort(codec, payloads, n);
    } else {
      k := DrainStream(codec, payloads[1..], es[1..], n - |Frame(payloads[0])|);
      DrainStreamStep(codec, payloads, es, n, k);
      k := k + 1;
    }
  }

  lemma DrainStreamStep<E>(codec: Codec<E>, payloads: seq<seq<byte>>, es: seq<E>, n: nat, j: nat)
    requires ParsesTo(codec, payloads, es) && payloads != [] && |Frame(payloads[0])| <= n <= |Wire(payloads)|
    requires Arrived(payloads[1..], n - |Frame(payloads[0])|, j)
    requires Drain(codec, Wire(payloads[1..])[..n - |Frame(payloads[0])|])
             == Pass(es[1..][..j], Wire(payloads[1..])[|Wire(payloads[1..][..j])|..n - |Frame(payloads[0])|], true)
    ensures Arrived(payloads, n, j + 1)
    ensures Drain(codec, Wire(payloads)[..n]) == Pass(es[..j + 1], Wire(payloads)[|Wire(payloads[..j + 1])|..n], true)
  {
    ArrivedNext(payloads, n, j);
    SuffixNext(payloads, n, j);
    DrainFirst(codec, payloads, es, n);
    BeforeTake(es, j, Wire(payloads)[|Wire(payloads[..j + 1])|..n]);
  }

  lemma BeforeTake<E>(es: seq<E>, j: nat, rest: seq<byte>)
    requires j < |es|
    ensures Before(es[0], Pass(es[1..][..j], rest, true)) == Pass(es[..j + 1], rest, true)
  {
    assert [es[0]] + es[1..][..j] == es[..j + 1];
  }

  lemma DrainFirst<E>(codec: Codec<E>, payloads: seq<seq<byte>>, es: seq<E>, n: nat)
    requires ParsesTo(codec, payloads, es) && payloads != [] && |Frame(payloads[0])| <= n <= |Wire(payloads)|
    ensures Drain(codec, Wire(payloads)[..n])
            == Before(es[0], Drain(codec, Wire(payloads[1..])[..n - |Frame(payloads[0])|]))
  {
    var more := Wire(payloads[1..])[..n - |Frame(payloads[0])|];
    assert Wire(payloads)[..n] == Frame(payloads[0]) + more;
    DrainFrame(codec, payloads[0], es[0], more);
  }

  lemma DrainFrame<E>(codec: Codec<E>, payload: seq<byte>, e: E, more: seq<byte>)
    requires |payload| <= MAX_MESSAGE_SIZE && codec.parse(payload) == Some(e)
    ensures Drain(codec, Frame(payload) + more) == Before(e, Drain(codec, more))
  {
    DecodeFrame(codec, payload, more);
  }

  /** At most one count fits `Arrived`, so the pass above is determined by the bytes received. */
  lemma ArrivedUnique(payloads: seq<seq<byte>>, n: nat, j: nat, k: nat)
    requires Arrived(payloads, n, j) && Arrived(payloads, n, k)
    ensures j == k
  {
    if j < k { WireGrows(payloads, j + 1, k); } else if k < j { WireGrows(payloads, k + 1, j); }
  }

  lemma WireGrows(payloads: seq<seq<byte>>, j: nat, k: nat)
    requires j <= k <= |payloads|
    ensures |Wire(payloads[..j])| <= |Wire(payloads[..k])|
  {
    assert payloads[..k] == payloads[..j] + payloads[j..k];
    WireConcat(payloads[..j], payloads[j..k]);
  }

  // ---------------------------------------------------------------- unparseable frames

  ghost predicate LegalSizes(payloads: seq<seq<byte>>) {
    forall i :: 0 <= i < |payloads| ==> |payloads[i]| <= MAX_MESSAGE_SIZE
  }

  /** The envelopes of the payloads that parse. */
  function Parseable<E>(codec: Codec<E>, payloads: seq<seq<byte>>): seq<E> {
    if payloads == [] then []
    else match codec.parse(payloads[0])
         case None => Parseable(codec, payloads[1..])
         case Some(e) => [e] + Parseable(codec, payloads[1..])
  }

  /** Every payload that parses comes before every one that does not. */
  ghost predicate BadOnesLast<E>(codec: Codec<E>, payloads: seq<seq<byte>>) {
    forall i, j :: 0 <= i < j < |payloads| && codec.parse(payloads[i]).None? ==> codec.parse(payloads[j]).None?
  }

  /**
  A frame that does not parse ends the pass.  One pass over complete frames therefore dispatches every
  parseable one exactly when no parseable frame comes after an unparseable one.
  */
  lemma {:induction false} PassIsCompleteIff<E>(codec: Codec<E>, payloads: seq<seq<byte>>)
    requires LegalSizes(payloads)
    ensures Drain(codec, Wire(payloads)).dispatched == Parseable(codec, payloads) <==> BadOnesLast(codec, payloads)
    decreases |payloads|
  {
    if payloads != [] {
      PassIsCompleteIff(codec, payloads[1..]);
      DrainFirstAny(codec, payloads);
      CompleteIffStep(codec, payloads, Drain(codec, Wire(payloads[1..])).dispatched);
    }
  }

  /** A parser that refuses the empty payload and reads the first byte of any other. */
  function FirstByte(payload: seq<byte>): Option<byte> {
    if payload == [] then None else Some(payload[0])
  }

  /** A pass that stalls: behind an unparseable frame a complete, parseable one is left waiting. */
  lemma PassCanStall()
    ensures var codec := Codec(FirstByte);
            && Parseable(codec, [[], [5]]) == [5]
            && Drain(codec, Wire([[], [5]])) == Pass([], Frame([5]), false)
  {
    var codec := Codec(FirstByte);
    var none: seq<seq<byte>> := [];
    assert [[], [5]][1..] == [[5]] && [[5]][1..] == none;
    assert Parseable(codec, [[5]]) == [5] + Parseable(codec, none);
    DecodeFrame(codec, [], Wire([[5]]));
    assert Wire([[5]]) == Frame([5]) + [];
  }

  lemma CompleteIffStep<E>(codec: Codec<E>, payloads: seq<seq<byte>>, later: seq<E>)
    requires payloads != []
    requires later == Parseable(codec, payloads[1..]) <==> BadOnesLast(codec, payloads[1..])
    ensures (match codec.parse(payloads[0]) case None => [] case Some(e) => [e] + later) == Parseable(codec, payloads)
            <==> BadOnesLast(codec, payloads)
  {
    var tail := payloads[1..];
    match codec.parse(payloads[0])
    case None =>
      ParseableNone(codec, tail);
      assert forall i :: 0 <= i < |tail| ==> tail[i] == payloads[i + 1];
    case Some(e) =>
      BadOnesLastTail(codec, payloads);
      assert ([e] + later)[1..] == later && ([e] + Parseable(codec, tail))[1..] == Parseable(codec, tail);
  }

  lemma DrainFirstAny<E>(codec: Codec<E>, payloads: seq<seq<byte>>)
    requires payloads != [] && |payloads[0]| <= MAX_MESSAGE_SIZE
    ensures Drain(codec, Wire(payloads)).dispatched ==
            match codec.parse(payloads[0])
            case None => []
            case Some(e) => [e] + Drain(codec, Wire(payloads[1..])).dispatched
  {
    DecodeFrame(codec, payloads[0], Wire(payloads[1..]));
  }

  lemma BadOnesLastTail<E>(codec: Codec<E>, payloads: seq<seq<byte>>)
    requires payloads != [] && codec.parse(payloads[0]).Some?
    ensures BadOnesLast(codec, payloads[1..]) <==> BadOnesLast(codec, payloads)
  {
    var tail := payloads[1..];
    if BadOnesLast(codec, tail) {
      forall i, j | 0 <= i < j < |payloads| && codec.parse(payloads[i]).None? ensures codec.parse(payloads[j]).None? {
        assert tail[i - 1] == payloads[i] && tail[j - 1] == payloads[j];
      }
    }
  }

  lemma {:induction false} ParseableNone<E>(codec: Codec<E>, payloads: seq<seq<byte>>)
    ensures Parseable(codec, payloads) == [] <==> forall i :: 0 <= i < |payloads| ==> codec.parse(payloads[i]).None?
  {
    if payloads != [] {
      ParseableNone(codec, payloads[1..]);
      assert forall i :: 0 < i < |payloads| ==> payloads[i] == payloads[1..][i - 1];
    }
  }
}
