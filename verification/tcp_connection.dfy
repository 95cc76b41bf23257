/**
A protobuf connection: `read`, `process`, `write` and the outgoing push queue of
server/src/core/tcp_connection.cpp over the buffers and the framing.

What the service layer answers is a parameter: `respond` maps the envelopes dispatched so far, the
last one being the current request, to the serialised response, or to None where serialising fails.
The outgoing queue is the sequence that MpscQueue is proved to be; other threads link frames into it at
any time, also between two dequeues of one flush.
*/
module Connections {
  import opened Wrappers
  import opened Buffers
  import opened Framing

  datatype ConnType = HTTP | PROTOBUF

  /** "GET ", "POST", "HEAD", "PUT ", "DELE" */
  const HTTP_METHODS: set<seq<byte>> := {
    [71, 69, 84, 32], [80, 79, 83, 84], [72, 69, 65, 68], [80, 85, 84, 32], [68, 69, 76, 69]}

  predicate IsHttpRequest(data: seq<byte>) {
    |data| >= 4 && data[..4] in HTTP_METHODS
  }

  /** No part of a stream of legal frames looks like HTTP: the first length byte is 0. */
  lemma FramesAreNotHttp(payloads: seq<seq<byte>>, n: nat)
    requires LegalSizes(payloads) && n <= |Wire(payloads)|
    ensures !IsHttpRequest(Wire(payloads)[..n])
  {
    if n >= 4 {
      assert Wire(payloads)[..n][0] == Header(|payloads[0]|)[0] == 0;
      assert forall m :: m in HTTP_METHODS ==> m[0] != 0;
    }
  }

  /** The payload, if any, answered to the last of these requests. */
  function Answer<E>(respond: seq<E> -> Option<seq<byte>>, requests: seq<E>): seq<seq<byte>> {
    match respond(requests) case None => [] case Some(p) => [p]
  }

  /** The payloads answered to a run of requests. */
  function Responses<E>(respond: seq<E> -> Option<seq<byte>>, before: seq<E>, requests: seq<E>): seq<seq<byte>>
    decreases |requests|
  {
    if requests == [] then []
    else
      var now := before + [requests[0]];
      Answer(respond, now) + Responses(respond, now, requests[1..])
  }

  /** The requests dispatched and the bytes left are those of one pass over everything received. */
  ghost predicate ReadState<E>(codec: Codec<E>, received: seq<byte>, dispatched: seq<E>, contents: seq<byte>) {
    Drain(codec, received) == Pass(dispatched, contents, true)
  }

  /** Bytes sent, then bytes buffered, are whole frames in the order they were appended. */
  ghost predicate WriteState(sent: seq<byte>, contents: seq<byte>, answered: seq<seq<byte>>) {
    sent + contents == Wire(answered)
  }

  ghost predicate QueueState(outgoing: seq<seq<byte>>, pushes: seq<seq<byte>>) {
    |outgoing| == |pushes| && forall i :: 0 <= i < |pushes| ==> outgoing[i] == Frame(pushes[i])
  }

  lemma AppendFrame(sent: seq<byte>, contents: seq<byte>, answered: seq<seq<byte>>, payload: seq<byte>)
    requires WriteState(sent, contents, answered)
    ensures WriteState(sent, contents + Frame(payload), answered + [payload])
  {
    WireAppend(answered, payload);
  }

  class TcpConnection<E> {
    const codec: Codec<E>
    const respond: seq<E> -> Option<seq<byte>>
    const edgeTriggered: bool
    const readBuff: Buffer
    const writeBuff: Buffer

    var protocolDetermined: bool
    var connType: ConnType
    var outgoing: seq<seq<byte>>   // framed pushes waiting to be written
    var dispatched: seq<E>         // requests handed to the services, oldest first

    ghost var pushes: seq<seq<byte>>         // payloads of the frames in `outgoing`
    ghost var answered: seq<seq<byte>>       // payloads of every frame put into the write buffer
    ghost var sent: seq<byte>                // every byte written to the socket

    ghost predicate Shape()
      reads readBuff, writeBuff
    {
      readBuff != writeBuff && readBuff.Valid() && writeBuff.Valid()
    }

    ghost predicate WriteOk()
      reads this`sent, this`answered, this`outgoing, this`pushes, writeBuff
    {
      && writeBuff.Valid() && WriteState(sent, writeBuff.Contents(), answered)
      && QueueState(outgoing, pushes)
    }

    ghost predicate Valid()
      reads this, readBuff, writeBuff
    {
      Shape() && WriteOk()
    }

    constructor (codec: Codec<E>, respond: seq<E> -> Option<seq<byte>>, edgeTriggered: bool)
      ensures Valid() && fresh(readBuff) && fresh(writeBuff)
      ensures this.codec == codec && this.respond == respond
      ensures !protocolDetermined && readBuff.Contents() == []
      ensures dispatched == [] && outgoing == [] && answered == [] && sent == []
    {
      this.codec, this.respond, this.edgeTriggered := codec, respond, edgeTriggered;
      readBuff := new Buffer();
      writeBuff := new Buffer();
      protocolDetermined, connType, outgoing, dispatched := false, HTTP, [], [];
      pushes, answered, sent := [], [], [];
    }

    /** Reads once, or until nothing is left in edge-triggered mode; `kernel(k)` is what call `k` allows. */
    method Read(pending: seq<byte>, kernel: nat -> int) returns (taken: nat)
      requires Valid()
      modifies readBuff
      ensures Valid() && taken <= |pending|
      ensures readBuff.Contents() == old(readBuff.Contents()) + pending[..taken]
      ensures pending != [] && kernel(0) > 0 ==> taken > 0
      ensures edgeTriggered && (forall k :: kernel(k) > 0) ==> taken == |pending|
    {
      taken := 0;
      var calls := 0;
      while true
        invariant Shape() && taken <= |pending|
        invariant readBuff.Contents() == old(readBuff.Contents()) + pending[..taken]
        invariant calls > 0 ==> taken > 0
        decreases |pending| - taken
      {
        var len := readBuff.ReadFd(pending[taken..], kernel(calls));
        if len <= 0 {
          break;
        }
        calls := calls + 1;
        assert pending[..taken] + pending[taken..][..len] == pending[..taken + len];
        taken := taken + len;
        if !edgeTriggered {
          break;
        }
      }
    }

    /** ProtobufHandler::Process: decode one request, dispatch it, append the response frame. */
    method ProcessOne() returns (ok: bool)
      requires Shape() && WriteOk()
      modifies this`dispatched, this`answered, readBuff, writeBuff
      ensures Shape() && WriteOk()
      ensures var d := TryDecode(codec, old(readBuff.Contents()));
              && ok == d.Message?
              && readBuff.Contents() == (if d.NeedMore? then old(readBuff.Contents()) else old(readBuff.Contents())[d.used..])
              && dispatched == (if ok then old(dispatched) + [d.envelope] else old(dispatched))
              && answered == (if ok then old(answered) + Answer(respond, dispatched) else old(answered))
    {
      var d := TryDecode(codec, readBuff.data[readBuff.readPos..readBuff.writePos]);
      if d.NeedMore? {
        return false;
      }
      readBuff.Retrieve(d.used);
      if !d.Message? {
        return false;
      }
      dispatched := dispatched + [d.envelope];
      var response := respond(dispatched);
      if response.Some? {
        EncodeMessage(response.value);
      }
      return true;
    }

    method EncodeMessage(payload: seq<byte>)
      requires Shape() && WriteOk()
      modifies this`answered, writeBuff
      ensures Shape() && WriteOk() && answered == old(answered) + [payload]
    {
      AppendFrame(sent, writeBuff.Contents(), answered, payload);
      writeBuff.Append(Header(|payload|));
      writeBuff.Append(payload);
      assert writeBuff.Contents() == old(writeBuff.Contents()) + Frame(payload);
      answered := answered + [payload];
    }

    /** Decides the protocol when the first bytes are there, once. */
    method DetermineProtocol()
      requires Shape()
      modifies this`protocolDetermined, this`connType
      ensures protocolDetermined == (old(protocolDetermined) || readBuff.Contents() != [])
      ensures old(protocolDetermined) ==> connType == old(connType)
      ensures !old(protocolDetermined) && protocolDetermined ==>
                connType == if IsHttpRequest(readBuff.Contents()) then HTTP else PROTOBUF
    {
      if !protocolDetermined && readBuff.ReadableBytes() != 0 {
        connType := if IsHttpRequest(readBuff.data[readBuff.readPos..readBuff.writePos]) then HTTP else PROTOBUF;
        protocolDetermined := true;
      }
    }

    /** Decides the protocol, then handles requests until one attempt yields none. */
    method Process() returns (produced: bool, ghost pass: Pass<E>)
      requires Valid()
      modifies this`protocolDetermined, this`connType, this`dispatched, this`answered, readBuff, writeBuff
      ensures Valid()
      ensures protocolDetermined == (old(protocolDetermined) || old(readBuff.Contents()) != [])
      ensures old(protocolDetermined) ==> connType == old(connType)
      ensures !old(protocolDetermined) && protocolDetermined ==>
                connType == if IsHttpRequest(old(readBuff.Contents())) then HTTP else PROTOBUF
      ensures pass == if protocolDetermined && connType == PROTOBUF then Drain(codec, old(readBuff.Contents()))
                      else Pass([], old(readBuff.Contents()), true)
      ensures readBuff.Contents() == pass.rest
      ensures dispatched == old(dispatched) + pass.dispatched
      ensures answered == old(answered) + Responses(respond, old(dispatched), pass.dispatched)
      ensures produced == (pass.dispatched != [])
    {
      DetermineProtocol();
      if protocolDetermined && connType == PROTOBUF {
        produced, pass := DrainRequests();
      } else {
        produced, pass := false, Pass([], readBuff.Contents(), true);
      }
    }

    method DrainRequests() returns (produced: bool, ghost pass: Pass<E>)
      requires Shape() && WriteOk()
      modifies this`dispatched, this`answered, readBuff, writeBuff
      ensures Shape() && WriteOk() && pass == Drain(codec, old(readBuff.Contents()))
      ensures readBuff.Contents() == pass.rest
      ensures dispatched == old(dispatched) + pass.dispatched
      ensures answered == old(answered) + Responses(respond, old(dispatched), pass.dispatched)
      ensures produced == (pass.dispatched != [])
    {
      produced := false;
      var more := true;
      pass := Drain(codec, readBuff.Contents());
      ghost var handled := [];
      while more
        invariant Shape() && WriteOk()
        invariant if more then pass == Prepend(handled, Drain(codec, readBuff.Contents()))
                  else pass.dispatched == handled && pass.rest == readBuff.Contents()
        invariant dispatched == old(dispatched) + handled
        invariant answered == old(answered) + Responses(respond, old(dispatched), handled)
        invariant produced == (handled != [])
        decreases more, |readBuff.Contents()|
      {
        DrainOne(codec, readBuff.Contents(), handled);
        ghost var d := TryDecode(codec, readBuff.Contents());
        more := ProcessOne();
        if more {
          produced := true;
          HandledAppend(respond, old(dispatched), old(answered), handled, d.envelope);
          handled := handled + [d.envelope];
        }
      }
    }

    /** Frames and links one message; the caller is another thread.  An empty message is skipped. */
    method EnqueueMessage(message: seq<byte>)
      requires QueueState(outgoing, pushes)
      modifies this`outgoing, this`pushes
      ensures QueueState(outgoing, pushes) && pushes == old(pushes) + NonEmpty([message])
    {
      assert [message][..0] == [];
      assert NonEmpty([]) == [];
      if message != [] {
        outgoing := outgoing + [Frame(message)];
        pushes := pushes + [message];
      }
    }

    /** Queues pushes in order; each non-empty message becomes one frame. */
    method EnqueueMessages(messages: seq<seq<byte>>)
      requires QueueState(outgoing, pushes)
      modifies this`outgoing, this`pushes
      ensures QueueState(outgoing, pushes) && pushes == old(pushes) + NonEmpty(messages)
    {
      for i := 0 to |messages|
        invariant QueueState(outgoing, pushes) && pushes == old(pushes) + NonEmpty(messages[..i])
      {
        NonEmptyConcat(messages[..i], [messages[i]]);
        assert messages[..i] + [messages[i]] == messages[..i + 1];
        EnqueueMessage(messages[i]);
      }
      assert messages[..|messages|] == messages;
    }

    /**
    Moves queued pushes into the write buffer, oldest first, until a dequeue finds none.  Before dequeue
    number `k` other threads link `arriving[k]`; `seen` tells how many of these there were.
    */
    method FlushPendingToBuffer(arriving: seq<seq<seq<byte>>>) returns (hasData: bool, seen: nat)
      requires Shape() && WriteOk()
      modifies this`outgoing, this`pushes, this`answered, writeBuff
      ensures Shape() && WriteOk() && outgoing == [] && pushes == [] && seen <= |arriving|
      ensures answered == old(answered) + (old(pushes) + Arrivals(arriving[..seen]))
      ensures hasData == (answered != old(answered))
    {
      hide Arrivals, NonEmpty, WriteState, Wire;
      hasData, seen := false, 0;
      NoneLinked(arriving, pushes);
      ghost var linked := pushes;
      var more := true;
      while more
        invariant Shape() && WriteOk() && seen <= |arriving|
        invariant linked == old(pushes) + Arrivals(arriving[..seen])
        invariant answered + pushes == old(answered) + linked
        invariant hasData == (|answered| > |old(answered)|) && |answered| >= |old(answered)|
        invariant !more ==> outgoing == []
        decreases more, |arriving| - seen, |outgoing|
      {
        ghost var was, queued := answered, pushes;
        if seen < |arriving| {
          more := FlushRound(arriving[seen]);
          LinkedMore(arriving, seen, old(pushes), linked);
          LinkedBehind(was, queued, old(answered), linked, NonEmpty(arriving[seen]));
          linked := linked + NonEmpty(arriving[seen]);
          seen := seen + 1;
        } else {
          more := FlushOne();
        }
        hasData := hasData || more;
      }
    }

    /** Other threads link these messages, then one dequeue. */
    method FlushRound(messages: seq<seq<byte>>) returns (got: bool)
      requires Shape() && WriteOk()
      modifies this`outgoing, this`pushes, this`answered, writeBuff
      ensures Shape() && WriteOk() && (!got ==> outgoing == [])
      ensures answered + pushes == old(answered) + (old(pushes) + NonEmpty(messages))
      ensures |answered| == |old(answered)| + (if got then 1 else 0)
    {
      EnqueueMessages(messages);
      got := FlushOne();
    }

    /** One dequeue: the oldest push, if any, goes behind the buffered frames. */
    method FlushOne() returns (got: bool)
      requires Shape() && WriteOk()
      modifies this`outgoing, this`pushes, this`answered, writeBuff
      ensures Shape() && WriteOk() && got == (old(outgoing) != [])
      ensures answered + pushes == old(answered) + old(pushes)
      ensures |outgoing| == |old(outgoing)| - (if got then 1 else 0)
      ensures |answered| == |old(answered)| + (if got then 1 else 0)
    {
      got := outgoing != [];
      if got {
        AppendFrame(sent, writeBuff.Contents(), answered, pushes[0]);
        writeBuff.Append(outgoing[0]);
        answered, pushes := answered + [pushes[0]], pushes[1..];
        outgoing := outgoing[1..];
      }
    }

    /**
    Flushes the pushes and writes until the kernel refuses, the buffer is empty, or, in level-triggered
    mode, little is left.  Call `k` of write returns what `kernel(k)` allows.  What other threads link
    meanwhile is `arriving`: part of it the flush still sees, the rest stays queued, nothing is lost.
    */
    method Write(kernel: nat -> int, arriving: seq<seq<seq<byte>>>) returns (len: int, seen: nat)
      requires Valid()
      modifies this`outgoing, this`pushes, this`answered, this`sent, writeBuff
      ensures Valid() && seen <= |arriving|
      ensures answered == old(answered) + (old(pushes) + Arrivals(arriving[..seen]))
      ensures pushes == Arrivals(arriving[seen..])
      ensures old(sent) <= sent <= Wire(answered)
      ensures |old(sent)| < |Wire(answered)| && kernel(0) > 0 ==> |old(sent)| < |sent|
      ensures edgeTriggered && (forall k :: kernel(k) > 0) ==> sent == Wire(answered)
    {
      var hasData;
      hasData, seen := FlushPendingToBuffer(arriving);
      len := WriteBuffered(kernel);
      LinkLate(arriving[seen..]);
    }

    /** What other threads link after the flush. */
    method LinkLate(late: seq<seq<seq<byte>>>)
      requires QueueState(outgoing, pushes)
      modifies this`outgoing, this`pushes
      ensures QueueState(outgoing, pushes) && pushes == old(pushes) + Arrivals(late)
    {
      for i := 0 to |late|
        invariant QueueState(outgoing, pushes) && pushes == old(pushes) + Arrivals(late[..i])
      {
        ArriveOne(late, i);
        EnqueueMessages(late[i]);
      }
      assert late[..|late|] == late;
    }

    method WriteBuffered(kernel: nat -> int) returns (len: int)
      requires Shape() && WriteState(sent, writeBuff.Contents(), answered)
      modifies this`sent, writeBuff
      ensures Shape() && WriteState(sent, writeBuff.Contents(), answered)
      ensures old(sent) <= sent <= Wire(answered)
      ensures |old(sent)| < |Wire(answered)| && kernel(0) > 0 ==> |old(sent)| < |sent|
      ensures edgeTriggered && (forall k :: kernel(k) > 0) ==> sent == Wire(answered)
    {
      len := -1;
      var calls := 0;
      while writeBuff.ReadableBytes() > 0
        invariant Shape() && WriteState(sent, writeBuff.Contents(), answered) && old(sent) <= sent
        invariant calls > 0 ==> |old(sent)| < |sent|
        decreases |writeBuff.Contents()|
      {
        ghost var buffered := writeBuff.Contents();
        len := writeBuff.WriteFd(kernel(calls));
        if len <= 0 {
          break;
        }
        calls := calls + 1;
        SendPrefix(sent, buffered, answered, len);
        sent := sent + buffered[..len];
        if !edgeTriggered && writeBuff.ReadableBytes() < 10240 {
          break;
        }
      }
    }
  }

  lemma SendPrefix(sent: seq<byte>, contents: seq<byte>, answered: seq<seq<byte>>, len: nat)
    requires WriteState(sent, contents, answered) && len <= |contents|
    ensures WriteState(sent + contents[..len], contents[len..], answered)
  {
    assert sent + contents[..len] + contents[len..] == sent + contents;
  }

  /** The messages that are not empty, in order. */
  function NonEmpty(messages: seq<seq<byte>>): seq<seq<byte>> {
    if messages == [] then []
    else NonEmpty(messages[..|messages| - 1]) + (if messages[|messages| - 1] == [] then [] else [messages[|messages| - 1]])
  }

  lemma {:induction false} NonEmptyConcat(a: seq<seq<byte>>, b: seq<seq<byte>>)
    ensures NonEmpty(a + b) == NonEmpty(a) + NonEmpty(b)
    decreases |b|
  {
    if b == [] {
      assert a + b == a;
    } else {
      NonEmptyConcat(a, b[..|b| - 1]);
      assert (a + b)[..|a + b| - 1] == a + b[..|b| - 1];
    }
  }

  /** Everything linked by these calls, in order. */
  function Arrivals(arriving: seq<seq<seq<byte>>>): seq<seq<byte>> {
    if arriving == [] then [] else Arrivals(arriving[..|arriving| - 1]) + NonEmpty(arriving[|arriving| - 1])
  }

  lemma ArriveOne(arriving: seq<seq<seq<byte>>>, i: nat)
    requires i < |arriving|
    ensures Arrivals(arriving[..i + 1]) == Arrivals(arriving[..i]) + NonEmpty(arriving[i])
  {
    assert arriving[..i + 1][..i] == arriving[..i];
  }

  lemma NoneLinked(arriving: seq<seq<seq<byte>>>, before: seq<seq<byte>>)
    ensures before == before + Arrivals(arriving[..0])
  {
  }

  lemma LinkedMore(arriving: seq<seq<seq<byte>>>, i: nat, before: seq<seq<byte>>, linked: seq<seq<byte>>)
    requires i < |arriving| && linked == before + Arrivals(arriving[..i])
    ensures linked + NonEmpty(arriving[i]) == before + Arrivals(arriving[..i + 1])
  {
    ArriveOne(arriving, i);
    Regroup(before, Arrivals(arriving[..i]), NonEmpty(arriving[i]));
  }

  lemma LinkedBehind(answered: seq<seq<byte>>, pushes: seq<seq<byte>>, before: seq<seq<byte>>, linked: seq<seq<byte>>,
                     more: seq<seq<byte>>)
    requires answered + pushes == before + linked
    ensures answered + (pushes + more) == before + (linked + more)
  {
    Regroup(answered, pushes, more);
    Regroup(before, linked, more);
  }

  lemma {:induction false} ArrivalsConcat(a: seq<seq<seq<byte>>>, b: seq<seq<seq<byte>>>)
    ensures Arrivals(a + b) == Arrivals(a) + Arrivals(b)
    decreases |b|
  {
    if b == [] {
      assert a + b == a;
    } else {
      ArrivalsConcat(a, b[..|b| - 1]);
      assert (a + b)[..|a + b| - 1] == a + b[..|b| - 1];
      Regroup(Arrivals(a), Arrivals(b[..|b| - 1]), NonEmpty(b[|b| - 1]));
    }
  }

  lemma Regroup<T>(a: seq<T>, b: seq<T>, c: seq<T>)
    ensures a + b + c == a + (b + c)
  {
  }

  /** Passing over the buffer after reading more continues the pass over everything received. */
  lemma ReadMore<E>(codec: Codec<E>, received: seq<byte>, dispatched: seq<E>, contents: seq<byte>, more: seq<byte>)
    requires ReadState(codec, received, dispatched, contents)
    ensures Drain(codec, received + more) == Prepend(dispatched, Drain(codec, contents + more))
  {
    DrainSplits(codec, received, more);
  }

  /** On a stream of legal frames every pass ends by waiting for more. */
  lemma StreamWaits<E>(codec: Codec<E>, payloads: seq<seq<byte>>, es: seq<E>, received: seq<byte>)
    requires ParsesTo(codec, payloads, es) && received <= Wire(payloads)
    ensures Drain(codec, received).waiting
  {
    assert received == Wire(payloads)[..|received|];
    var k := DrainStream(codec, payloads, es, |received|);
  }

  /** What is known between rounds: everything read was passed over, and not as HTTP. */
  ghost predicate CaughtUp<E>(conn: TcpConnection<E>, stream: seq<byte>, taken: nat)
    reads conn, conn.readBuff, conn.writeBuff
  {
    && conn.Valid() && taken <= |stream|
    && ReadState(conn.codec, stream[..taken], conn.dispatched, conn.readBuff.Contents())
    && conn.protocolDetermined == (taken > 0) && (taken > 0 ==> conn.connType == PROTOBUF)
  }

  method ServeRound<E>(conn: TcpConnection<E>, stream: seq<byte>, taken: nat, ghost payloads: seq<seq<byte>>,
                       ghost es: seq<E>, kernel: nat -> int)
    returns (now: nat)
    requires ParsesTo(conn.codec, payloads, es) && stream == Wire(payloads) && CaughtUp(conn, stream, taken)
    modifies conn, conn.readBuff, conn.writeBuff
    ensures CaughtUp(conn, stream, now) && now >= taken
  {
    hide Drain, IsHttpRequest, Wire, WriteState, QueueState;
    var n := conn.Read(stream[taken..], kernel);
    now := taken + n;
    NextRound(conn.codec, payloads, es, taken, now, conn.dispatched, old(conn.readBuff.Contents()));
    var produced, pass := conn.Process();
  }

  lemma NextRound<E>(codec: Codec<E>, payloads: seq<seq<byte>>, es: seq<E>, taken: nat, now: nat,
                     dispatched: seq<E>, contents: seq<byte>)
    requires ParsesTo(codec, payloads, es) && taken <= now <= |Wire(payloads)|
    requires ReadState(codec, Wire(payloads)[..taken], dispatched, contents)
    ensures var more := Wire(payloads)[taken..][..now - taken];
            var pass := Drain(codec, contents + more);
            && ReadState(codec, Wire(payloads)[..now], dispatched + pass.dispatched, pass.rest)
            && (taken == 0 ==> contents + more == Wire(payloads)[..now] && !IsHttpRequest(contents + more))
  {
    var received, more := Wire(payloads)[..taken], Wire(payloads)[taken..][..now - taken];
    assert received + more == Wire(payloads)[..now];
    ReadMore(codec, received, dispatched, contents, more);
    StreamWaits(codec, payloads, es, Wire(payloads)[..now]);
    if taken == 0 {
      assert contents == [];
      FramesAreNotHttp(payloads, now);
    }
  }

  /**
  A client sends legal frames and the network cuts them anyhow: `kernel(r)` governs read number `r`.
  After any number of read-and-process rounds, exactly the frames that arrived completely have been
  dispatched, in order, and the buffer holds exactly the unfinished one.
  */
  method ServeStream<E>(conn: TcpConnection<E>, stream: seq<byte>, ghost payloads: seq<seq<byte>>, ghost es: seq<E>,
                        kernel: nat -> nat -> int, rounds: nat)
    returns (taken: nat, ghost complete: nat)
    requires ParsesTo(conn.codec, payloads, es) && stream == Wire(payloads)
    requires conn.Valid() && !conn.protocolDetermined && conn.dispatched == [] && conn.readBuff.Contents() == []
    modifies conn, conn.readBuff, conn.writeBuff
    ensures conn.Valid() && taken <= |stream| && Arrived(payloads, taken, complete)
    ensures conn.dispatched == es[..complete]
    ensures conn.readBuff.Contents() == stream[|Wire(payloads[..complete])|..taken]
    ensures taken > 0 ==> conn.protocolDetermined && conn.connType == PROTOBUF
  {
    taken := 0;
    assert stream[..0] == [];
    for round := 0 to rounds
      invariant CaughtUp(conn, stream, taken)
    {
      taken := ServeRound(conn, stream, taken, payloads, es, kernel(round));
    }
    complete := DrainStream(conn.codec, payloads, es, taken);
  }

  function Prepend<E>(handled: seq<E>, pass: Pass<E>): Pass<E> {
    pass.(dispatched := handled + pass.dispatched)
  }

  lemma DrainOne<E>(codec: Codec<E>, bytes: seq<byte>, handled: seq<E>)
    ensures var d := TryDecode(codec, bytes);
            Prepend(handled, Drain(codec, bytes)) ==
            if d.Message? then Prepend(handled + [d.envelope], Drain(codec, bytes[d.used..]))
            else Pass(handled, if d.NeedMore? then bytes else bytes[d.used..], d.NeedMore?)
  {
    var d := TryDecode(codec, bytes);
    if d.Message? {
      var tail := Drain(codec, bytes[d.used..]).dispatched;
      assert handled + ([d.envelope] + tail) == handled + [d.envelope] + tail;
    } else {
      assert handled + [] == handled;
    }
  }

  lemma {:induction false} ResponsesAppend<E>(respond: seq<E> -> Option<seq<byte>>, before: seq<E>, handled: seq<E>, e: E)
    ensures Responses(respond, before, handled + [e])
            == Responses(respond, before, handled) + Answer(respond, before + handled + [e])
    decreases |handled|
  {
    if handled == [] {
      assert before + handled == before && handled + [e] == [e];
      assert Responses(respond, before + [e], []) == [];
    } else {
      var now := before + [handled[0]];
      ResponsesAppend(respond, now, handled[1..], e);
      assert (handled + [e])[1..] == handled[1..] + [e];
      assert now + handled[1..] + [e] == before + handled + [e];
    }
  }

  lemma HandledAppend<E>(respond: seq<E> -> Option<seq<byte>>, before: seq<E>, answered: seq<seq<byte>>,
                         handled: seq<E>, e: E)
    ensures before + (handled + [e]) == before + handled + [e]
    ensures answered + Responses(respond, before, handled + [e])
            == answered + Responses(respond, before, handled) + Answer(respond, before + handled + [e])
  {
    ResponsesAppend(respond, before, handled, e);
  }

  // ---------------------------------------------------------------- any order of operations

  /** One locked operation of the connection's thread, or one push linked by another thread. */
  datatype Op =
    | ReadOp(kernel: nat -> int)
    | ProcessOp
    | PushOp(message: seq<byte>)
    | WriteOp(kernel: nat -> int, arriving: seq<seq<seq<byte>>>)

  /** Where a frame in the write buffer came from. */
  datatype Origin = Reply(payload: seq<byte>) | Push(payload: seq<byte>)

  function PayloadsOf(order: seq<Origin>): (r: seq<seq<byte>>)
    ensures |r| == |order| && forall i :: 0 <= i < |r| ==> r[i] == order[i].payload
  {
    seq(|order|, i requires 0 <= i < |order| => order[i].payload)
  }

  function RepliesIn(order: seq<Origin>): seq<seq<byte>> {
    if order == [] then []
    else RepliesIn(order[..|order| - 1]) + (if order[|order| - 1].Reply? then [order[|order| - 1].payload] else [])
  }

  function PushesIn(order: seq<Origin>): seq<seq<byte>> {
    if order == [] then []
    else PushesIn(order[..|order| - 1]) + (if order[|order| - 1].Push? then [order[|order| - 1].payload] else [])
  }

  /** Every push the operations hand over, in the order they are linked. */
  function Handed(ops: seq<Op>): seq<seq<byte>> {
    if ops == [] then []
    else
      Handed(ops[..|ops| - 1])
      + match ops[|ops| - 1]
        case PushOp(message) => NonEmpty([message])
        case WriteOp(_, arriving) => Arrivals(arriving)
        case _ => []
  }

  function Replying(payloads: seq<seq<byte>>): seq<Origin> {
    seq(|payloads|, i requires 0 <= i < |payloads| => Reply(payloads[i]))
  }

  function Pushing(payloads: seq<seq<byte>>): seq<Origin> {
    seq(|payloads|, i requires 0 <= i < |payloads| => Push(payloads[i]))
  }

  lemma OneFrameMore(order: seq<Origin>, frame: Origin)
    ensures PayloadsOf(order + [frame]) == PayloadsOf(order) + [frame.payload]
    ensures RepliesIn(order + [frame]) == RepliesIn(order) + (if frame.Reply? then [frame.payload] else [])
    ensures PushesIn(order + [frame]) == PushesIn(order) + (if frame.Push? then [frame.payload] else [])
  {
    assert (order + [frame])[..|order|] == order;
  }

  lemma {:induction false} ReplyMore(order: seq<Origin>, payloads: seq<seq<byte>>)
    ensures PayloadsOf(order + Replying(payloads)) == PayloadsOf(order) + payloads
    ensures RepliesIn(order + Replying(payloads)) == RepliesIn(order) + payloads
    ensures PushesIn(order + Replying(payloads)) == PushesIn(order)
    decreases |payloads|
  {
    if payloads == [] {
      assert order + Replying(payloads) == order;
    } else {
      var front, last := payloads[..|payloads| - 1], payloads[|payloads| - 1];
      ReplyMore(order, front);
      assert order + Replying(payloads) == order + Replying(front) + [Reply(last)];
      OneFrameMore(order + Replying(front), Reply(last));
      PutBack(PayloadsOf(order), payloads);
      PutBack(RepliesIn(order), payloads);
    }
  }

  lemma {:induction false} PushMore(order: seq<Origin>, payloads: seq<seq<byte>>)
    ensures PayloadsOf(order + Pushing(payloads)) == PayloadsOf(order) + payloads
    ensures PushesIn(order + Pushing(payloads)) == PushesIn(order) + payloads
    ensures RepliesIn(order + Pushing(payloads)) == RepliesIn(order)
    decreases |payloads|
  {
    if payloads == [] {
      assert order + Pushing(payloads) == order;
    } else {
      var front, last := payloads[..|payloads| - 1], payloads[|payloads| - 1];
      PushMore(order, front);
      assert order + Pushing(payloads) == order + Pushing(front) + [Push(last)];
      OneFrameMore(order + Pushing(front), Push(last));
      PutBack(PayloadsOf(order), payloads);
      PutBack(PushesIn(order), payloads);
    }
  }

  lemma PutBack<T>(a: seq<T>, b: seq<T>)
    requires b != []
    ensures a + b[..|b| - 1] + [b[|b| - 1]] == a + b
  {
  }

  lemma {:induction false} ResponsesConcat<E>(respond: seq<E> -> Option<seq<byte>>, before: seq<E>, a: seq<E>, b: seq<E>)
    ensures Responses(respond, before, a + b) == Responses(respond, before, a) + Responses(respond, before + a, b)
    decreases |a|
  {
    if a == [] {
      assert a + b == b && before + a == before;
    } else {
      var now := before + [a[0]];
      ResponsesConcat(respond, now, a[1..], b);
      assert (a + b)[1..] == a[1..] + b && now + a[1..] == before + a;
      Regroup(Answer(respond, now), Responses(respond, now, a[1..]), Responses(respond, before + a, b));
    }
  }

  /**
  `order` explains the frames appended so far: they are the responses to the requests dispatched, in request
  order, merged with pushes; and the pushes appended, then those queued, are the pushes handed over.
  */
  ghost predicate Explains<E>(order: seq<Origin>, respond: seq<E> -> Option<seq<byte>>, dispatched: seq<E>,
                              answered: seq<seq<byte>>, pushes: seq<seq<byte>>, handed: seq<seq<byte>>) {
    && PayloadsOf(order) == answered
    && RepliesIn(order) == Responses(respond, [], dispatched)
    && PushesIn(order) + pushes == handed
  }

  lemma ExplainReplies<E>(order: seq<Origin>, respond: seq<E> -> Option<seq<byte>>, dispatched: seq<E>, more: seq<E>,
                          answered: seq<seq<byte>>, pushes: seq<seq<byte>>, handed: seq<seq<byte>>)
    requires Explains(order, respond, dispatched, answered, pushes, handed)
    ensures var replies := Responses(respond, dispatched, more);
            Explains(order + Replying(replies), respond, dispatched + more, answered + replies, pushes, handed)
  {
    ReplyMore(order, Responses(respond, dispatched, more));
    ResponsesConcat(respond, [], dispatched, more);
    assert [] + dispatched == dispatched;
  }

  lemma ExplainPushed<E>(order: seq<Origin>, respond: seq<E> -> Option<seq<byte>>, dispatched: seq<E>,
                         answered: seq<seq<byte>>, pushes: seq<seq<byte>>, handed: seq<seq<byte>>, more: seq<seq<byte>>)
    requires Explains(order, respond, dispatched, answered, pushes, handed)
    ensures Explains(order, respond, dispatched, answered, pushes + more, handed + more)
  {
    Regroup(PushesIn(order), pushes, more);
  }

  lemma ExplainFlush<E>(order: seq<Origin>, respond: seq<E> -> Option<seq<byte>>, dispatched: seq<E>,
                        answered: seq<seq<byte>>, flushed: seq<seq<byte>>, late: seq<seq<byte>>, handed: seq<seq<byte>>)
    requires Explains(order, respond, dispatched, answered, flushed + late, handed)
    ensures Explains(order + Pushing(flushed), respond, dispatched, answered + flushed, late, handed)
  {
    PushMore(order, flushed);
    Regroup(PushesIn(order), flushed, late);
  }

  lemma HandedMore(ops: seq<Op>, i: nat)
    requires i < |ops|
    ensures Handed(ops[..i + 1]) == Handed(ops[..i])
              + match ops[i]
                case PushOp(message) => NonEmpty([message])
                case WriteOp(_, arriving) => Arrivals(arriving)
                case _ => []
  {
    assert ops[..i + 1][..i] == ops[..i];
  }

  /**
  The reading side between operations: `taken` bytes of the stream have been read, a pass has been made over
  the first `processed` of them, and what that pass left and the rest are in the buffer.
  */
  ghost predicate ReadingAt<E>(codec: Codec<E>, stream: seq<byte>, processed: nat, taken: nat, dispatched: seq<E>,
                               contents: seq<byte>, determined: bool, connType: ConnType) {
    && processed <= taken <= |stream|
    && Drain(codec, stream[..processed]).waiting && Drain(codec, stream[..processed]).dispatched == dispatched
    && contents == Drain(codec, stream[..processed]).rest + stream[processed..taken]
    && determined == (processed > 0) && (processed > 0 ==> connType == PROTOBUF)
  }

  lemma ReadingMore<E>(codec: Codec<E>, stream: seq<byte>, processed: nat, taken: nat, n: nat, dispatched: seq<E>,
                       contents: seq<byte>, determined: bool, connType: ConnType)
    requires ReadingAt(codec, stream, processed, taken, dispatched, contents, determined, connType)
    requires n <= |stream[taken..]|
    ensures ReadingAt(codec, stream, processed, taken + n, dispatched, contents + stream[taken..][..n], determined, connType)
  {
    hide Drain;
    assert stream[processed..taken] + stream[taken..][..n] == stream[processed..taken + n];
    Regroup(Drain(codec, stream[..processed]).rest, stream[processed..taken], stream[taken..][..n]);
  }

  /** A pass over the buffer goes on where the last one stopped, and is never taken for HTTP. */
  lemma ReadingPass<E>(codec: Codec<E>, payloads: seq<seq<byte>>, es: seq<E>, processed: nat, taken: nat,
                       dispatched: seq<E>, contents: seq<byte>, determined: bool, connType: ConnType)
    requires ParsesTo(codec, payloads, es)
    requires ReadingAt(codec, Wire(payloads), processed, taken, dispatched, contents, determined, connType)
    ensures var pass := Drain(codec, contents);
            ReadingAt(codec, Wire(payloads), taken, taken, dispatched + pass.dispatched, pass.rest, taken > 0, PROTOBUF)
    ensures !determined ==> !IsHttpRequest(contents) && (contents != [] <==> taken > 0)
    ensures determined ==> taken > 0
  {
    var stream := Wire(payloads);
    var first := Drain(codec, stream[..processed]);
    NextRound(codec, payloads, es, processed, taken, dispatched, first.rest);
    assert stream[processed..][..taken - processed] == stream[processed..taken];
    assert stream[taken..taken] == [];
    PassEndsHere(Drain(codec, contents).rest, stream, taken);
    if !determined {
      assert stream[..0] == [] && first.rest == [];
    }
  }

  lemma PassEndsHere(rest: seq<byte>, stream: seq<byte>, taken: nat)
    requires taken <= |stream|
    ensures rest + stream[taken..taken] == rest
  {
  }

  /**
  Where the reading side is after the operations: of the frames complete in the first `processed` bytes,
  `complete` in number, exactly the requests have been dispatched, in order, and everything read behind them
  is still in the buffer.
  */
  ghost predicate Served<E>(payloads: seq<seq<byte>>, es: seq<E>, processed: nat, taken: nat, complete: nat,
                            dispatched: seq<E>, contents: seq<byte>) {
    && processed <= taken <= |Wire(payloads)| && Arrived(payloads, processed, complete) && complete <= |es|
    && dispatched == es[..complete]
    && contents == Wire(payloads)[|Wire(payloads[..complete])|..taken]
  }

  lemma ReadingServed<E>(codec: Codec<E>, payloads: seq<seq<byte>>, es: seq<E>, processed: nat, taken: nat,
                         dispatched: seq<E>, contents: seq<byte>, determined: bool, connType: ConnType)
    returns (complete: nat)
    requires ParsesTo(codec, payloads, es)
    requires ReadingAt(codec, Wire(payloads), processed, taken, dispatched, contents, determined, connType)
    ensures Served(payloads, es, processed, taken, complete, dispatched, contents)
  {
    complete := DrainStream(codec, payloads, es, processed);
    JoinSlices(Wire(payloads), |Wire(payloads[..complete])|, processed, taken);
  }

  lemma JoinSlices(s: seq<byte>, i: nat, j: nat, k: nat)
    requires i <= j <= k <= |s|
    ensures s[i..j] + s[j..k] == s[i..k]
  {
  }

  /** What is known of a connection between operations. */
  ghost predicate Between<E>(conn: TcpConnection<E>, stream: seq<byte>, processed: nat, taken: nat, order: seq<Origin>,
                             handed: seq<seq<byte>>)
    reads conn, conn.readBuff, conn.writeBuff
  {
    && conn.Valid()
    && ReadingAt(conn.codec, stream, processed, taken, conn.dispatched, conn.readBuff.Contents(),
                 conn.protocolDetermined, conn.connType)
    && Explains(order, conn.respond, conn.dispatched, conn.answered, conn.pushes, handed)
  }

  method ReadStep<E>(conn: TcpConnection<E>, stream: seq<byte>, ghost processed: nat, taken: nat, kernel: nat -> int,
                     ghost order: seq<Origin>, ghost handed: seq<seq<byte>>) returns (now: nat)
    requires Between(conn, stream, processed, taken, order, handed) && taken <= |stream|
    modifies conn.readBuff
    ensures Between(conn, stream, processed, now, order, handed) && taken <= now <= |stream|
  {
    hide Drain, Explains, ReadingAt;
    ghost var contents := conn.readBuff.Contents();
    var n := conn.Read(stream[taken..], kernel);
    ReadingMore(conn.codec, stream, processed, taken, n, conn.dispatched, contents, conn.protocolDetermined, conn.connType);
    now := taken + n;
  }

  method ProcessStep<E>(conn: TcpConnection<E>, ghost payloads: seq<seq<byte>>, ghost es: seq<E>, ghost processed: nat,
                        ghost taken: nat, ghost order: seq<Origin>, ghost handed: seq<seq<byte>>)
    returns (ghost now: seq<Origin>)
    requires ParsesTo(conn.codec, payloads, es) && Between(conn, Wire(payloads), processed, taken, order, handed)
    modifies conn`protocolDetermined, conn`connType, conn`dispatched, conn`answered, conn.readBuff, conn.writeBuff
    ensures Between(conn, Wire(payloads), taken, taken, now, handed)
  {
    hide Drain, Explains;
    ghost var dispatched, answered, contents := conn.dispatched, conn.answered, conn.readBuff.Contents();
    ReadingPass(conn.codec, payloads, es, processed, taken, dispatched, contents, conn.protocolDetermined, conn.connType);
    NothingRead(conn.codec, Wire(payloads), processed, taken, dispatched, contents, conn.protocolDetermined, conn.connType);
    var produced, pass := conn.Process();
    ExplainReplies(order, conn.respond, dispatched, pass.dispatched, answered, conn.pushes, handed);
    now := order + Replying(Responses(conn.respond, dispatched, pass.dispatched));
  }

  method PushStep<E>(conn: TcpConnection<E>, message: seq<byte>, ghost stream: seq<byte>, ghost processed: nat,
                     ghost taken: nat, ghost order: seq<Origin>, ghost handed: seq<seq<byte>>)
    requires Between(conn, stream, processed, taken, order, handed)
    modifies conn`outgoing, conn`pushes
    ensures Between(conn, stream, processed, taken, order, handed + NonEmpty([message]))
  {
    hide Drain, Explains, ReadingAt;
    ExplainPushed(order, conn.respond, conn.dispatched, conn.answered, conn.pushes, handed, NonEmpty([message]));
    conn.EnqueueMessage(message);
  }

  method WriteStep<E>(conn: TcpConnection<E>, kernel: nat -> int, arriving: seq<seq<seq<byte>>>, ghost stream: seq<byte>,
                      ghost processed: nat, ghost taken: nat, ghost order: seq<Origin>, ghost handed: seq<seq<byte>>)
    returns (ghost now: seq<Origin>)
    requires Between(conn, stream, processed, taken, order, handed)
    modifies conn`outgoing, conn`pushes, conn`answered, conn`sent, conn.writeBuff
    ensures Between(conn, stream, processed, taken, now, handed + Arrivals(arriving))
  {
    hide Drain, Explains, ReadingAt;
    ghost var answered, pushes := conn.answered, conn.pushes;
    var len, seen := conn.Write(kernel, arriving);
    now := ExplainWrite(order, conn.respond, conn.dispatched, answered, pushes, handed, arriving, seen);
  }

  lemma ExplainWrite<E>(order: seq<Origin>, respond: seq<E> -> Option<seq<byte>>, dispatched: seq<E>,
                        answered: seq<seq<byte>>, pushes: seq<seq<byte>>, handed: seq<seq<byte>>,
                        arriving: seq<seq<seq<byte>>>, seen: nat) returns (now: seq<Origin>)
    requires Explains(order, respond, dispatched, answered, pushes, handed) && seen <= |arriving|
    ensures Explains(now, respond, dispatched, answered + (pushes + Arrivals(arriving[..seen])), Arrivals(arriving[seen..]),
                     handed + Arrivals(arriving))
  {
    hide Explains;
    var early, late := Arrivals(arriving[..seen]), Arrivals(arriving[seen..]);
    assert arriving == arriving[..seen] + arriving[seen..];
    ArrivalsConcat(arriving[..seen], arriving[seen..]);
    ExplainPushed(order, respond, dispatched, answered, pushes, handed, early + late);
    Regroup(pushes, early, late);
    ExplainFlush(order, respond, dispatched, answered, pushes + early, late, handed + (early + late));
    now := order + Pushing(pushes + early);
  }

  /** Before anything is read a pass does nothing, whatever it takes the connection for. */
  lemma NothingRead<E>(codec: Codec<E>, stream: seq<byte>, processed: nat, taken: nat, dispatched: seq<E>,
                       contents: seq<byte>, determined: bool, connType: ConnType)
    requires ReadingAt(codec, stream, processed, taken, dispatched, contents, determined, connType)
    ensures taken == 0 ==> contents == [] && Drain(codec, contents) == Pass([], contents, true)
  {
    if taken == 0 {
      assert stream[..0] == [] && stream[0..0] == [];
    }
  }

  /**
  Reads, processing, writes and pushes by other threads in any order, with any partial reads and writes and
  pushes arriving in the middle of a flush, on a stream of legal frames.  Reading: the requests dispatched are
  exactly the frames complete at the last processing, in order, and everything else read is buffered.
  Writing: every byte sent or buffered belongs to a whole frame, responses are complete and in request order,
  and pushes are in order, none lost and none repeated.
  */
  method ServeOps<E>(conn: TcpConnection<E>, stream: seq<byte>, ghost payloads: seq<seq<byte>>, ghost es: seq<E>,
                     ops: seq<Op>)
    returns (ghost order: seq<Origin>, taken: nat, processed: nat, ghost complete: nat)
    requires ParsesTo(conn.codec, payloads, es) && stream == Wire(payloads)
    requires conn.Valid() && conn.dispatched == [] && conn.answered == [] && conn.pushes == []
    requires !conn.protocolDetermined && conn.readBuff.Contents() == []
    modifies conn, conn.readBuff, conn.writeBuff
    ensures conn.Valid() && conn.sent + conn.writeBuff.Contents() == Wire(conn.answered)
    ensures Explains(order, conn.respond, conn.dispatched, conn.answered, conn.pushes, Handed(ops))
    ensures Served(payloads, es, processed, taken, complete, conn.dispatched, conn.readBuff.Contents())
    ensures ops != [] && ops[|ops| - 1].ProcessOp? ==> processed == taken
  {
    hide Between, Drain, Wire;
    order, taken, processed := [], 0, 0;
    Start(conn, stream);
    for i := 0 to |ops|
      invariant Between(conn, stream, processed, taken, order, Handed(ops[..i])) && taken <= |stream|
      invariant i > 0 && ops[i - 1].ProcessOp? ==> processed == taken
    {
      HandedMore(ops, i);
      ghost var handed := Handed(ops[..i]);
      assert handed + [] == handed;
      match ops[i]
      case ReadOp(kernel) =>
        taken := ReadStep(conn, stream, processed, taken, kernel, order, handed);
      case ProcessOp =>
        order := ProcessStep(conn, payloads, es, processed, taken, order, handed);
        processed := taken;
      case PushOp(message) =>
        PushStep(conn, message, stream, processed, taken, order, handed);
      case WriteOp(kernel, arriving) =>
        order := WriteStep(conn, kernel, arriving, stream, processed, taken, order, handed);
    }
    assert ops[..|ops|] == ops;
    complete := Finish(conn, payloads, es, processed, taken, order, Handed(ops));
  }

  lemma Start<E>(conn: TcpConnection<E>, stream: seq<byte>)
    requires conn.Valid() && conn.dispatched == [] && conn.answered == [] && conn.pushes == []
    requires !conn.protocolDetermined && conn.readBuff.Contents() == []
    ensures Between(conn, stream, 0, 0, [], [])
  {
    StartReading(conn.codec, stream, conn.connType);
    StartExplaining(conn.respond);
  }

  lemma Finish<E>(conn: TcpConnection<E>, payloads: seq<seq<byte>>, es: seq<E>, processed: nat, taken: nat,
                  order: seq<Origin>, handed: seq<seq<byte>>) returns (complete: nat)
    requires ParsesTo(conn.codec, payloads, es) && Between(conn, Wire(payloads), processed, taken, order, handed)
    ensures conn.Valid() && conn.sent + conn.writeBuff.Contents() == Wire(conn.answered)
    ensures Explains(order, conn.respond, conn.dispatched, conn.answered, conn.pushes, handed)
    ensures Served(payloads, es, processed, taken, complete, conn.dispatched, conn.readBuff.Contents())
  {
    hide Drain, Explains, ReadingAt;
    complete := ReadingServed(conn.codec, payloads, es, processed, taken, conn.dispatched, conn.readBuff.Contents(),
                              conn.protocolDetermined, conn.connType);
  }

  lemma StartReading<E>(codec: Codec<E>, stream: seq<byte>, connType: ConnType)
    ensures ReadingAt(codec, stream, 0, 0, [], [], false, connType)
  {
    assert stream[..0] == [] && stream[0..0] == [];
  }

  lemma StartExplaining<E>(respond: seq<E> -> Option<seq<byte>>)
    ensures Explains([], respond, [], [], [], [])
  {
  }
}
