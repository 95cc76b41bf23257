/**
Sending a message end to end: the client's retransmission (client/network_manager.cpp, SendP2PMessage)
against concurrent `send_p2p_message` calls in fast-dedup mode (server/src/service/msg_service.cpp).

A request reaches the server any number of times after it was sent at least once, in any order and at any
time; an answer reaches the client at any later time or never.  Messages the server made reach their users
by push or by sync, any number of times.  Every shared access of a call is its own step, so calls interleave
freely.  The cache is the one map that DedupCache's shards are proved to be:
entries may be evicted between any two steps.
*/
module SendProtocol {
  import opened Messages
  import D = DedupCache
  import C = ClientStore
  import T = Tables

  const MAX_ATTEMPTS := 3

  datatype Ack = Ack(msgId: u64, success: bool, status: AckStatus, receiverId: u64)

  const FAILURE := Ack(0, false, UNKNOWN, 0)

  /** Where a server call is; each constructor names what it has done. */
  datatype CallPc =
    | Accepted                  // validated and numbered
    | Admitted                  // passed the dedup check
    | Queued                    // handed to the async writer
    | Pushed(delivered: bool)   // offered to the push service
    | Done(ack: Ack)

  datatype Call = Call(send: nat, req: P2PMessage, id: u64, won: bool, pc: CallPc)

  datatype Outcome = Waiting | Succeeded(msgId: u64) | Failed

  /** One SendP2PMessage: one request, reused by every attempt. */
  datatype Send = Send(req: P2PMessage, attempts: nat, outcome: Outcome)

  datatype State = State(
    cache: map<D.Key, D.CacheValue>,
    calls: seq<Call>,
    written: seq<nat>,                    // calls that enqueued for persistence, in queue order
    pushed: seq<nat>,                     // calls that enqueued a push
    sends: seq<Send>,
    stores: map<u64, C.Store>,            // each user's chat history
    winners: map<D.Key, seq<nat>>,        // log: calls that reserved the key
    evictions: map<D.Key, nat>)           // log: how often the key was evicted

  datatype Action =
    | Start(req: P2PMessage)
    | Transmit(i: nat)
    | Receive(i: nat, id: u64)
    | Reserve(c: nat, now: int)
    | Write(c: nat)
    | Push(c: nat, online: bool)
    | Finish(c: nat, now: int)
    | Persisted(c: nat, now: int)
    | Evict(gone: set<D.Key>)
    | Deliver(i: nat, c: nat)
    | GiveUp(i: nat)
    | PushArrives(c: nat)
    | SyncArrives(user: u64, c: nat)

  function KeyOf(req: P2PMessage): D.Key {
    D.Key(req.senderId, req.clientMsgId)
  }

  /** What the writer and the push service get. */
  function MessageOf(call: Call): P2PMessage {
    call.req.(msgId := call.id)
  }

  function Winners(s: State, k: D.Key): seq<nat> {
    if k in s.winners then s.winners[k] else []
  }

  function Evictions(s: State, k: D.Key): nat {
    if k in s.evictions then s.evictions[k] else 0
  }

  function StoreOf(s: State, user: u64): C.Store {
    if user in s.stores then s.stores[user] else C.Store(map[], map[])
  }

  function Init(): State {
    State(map[], [], [], [], [], map[], map[], map[])
  }

  predicate Acceptable(req: P2PMessage) {
    req.senderId != 0 && req.receiverId != 0 && req.timestamp != 0
  }

  // ---------------------------------------------------------------- steps

  /** The dedup decision of one call, and the cache after it. */
  function Decide(cache: map<D.Key, D.CacheValue>, call: Call, now: int, ttl: int): (Call, map<D.Key, D.CacheValue>) {
    if call.req.clientMsgId == 0 then (call.(won := true, pc := Admitted), cache)
    else if call.id == 0 then (call.(pc := Done(FAILURE)), cache)
    else
      var (cache', answer) :=
        D.Apply(cache, D.ReserveOp(KeyOf(call.req), call.id, call.req.receiverId, RECEIVED), now, ttl);
      match answer.value.state
      case Reserved => (call.(won := true, pc := Admitted), cache')
      case Duplicate => (call.(pc := Done(DedupAck(answer.value.entry))), cache')
      case Conflict => (call.(pc := Done(FAILURE)), cache')
  }

  function ReserveCall(s: State, c: nat, now: int, ttl: int): State
    requires c < |s.calls|
  {
    var (call, cache) := Decide(s.cache, s.calls[c], now, ttl);
    var key := KeyOf(call.req);
    s.(cache := cache, calls := s.calls[c := call],
       winners := if call.won && call.req.clientMsgId != 0 then s.winners[key := Winners(s, key) + [c]] else s.winners)
  }

  /** The answer to a retry: the original message, with the status known by now. */
  function DedupAck(entry: D.Entry): Ack {
    Ack(entry.serverMsgId, true, entry.status, entry.receiverId)
  }

  function UpdateEntry(s: State, call: Call, status: AckStatus, now: int, ttl: int): map<D.Key, D.CacheValue> {
    if call.req.clientMsgId == 0 || call.id == 0 then s.cache
    else D.Apply(s.cache, D.UpdateOp(KeyOf(call.req), call.id, status), now, ttl).0
  }

  function CountEvictions(s: State, gone: set<D.Key>): map<D.Key, nat> {
    map k | k in s.evictions.Keys + (gone * s.cache.Keys) ::
      Evictions(s, k) + (if k in gone && k in s.cache then 1 else 0)
  }

  /** The steps of a server call. */
  ghost predicate CallStep(s: State, a: Action, ttl: int, s': State) {
    match a
    case Receive(i, id) =>
      i < |s.sends| && s.sends[i].attempts > 0
      && (forall c :: 0 <= c < |s.calls| ==> s.calls[c].id != id)  // the generator does not repeat
      && s' == s.(calls := s.calls + [Call(i, s.sends[i].req, id, false,
                                           if Acceptable(s.sends[i].req) then Accepted else Done(FAILURE))])
    case Reserve(c, now) => c < |s.calls| && s.calls[c].pc.Accepted? && s' == ReserveCall(s, c, now, ttl)
    case Write(c) =>
      c < |s.calls| && s.calls[c].pc.Admitted?
      && s' == s.(calls := s.calls[c := s.calls[c].(pc := Queued)], written := s.written + [c])
    case Push(c, online) =>
      c < |s.calls| && s.calls[c].pc.Queued?
      && s' == s.(calls := s.calls[c := s.calls[c].(pc := Pushed(online))],
                  pushed := if online then s.pushed + [c] else s.pushed)
    case Finish(c, now) =>
      c < |s.calls| && s.calls[c].pc.Pushed?
      && var status := if s.calls[c].pc.delivered then ENQUEUED else RECEIVED;
      s' == s.(calls := s.calls[c := s.calls[c].(pc := Done(Ack(s.calls[c].id, true, status, s.calls[c].req.receiverId)))],
               cache := UpdateEntry(s, s.calls[c], status, now, ttl))
    case _ => false
  }

  /** The persist callback and evictions change the cache behind the calls' backs. */
  ghost predicate CacheStep(s: State, a: Action, ttl: int, s': State) {
    match a
    case Persisted(c, now) =>
      c < |s.calls| && c in s.written && s' == s.(cache := UpdateEntry(s, s.calls[c], PERSISTED, now, ttl))
    case Evict(gone) => s' == s.(cache := s.cache - gone, evictions := CountEvictions(s, gone))
    case _ => false
  }

  /** The steps of a client. */
  ghost predicate ClientStep(s: State, a: Action, s': State) {
    match a
    case Start(req) => s' == s.(sends := s.sends + [Send(req, 0, Waiting)])
    case Transmit(i) =>
      i < |s.sends| && s.sends[i].outcome.Waiting? && s.sends[i].attempts < MAX_ATTEMPTS
      && s' == s.(sends := s.sends[i := s.sends[i].(attempts := s.sends[i].attempts + 1)])
    case Deliver(i, c) =>
      i < |s.sends| && c < |s.calls| && s.calls[c].send == i && s.calls[c].pc.Done? && s.sends[i].outcome.Waiting?
      && s' == DeliverAck(s, i, s.calls[c].pc.ack)
    case GiveUp(i) =>
      i < |s.sends| && s.sends[i].outcome.Waiting? && s' == s.(sends := s.sends[i := s.sends[i].(outcome := Failed)])
    case PushArrives(c) =>
      c < |s.calls| && c in s.pushed && var msg := MessageOf(s.calls[c]);
      s' == FileFor(s, msg.receiverId, msg.senderId, msg)
    case SyncArrives(user, c) =>
      c < |s.calls| && c in s.written && var msg := RowMessage(MessageOf(s.calls[c]));
      (user == msg.senderId || user == msg.receiverId) && s' == FileFor(s, user, C.SyncPartner(user, msg), msg)
    case _ => false
  }

  ghost predicate Next(s: State, a: Action, ttl: int, s': State) {
    CallStep(s, a, ttl, s') || CacheStep(s, a, ttl, s') || ClientStep(s, a, s')
  }

  function FileFor(s: State, user: u64, partner: u64, msg: P2PMessage): State {
    s.(stores := s.stores[user := C.File(StoreOf(s, user), partner, msg)])
  }

  /** A message as it comes back from the tables, which do not keep the client's id. */
  function RowMessage(msg: P2PMessage): P2PMessage {
    msg.(clientMsgId := 0)
  }

  function DeliverAck(s: State, i: nat, ack: Ack): State
    requires i < |s.sends|
  {
    var send := s.sends[i];
    if ack.success then
      s.(sends := s.sends[i := send.(outcome := Succeeded(ack.msgId))],
         stores := s.stores[send.req.senderId :=
           C.File(StoreOf(s, send.req.senderId), send.req.receiverId, send.req.(msgId := ack.msgId))])
    else s.(sends := s.sends[i := send.(outcome := Failed)])
  }

  // ---------------------------------------------------------------- invariant

  /** Call `c` holds, or held, the reservation of its key. */
  ghost predicate IsWinner(s: State, k: D.Key, c: nat) {
    c < |s.calls| && s.calls[c].won && s.calls[c].req.clientMsgId != 0 && KeyOf(s.calls[c].req) == k
  }

  /** A key was reserved once more than evicted while it is cached, and the entry names the last winner. */
  ghost predicate KeyOk(s: State, k: D.Key) {
    var w := Winners(s, k);
    && (forall j :: 0 <= j < |w| ==> IsWinner(s, k, w[j]))
    && (forall i, j :: 0 <= i < j < |w| ==> w[i] != w[j])
    && |w| == Evictions(s, k) + (if k in s.cache then 1 else 0)
    && (k in s.cache ==> Names(s.cache[k].entry, s.calls[w[|w| - 1]]))
  }

  predicate Names(entry: D.Entry, call: Call) {
    entry.serverMsgId == call.id && entry.receiverId == call.req.receiverId
  }

  ghost predicate CallOk(s: State, c: nat)
    requires c < |s.calls|
  {
    var call := s.calls[c];
    && call.send < |s.sends| && call.req == s.sends[call.send].req
    && (call.pc.Admitted? || call.pc.Queued? || call.pc.Pushed? ==> call.won)
    && (call.won && call.req.clientMsgId != 0 ==> c in Winners(s, KeyOf(call.req)))
    && (call.pc.Accepted? ==> !call.won)
    && (call.pc.Done? && call.won ==> call.pc.ack.success && call.pc.ack.msgId == call.id)
    && (call.pc.Done? && !call.won && call.pc.ack.success ==> Answered(s, call))
  }

  /** A duplicate was answered with the message of a winner of its key, for the same receiver. */
  ghost predicate Answered(s: State, call: Call)
    requires call.pc.Done?
  {
    call.req.clientMsgId != 0 && exists w :: w in Winners(s, KeyOf(call.req)) && w < |s.calls|
                                             && s.calls[w].id == call.pc.ack.msgId
                                             && s.calls[w].req.receiverId == call.req.receiverId
  }

  ghost predicate ServerOk(s: State) {
    && (forall k :: KeyOk(s, k))
    && (forall c :: 0 <= c < |s.calls| ==> CallOk(s, c))
    && (forall c, d :: 0 <= c < d < |s.calls| ==> s.calls[c].id != s.calls[d].id)
  }

  predicate HasQueued(call: Call) {
    call.won && (call.pc.Queued? || call.pc.Pushed? || call.pc.Done?)
  }

  ghost predicate NoRepeats(log: seq<nat>) {
    forall i, j :: 0 <= i < j < |log| ==> log[i] != log[j]
  }

  /** Each winner enqueues once for persistence, and at most once for push. */
  ghost predicate QueuesOk(s: State) {
    && NoRepeats(s.written) && NoRepeats(s.pushed)
    && (forall c: nat :: c in s.written <==> c < |s.calls| && HasQueued(s.calls[c]))
    && (forall c: nat :: c in s.pushed ==> c < |s.calls| && HasQueued(s.calls[c]) && !s.calls[c].pc.Queued?)
  }

  ghost predicate SendOk(s: State, i: nat)
    requires i < |s.sends|
  {
    var send := s.sends[i];
    && send.attempts <= MAX_ATTEMPTS
    && (send.outcome.Succeeded? ==>
          && (exists c :: 0 <= c < |s.calls| && Acked(s.calls[c], i, send.outcome.msgId))
          && send.outcome.msgId in C.MsgIds(C.HistoryOf(StoreOf(s, send.req.senderId), send.req.receiverId)))
  }

  predicate Acked(call: Call, i: nat, id: u64) {
    call.send == i && call.pc.Done? && call.pc.ack.success && call.pc.ack.msgId == id
  }

  ghost predicate ClientsOk(s: State) {
    && (forall i :: 0 <= i < |s.sends| ==> SendOk(s, i))
    && (forall user: u64 :: C.Consistent(StoreOf(s, user)))
  }

  /** The entry is the message call `c` made and handed to the writer. */
  predicate FromCall(s: State, c: int, e: P2PMessage) {
    0 <= c < |s.calls| && c in s.written && e.msgId == s.calls[c].id && T.RowOf(e) == T.RowOf(s.calls[c].req)
  }

  /** The entry is the request of send `i`, which was acknowledged with its id. */
  predicate FromAck(s: State, i: int, e: P2PMessage) {
    0 <= i < |s.sends| && s.sends[i].outcome == Succeeded(e.msgId) && e == s.sends[i].req.(msgId := e.msgId)
  }

  ghost predicate Sourced(s: State, e: P2PMessage) {
    (exists c :: FromCall(s, c, e)) || (exists i :: FromAck(s, i, e))
  }

  /** Every entry of a history is a message of the server or of this user, filed under its other party. */
  ghost predicate EntryOk(s: State, user: u64, partner: u64, e: P2PMessage) {
    Sourced(s, e) && (user == e.senderId || user == e.receiverId) && C.SyncPartner(user, e) == partner
  }

  ghost predicate EntriesOk(s: State) {
    forall user: u64, partner: u64, k :: 0 <= k < |C.HistoryOf(StoreOf(s, user), partner)| ==>
      EntryOk(s, user, partner, C.HistoryOf(StoreOf(s, user), partner)[k])
  }

  ghost predicate Inv(s: State) {
    ServerOk(s) && QueuesOk(s) && ClientsOk(s) && EntriesOk(s)
  }

  // ---------------------------------------------------------------- preservation: the server

  /** Calls and sends keep their identity, wins are kept, and the winners of a key only grow. */
  ghost predicate Evolves(s: State, s': State) {
    && |s.calls| <= |s'.calls| && |s.sends| <= |s'.sends|
    && (forall c :: 0 <= c < |s.calls| ==>
          s'.calls[c].send == s.calls[c].send && s'.calls[c].req == s.calls[c].req && s'.calls[c].id == s.calls[c].id
          && (s.calls[c].won ==> s'.calls[c].won))
    && (forall i :: 0 <= i < |s.sends| ==> s'.sends[i].req == s.sends[i].req)
    && (forall k :: Winners(s, k) <= Winners(s', k))
  }

  ghost predicate SameKey(s: State, s': State, k: D.Key) {
    && Winners(s', k) == Winners(s, k) && Evictions(s', k) == Evictions(s, k)
    && (k in s'.cache <==> k in s.cache)
    && (k in s.cache ==> s'.cache[k].entry.serverMsgId == s.cache[k].entry.serverMsgId
                         && s'.cache[k].entry.receiverId == s.cache[k].entry.receiverId)
  }

  lemma KeyStays(s: State, s': State, k: D.Key)
    requires Evolves(s, s') && KeyOk(s, k) && SameKey(s, s', k)
    ensures KeyOk(s', k)
  {
    var w := Winners(s, k);
    forall j | 0 <= j < |w| ensures IsWinner(s', k, w[j]) {
      assert IsWinner(s, k, w[j]);
    }
    if k in s.cache {
      assert IsWinner(s, k, w[|w| - 1]);
    }
  }

  lemma CallStays(s: State, s': State, c: nat)
    requires Evolves(s, s') && c < |s.calls| && CallOk(s, c) && s'.calls[c] == s.calls[c]
    ensures CallOk(s', c)
  {
    var call := s.calls[c];
    WinnersKept(s, s', KeyOf(call.req));
    if call.pc.Done? && !call.won && call.pc.ack.success {
      var w :| w in Winners(s, KeyOf(call.req)) && w < |s.calls|
               && s.calls[w].id == call.pc.ack.msgId && s.calls[w].req.receiverId == call.req.receiverId;
      assert s'.calls[w].id == call.pc.ack.msgId;
    }
  }

  lemma WinnersKept(s: State, s': State, k: D.Key)
    requires Evolves(s, s')
    ensures forall w :: w in Winners(s, k) ==> w in Winners(s', k)
  {
    assert Winners(s, k) <= Winners(s', k);
  }

  /** A step that leaves the cache's ids and all calls but one alone. */
  lemma OneCallMoves(s: State, c: nat, call': Call, s': State)
    requires ServerOk(s) && c < |s.calls| && Evolves(s, s')
    requires s'.calls == s.calls[c := call'] && forall k :: SameKey(s, s', k)
    requires CallOk(s', c)
    ensures ServerOk(s')
  {
    forall k ensures KeyOk(s', k) {
      assert KeyOk(s, k) && SameKey(s, s', k);
      KeyStays(s, s', k);
    }
    forall d | 0 <= d < |s'.calls| ensures CallOk(s', d) {
      if d != c {
        assert CallOk(s, d);
        CallStays(s, s', d);
      }
    }
  }

  /** A step that touches no call. */
  lemma NoCallMoves(s: State, s': State)
    requires ServerOk(s) && Evolves(s, s') && s'.calls == s.calls && forall k :: SameKey(s, s', k)
    ensures ServerOk(s')
  {
    forall k ensures KeyOk(s', k) {
      assert KeyOk(s, k) && SameKey(s, s', k);
      KeyStays(s, s', k);
    }
    forall d | 0 <= d < |s'.calls| ensures CallOk(s', d) {
      assert CallOk(s, d);
      CallStays(s, s', d);
    }
  }

  lemma UpdateKeepsIds(s: State, call: Call, status: AckStatus, now: int, ttl: int, s': State)
    requires s'.cache == UpdateEntry(s, call, status, now, ttl)
    requires s'.winners == s.winners && s'.evictions == s.evictions
    ensures forall k :: SameKey(s, s', k)
  {
  }

  lemma ReceiveServer(s: State, call: Call, s': State)
    requires ServerOk(s) && s' == s.(calls := s.calls + [call])
    requires call.send < |s.sends| && call.req == s.sends[call.send].req && !call.won
    requires call.pc == Accepted || call.pc == Done(FAILURE)
    requires forall c :: 0 <= c < |s.calls| ==> s.calls[c].id != call.id
    ensures ServerOk(s') && Evolves(s, s')
  {
    assert Evolves(s, s');
    forall k ensures KeyOk(s', k) {
      assert KeyOk(s, k);
      KeyStays(s, s', k);
    }
    forall d | 0 <= d < |s'.calls| ensures CallOk(s', d) {
      if d < |s.calls| {
        assert CallOk(s, d);
        CallStays(s, s', d);
      }
    }
  }

  lemma EvictServer(s: State, gone: set<D.Key>, s': State)
    requires ServerOk(s) && s' == s.(cache := s.cache - gone, evictions := CountEvictions(s, gone))
    ensures ServerOk(s') && Evolves(s, s')
  {
    assert Evolves(s, s');
    forall k ensures KeyOk(s', k) {
      assert KeyOk(s, k);
      forall j | 0 <= j < |Winners(s, k)| ensures IsWinner(s', k, Winners(s, k)[j]) {
        assert IsWinner(s, k, Winners(s, k)[j]);
      }
    }
    forall d | 0 <= d < |s'.calls| ensures CallOk(s', d) {
      assert CallOk(s, d);
      CallStays(s, s', d);
    }
  }

  /** The call that finds its key free reserves it. */
  lemma WinServer(s: State, c: nat, now: int, ttl: int, s': State)
    requires ServerOk(s) && c < |s.calls| && s.calls[c].pc.Accepted? && s' == ReserveCall(s, c, now, ttl)
    requires s.calls[c].req.clientMsgId != 0 && s.calls[c].id != 0 && KeyOf(s.calls[c].req) !in s.cache
    ensures ServerOk(s') && Evolves(s, s')
  {
    var key := KeyOf(s.calls[c].req);
    assert CallOk(s, c) && KeyOk(s, key);
    assert c !in Winners(s, key) by {
      forall j | 0 <= j < |Winners(s, key)| ensures Winners(s, key)[j] != c {
        assert IsWinner(s, key, Winners(s, key)[j]);
      }
    }
    assert Evolves(s, s');
    WinKey(s, c, now, ttl, s');
    forall k ensures KeyOk(s', k) {
      if k != key {
        assert KeyOk(s, k);
        KeyStays(s, s', k);
      }
    }
    forall d | 0 <= d < |s'.calls| ensures CallOk(s', d) {
      assert CallOk(s, d);
      if d != c {
        CallStays(s, s', d);
      } else {
        assert Winners(s', key)[|Winners(s, key)|] == c;
      }
    }
  }

  lemma WinKey(s: State, c: nat, now: int, ttl: int, s': State)
    requires c < |s.calls| && s' == ReserveCall(s, c, now, ttl) && Evolves(s, s')
    requires s.calls[c].req.clientMsgId != 0 && s.calls[c].id != 0 && KeyOf(s.calls[c].req) !in s.cache
    requires KeyOk(s, KeyOf(s.calls[c].req)) && c !in Winners(s, KeyOf(s.calls[c].req))
    ensures KeyOk(s', KeyOf(s.calls[c].req))
  {
    var key := KeyOf(s.calls[c].req);
    var w := Winners(s', key);
    assert w == Winners(s, key) + [c];
    forall j | 0 <= j < |w| ensures IsWinner(s', key, w[j]) {
      if j < |w| - 1 {
        assert IsWinner(s, key, Winners(s, key)[j]);
      }
    }
  }

  lemma ReserveServer(s: State, c: nat, now: int, ttl: int, s': State)
    requires ServerOk(s) && c < |s.calls| && s.calls[c].pc.Accepted? && s' == ReserveCall(s, c, now, ttl)
    ensures ServerOk(s') && Evolves(s, s')
  {
    var call := s.calls[c];
    var key := KeyOf(call.req);
    assert CallOk(s, c);
    if call.req.clientMsgId != 0 && call.id != 0 && key !in s.cache {
      WinServer(s, c, now, ttl, s');
    } else {
      assert Evolves(s, s');
      if call.req.clientMsgId != 0 && call.id != 0 {
        DuplicateIsAnswered(s, c, s'.calls[c]);
      }
      OneCallMoves(s, c, s'.calls[c], s');
    }
  }

  lemma DuplicateIsAnswered(s: State, c: nat, call': Call)
    requires ServerOk(s) && c < |s.calls| && KeyOf(s.calls[c].req) in s.cache && s.calls[c].req.clientMsgId != 0
    requires var entry := s.cache[KeyOf(s.calls[c].req)].entry;
             call' == s.calls[c].(pc := Done(if entry.receiverId != s.calls[c].req.receiverId then FAILURE
                                             else DedupAck(entry)))
    ensures call'.pc.ack.success ==> Answered(s.(calls := s.calls[c := call']), call')
  {
    var key := KeyOf(s.calls[c].req);
    assert KeyOk(s, key);
    var w := Winners(s, key);
    var last := w[|w| - 1];
    assert IsWinner(s, key, last) && last in Winners(s.(calls := s.calls[c := call']), key);
  }

  /** Writing, pushing and finishing move one call that has already won. */
  lemma MoveServer(s: State, a: Action, c: nat, ttl: int, s': State)
    requires ServerOk(s) && CallStep(s, a, ttl, s')
    requires a == Write(c) || (a.Push? && a.c == c) || (a.Finish? && a.c == c)
    ensures ServerOk(s') && Evolves(s, s')
  {
    assert CallOk(s, c);
    if a.Finish? {
      UpdateKeepsIds(s, s.calls[c], if s.calls[c].pc.delivered then ENQUEUED else RECEIVED, a.now, ttl, s');
    } else {
      assert forall k :: SameKey(s, s', k);
    }
    OneCallMoves(s, c, s'.calls[c], s');
  }

  lemma CallServer(s: State, a: Action, ttl: int, s': State)
    requires ServerOk(s) && CallStep(s, a, ttl, s')
    ensures ServerOk(s') && Evolves(s, s')
  {
    match a
    case Receive(i, id) => ReceiveServer(s, s'.calls[|s.calls|], s');
    case Reserve(c, now) => ReserveServer(s, c, now, ttl, s');
    case Write(c) => MoveServer(s, a, c, ttl, s');
    case Push(c, _) => MoveServer(s, a, c, ttl, s');
    case Finish(c, now) => MoveServer(s, a, c, ttl, s');
    case _ => assert false;
  }

  lemma CacheServer(s: State, a: Action, ttl: int, s': State)
    requires ServerOk(s) && CacheStep(s, a, ttl, s')
    ensures ServerOk(s') && Evolves(s, s')
  {
    if a.Persisted? {
      UpdateKeepsIds(s, s.calls[a.c], PERSISTED, a.now, ttl, s');
      NoCallMoves(s, s');
    } else {
      EvictServer(s, a.gone, s');
    }
  }

  /** The client's steps leave the server alone. */
  lemma ClientFrame(s: State, a: Action, s': State)
    requires ClientStep(s, a, s')
    ensures s' == s.(sends := s'.sends, stores := s'.stores) && |s.sends| <= |s'.sends|
    ensures forall i :: 0 <= i < |s.sends| ==> s'.sends[i].req == s.sends[i].req
  {
  }

  lemma ClientServer(s: State, s': State)
    requires ServerOk(s) && s' == s.(sends := s'.sends, stores := s'.stores) && |s.sends| <= |s'.sends|
    requires forall i :: 0 <= i < |s.sends| ==> s'.sends[i].req == s.sends[i].req
    ensures ServerOk(s')
  {
    NoCallMoves(s, s');
  }

  lemma NextServer(s: State, a: Action, ttl: int, s': State)
    requires ServerOk(s) && Next(s, a, ttl, s')
    ensures ServerOk(s')
  {
    if CallStep(s, a, ttl, s') {
      CallServer(s, a, ttl, s');
    } else if CacheStep(s, a, ttl, s') {
      CacheServer(s, a, ttl, s');
    } else {
      ClientFrame(s, a, s');
      ClientServer(s, s');
    }
  }

  // ---------------------------------------------------------------- preservation: queues and clients

  lemma AppendNew(log: seq<nat>, c: nat)
    requires NoRepeats(log) && c !in log
    ensures NoRepeats(log + [c])
  {
  }

  /** A finished call never changes again, and the server does not touch the clients. */
  lemma DoneStays(s: State, a: Action, ttl: int, s': State)
    requires CallStep(s, a, ttl, s') || CacheStep(s, a, ttl, s')
    ensures |s.calls| <= |s'.calls| && s'.sends == s.sends && s'.stores == s.stores
    ensures forall c :: 0 <= c < |s.calls| && s.calls[c].pc.Done? ==> s'.calls[c] == s.calls[c]
  {
  }

  /** The queues stay as they are, and no call gets past queueing or into the push stage. */
  lemma QueuesFrame(s: State, s': State)
    requires QueuesOk(s) && s'.written == s.written && s'.pushed == s.pushed && |s.calls| <= |s'.calls|
    requires forall c :: 0 <= c < |s.calls| ==>
               (HasQueued(s'.calls[c]) <==> HasQueued(s.calls[c])) && (s'.calls[c].pc.Queued? ==> s.calls[c].pc.Queued?)
    requires forall c :: |s.calls| <= c < |s'.calls| ==> !HasQueued(s'.calls[c])
    ensures QueuesOk(s')
  {
  }

  lemma WriteQueues(s: State, c: nat, s': State)
    requires ServerOk(s) && QueuesOk(s) && c < |s.calls| && s.calls[c].pc.Admitted?
    requires s' == s.(calls := s.calls[c := s.calls[c].(pc := Queued)], written := s.written + [c])
    ensures QueuesOk(s')
  {
    assert CallOk(s, c);
    AppendNew(s.written, c);
  }

  lemma PushQueues(s: State, c: nat, online: bool, s': State)
    requires ServerOk(s) && QueuesOk(s) && c < |s.calls| && s.calls[c].pc.Queued?
    requires s' == s.(calls := s.calls[c := s.calls[c].(pc := Pushed(online))],
                      pushed := if online then s.pushed + [c] else s.pushed)
    ensures QueuesOk(s')
  {
    assert CallOk(s, c);
    if online {
      AppendNew(s.pushed, c);
    }
  }

  lemma CallQueues(s: State, a: Action, ttl: int, s': State)
    requires ServerOk(s) && QueuesOk(s) && CallStep(s, a, ttl, s')
    ensures QueuesOk(s')
  {
    match a
    case Write(c) => WriteQueues(s, c, s');
    case Push(c, online) => PushQueues(s, c, online, s');
    case Reserve(c, now) => ReserveShape(s, c, now, ttl); DecidedQueues(s, c, s');
    case Receive(_, _) => QueuesFrame(s, s');
    case Finish(_, _) => QueuesFrame(s, s');
    case _ => assert false;
  }

  lemma NextQueues(s: State, a: Action, ttl: int, s': State)
    requires ServerOk(s) && QueuesOk(s) && Next(s, a, ttl, s')
    ensures QueuesOk(s')
  {
    if CallStep(s, a, ttl, s') {
      CallQueues(s, a, ttl, s');
    } else {
      assert s'.calls == s.calls && s'.written == s.written && s'.pushed == s.pushed;
      QueuesFrame(s, s');
    }
  }

  lemma ReserveShape(s: State, c: nat, now: int, ttl: int)
    requires c < |s.calls| && s.calls[c].pc.Accepted?
    ensures var s' := ReserveCall(s, c, now, ttl);
            && s'.written == s.written && s'.pushed == s.pushed && |s'.calls| == |s.calls|
            && s'.calls == s.calls[c := s'.calls[c]]
            && (s'.calls[c].pc.Admitted? || (s'.calls[c].pc.Done? && s'.calls[c].won == s.calls[c].won))
  {
  }

  lemma DecidedQueues(s: State, c: nat, s': State)
    requires ServerOk(s) && QueuesOk(s) && c < |s.calls| == |s'.calls| && s.calls[c].pc.Accepted?
    requires s'.written == s.written && s'.pushed == s.pushed && s'.calls == s.calls[c := s'.calls[c]]
    requires s'.calls[c].pc.Admitted? || (s'.calls[c].pc.Done? && s'.calls[c].won == s.calls[c].won)
    ensures QueuesOk(s')
  {
    assert CallOk(s, c);
    QueuesFrame(s, s');
  }

  lemma HistoryGrows(before: seq<P2PMessage>, after: seq<P2PMessage>)
    requires before <= after
    ensures C.MsgIds(before) <= C.MsgIds(after)
  {
    forall i | 0 <= i < |before| ensures before[i].msgId in C.MsgIds(after) {
      assert after[i] == before[i];
    }
  }

  /** What a user has in a history stays there. */
  ghost predicate StoresGrow(s: State, s': State) {
    forall u: u64, p: u64 :: C.MsgIds(C.HistoryOf(StoreOf(s, u), p)) <= C.MsgIds(C.HistoryOf(StoreOf(s', u), p))
  }

  /** Filing a message for one user keeps every store consistent and loses nothing. */
  lemma FileStores(s: State, user: u64, partner: u64, msg: P2PMessage, s': State)
    requires forall u: u64 :: C.Consistent(StoreOf(s, u))
    requires s'.stores == s.stores[user := C.File(StoreOf(s, user), partner, msg)]
    ensures forall u: u64 :: C.Consistent(StoreOf(s', u))
    ensures StoresGrow(s, s')
    ensures msg.msgId in C.MsgIds(C.HistoryOf(StoreOf(s', user), partner))
  {
    assert C.Consistent(StoreOf(s, user));
    C.FileKeepsConsistent(StoreOf(s, user), partner, msg);
    forall u: u64, p: u64
      ensures C.MsgIds(C.HistoryOf(StoreOf(s, u), p)) <= C.MsgIds(C.HistoryOf(StoreOf(s', u), p))
    {
      HistoryGrows(C.HistoryOf(StoreOf(s, u), p), C.HistoryOf(StoreOf(s', u), p));
    }
  }

  lemma SendStays(s: State, s': State, i: nat)
    requires i < |s.sends| <= |s'.sends| && SendOk(s, i) && |s.calls| <= |s'.calls|
    requires s'.sends[i].req == s.sends[i].req && s'.sends[i].outcome == s.sends[i].outcome
    requires s'.sends[i].attempts <= MAX_ATTEMPTS
    requires forall c :: 0 <= c < |s.calls| && s.calls[c].pc.Done? ==> s'.calls[c] == s.calls[c]
    requires StoresGrow(s, s')
    ensures SendOk(s', i)
  {
    var send := s.sends[i];
    if send.outcome.Succeeded? {
      var c :| 0 <= c < |s.calls| && Acked(s.calls[c], i, send.outcome.msgId);
      assert Acked(s'.calls[c], i, send.outcome.msgId);
    }
  }

  lemma DeliverClients(s: State, i: nat, c: nat, s': State)
    requires ClientsOk(s) && i < |s.sends| && c < |s.calls| && s.calls[c].send == i && s.calls[c].pc.Done?
    requires s.sends[i].outcome.Waiting? && s' == DeliverAck(s, i, s.calls[c].pc.ack)
    ensures ClientsOk(s')
  {
    var ack := s.calls[c].pc.ack;
    var req := s.sends[i].req;
    if ack.success {
      FileStores(s, req.senderId, req.receiverId, req.(msgId := ack.msgId), s');
      assert Acked(s'.calls[c], i, ack.msgId);
    } else {
      assert forall u: u64 :: StoreOf(s', u) == StoreOf(s, u);
    }
    forall j | 0 <= j < |s'.sends| ensures SendOk(s', j) {
      assert SendOk(s, j);
      if j != i {
        SendStays(s, s', j);
      }
    }
  }

  lemma SendsStay(s: State, s': State)
    requires ClientsOk(s) && s'.sends == s.sends && |s.calls| <= |s'.calls| && StoresGrow(s, s')
    requires forall c :: 0 <= c < |s.calls| && s.calls[c].pc.Done? ==> s'.calls[c] == s.calls[c]
    ensures forall j :: 0 <= j < |s'.sends| ==> SendOk(s', j)
  {
    forall j | 0 <= j < |s'.sends| ensures SendOk(s', j) {
      assert SendOk(s, j);
      SendStays(s, s', j);
    }
  }

  /** Starting, retrying and giving up change one send and no history. */
  lemma SendMoves(s: State, a: Action, s': State)
    requires ClientsOk(s) && ClientStep(s, a, s') && (a.Start? || a.Transmit? || a.GiveUp?)
    ensures ClientsOk(s')
  {
    assert StoresGrow(s, s');
    forall j | 0 <= j < |s'.sends| ensures SendOk(s', j) {
      if j < |s.sends| {
        assert SendOk(s, j);
        if !(a.GiveUp? && a.i == j) {
          SendStays(s, s', j);
        }
      }
    }
    forall u: u64 ensures C.Consistent(StoreOf(s', u)) {
      assert C.Consistent(StoreOf(s, u));
    }
  }

  lemma NextClients(s: State, a: Action, ttl: int, s': State)
    requires ClientsOk(s) && Next(s, a, ttl, s')
    ensures ClientsOk(s')
  {
    if ClientStep(s, a, s') {
      match a
      case Deliver(i, c) => DeliverClients(s, i, c, s');
      case PushArrives(c) =>
        var msg := MessageOf(s.calls[c]);
        FileStores(s, msg.receiverId, msg.senderId, msg, s');
        SendsStay(s, s');
      case SyncArrives(user, c) =>
        var msg := RowMessage(MessageOf(s.calls[c]));
        FileStores(s, user, C.SyncPartner(user, msg), msg, s');
        SendsStay(s, s');
      case _ => SendMoves(s, a, s');
    } else {
      DoneStays(s, a, ttl, s');
      assert StoresGrow(s, s');
      SendsStay(s, s');
      forall u: u64 ensures C.Consistent(StoreOf(s', u)) {
        assert C.Consistent(StoreOf(s, u));
      }
    }
  }

  // ---------------------------------------------------------------- preservation: histories

  /** What entries rest on stays: messages made, ids and requests of calls, requests and successes of sends. */
  ghost predicate SourcesStay(s: State, s': State) {
    && |s.calls| <= |s'.calls| && |s.sends| <= |s'.sends| && s.written <= s'.written
    && (forall c :: 0 <= c < |s.calls| ==> s'.calls[c].id == s.calls[c].id && s'.calls[c].req == s.calls[c].req)
    && (forall i :: 0 <= i < |s.sends| ==> s'.sends[i].req == s.sends[i].req)
    && (forall i :: 0 <= i < |s.sends| && s.sends[i].outcome.Succeeded? ==> s'.sends[i].outcome == s.sends[i].outcome)
  }

  lemma NextSources(s: State, a: Action, ttl: int, s': State)
    requires ServerOk(s) && Next(s, a, ttl, s')
    ensures SourcesStay(s, s')
  {
    if CallStep(s, a, ttl, s') {
      CallServer(s, a, ttl, s');
      DoneStays(s, a, ttl, s');
    } else if CacheStep(s, a, ttl, s') {
      DoneStays(s, a, ttl, s');
    } else {
      ClientFrame(s, a, s');
    }
  }

  lemma EntryStays(s: State, s': State, user: u64, partner: u64, e: P2PMessage)
    requires SourcesStay(s, s') && EntryOk(s, user, partner, e)
    ensures EntryOk(s', user, partner, e)
  {
    if c :| FromCall(s, c, e) {
      assert FromCall(s', c, e);
    } else {
      var i :| FromAck(s, i, e);
      assert FromAck(s', i, e);
    }
  }

  lemma EntriesStay(s: State, s': State)
    requires EntriesOk(s) && SourcesStay(s, s') && s'.stores == s.stores
    ensures EntriesOk(s')
  {
    forall user: u64, partner: u64, k | 0 <= k < |C.HistoryOf(StoreOf(s', user), partner)|
      ensures EntryOk(s', user, partner, C.HistoryOf(StoreOf(s', user), partner)[k])
    {
      EntryStays(s, s', user, partner, C.HistoryOf(StoreOf(s, user), partner)[k]);
    }
  }

  lemma EntryFiled(s: State, s': State, user: u64, partner: u64, msg: P2PMessage)
    requires EntriesOk(s) && SourcesStay(s, s') && EntryOk(s', user, partner, msg)
    requires s'.stores == s.stores[user := C.File(StoreOf(s, user), partner, msg)]
    ensures EntriesOk(s')
  {
    forall u: u64, p: u64, k | 0 <= k < |C.HistoryOf(StoreOf(s', u), p)|
      ensures EntryOk(s', u, p, C.HistoryOf(StoreOf(s', u), p)[k])
    {
      var before, after := C.HistoryOf(StoreOf(s, u), p), C.HistoryOf(StoreOf(s', u), p);
      assert after == before || (u == user && p == partner && after == before + [msg]);
      if k < |before| {
        EntryStays(s, s', u, p, before[k]);
      }
    }
  }

  lemma DeliverEntries(s: State, i: nat, ack: Ack, s': State)
    requires EntriesOk(s) && SourcesStay(s, s') && i < |s.sends| && s' == DeliverAck(s, i, ack)
    ensures EntriesOk(s')
  {
    if ack.success {
      var req := s.sends[i].req;
      assert FromAck(s', i, req.(msgId := ack.msgId));
      EntryFiled(s, s', req.senderId, req.receiverId, req.(msgId := ack.msgId));
    } else {
      EntriesStay(s, s');
    }
  }

  lemma NextEntries(s: State, a: Action, ttl: int, s': State)
    requires ServerOk(s) && QueuesOk(s) && EntriesOk(s) && Next(s, a, ttl, s')
    ensures EntriesOk(s')
  {
    NextSources(s, a, ttl, s');
    if ClientStep(s, a, s') && a.Deliver? {
      DeliverEntries(s, a.i, s.calls[a.c].pc.ack, s');
    } else if ClientStep(s, a, s') && a.PushArrives? {
      var msg := MessageOf(s.calls[a.c]);
      assert FromCall(s', a.c, msg);
      EntryFiled(s, s', msg.receiverId, msg.senderId, msg);
    } else if ClientStep(s, a, s') && a.SyncArrives? {
      var msg := RowMessage(MessageOf(s.calls[a.c]));
      assert FromCall(s', a.c, msg);
      EntryFiled(s, s', a.user, C.SyncPartner(a.user, msg), msg);
    } else {
      if CallStep(s, a, ttl, s') || CacheStep(s, a, ttl, s') {
        DoneStays(s, a, ttl, s');
      }
      EntriesStay(s, s');
    }
  }

  // ---------------------------------------------------------------- runs

  /** Any interleaving of any number of clients, calls, persists and evictions. */
  ghost predicate Run(states: seq<State>, actions: seq<Action>, ttl: int) {
    && |states| == |actions| + 1 && states[0] == Init()
    && forall n :: 0 <= n < |actions| ==> StepAt(states, actions, ttl, n)
  }

  ghost predicate StepAt(states: seq<State>, actions: seq<Action>, ttl: int, n: nat)
    requires n < |actions| && n + 1 < |states|
  {
    Next(states[n], actions[n], ttl, states[n + 1])
  }

  lemma InitRun(ttl: int)
    ensures Run([Init()], [], ttl)
  {
  }

  lemma InitInv()
    ensures Inv(Init())
  {
    forall k ensures KeyOk(Init(), k) {
    }
  }

  lemma {:induction false} RunInv(states: seq<State>, actions: seq<Action>, ttl: int, n: nat)
    requires Run(states, actions, ttl) && n < |states|
    ensures Inv(states[n])
  {
    if n == 0 {
      InitInv();
    } else {
      RunInv(states, actions, ttl, n - 1);
      assert StepAt(states, actions, ttl, n - 1);
      NextServer(states[n - 1], actions[n - 1], ttl, states[n]);
      NextQueues(states[n - 1], actions[n - 1], ttl, states[n]);
      NextClients(states[n - 1], actions[n - 1], ttl, states[n]);
      NextEntries(states[n - 1], actions[n - 1], ttl, states[n]);
    }
  }

  // ---------------------------------------------------------------- at most once, exactly once

  /** The entries of a log that are calls for one key. */
  function ForKey(s: State, log: seq<nat>, k: D.Key): seq<nat> {
    if log == [] then []
    else
      var c := log[|log| - 1];
      ForKey(s, log[..|log| - 1], k)
      + (if c < |s.calls| && s.calls[c].req.clientMsgId != 0 && KeyOf(s.calls[c].req) == k then [c] else [])
  }

  lemma {:induction false} ForKeyMembers(s: State, log: seq<nat>, k: D.Key)
    ensures forall c :: c in ForKey(s, log, k) <==>
              c in log && c < |s.calls| && s.calls[c].req.clientMsgId != 0 && KeyOf(s.calls[c].req) == k
    ensures NoRepeats(log) ==> NoRepeats(ForKey(s, log, k))
  {
    if log != [] {
      var init, c := log[..|log| - 1], log[|log| - 1];
      ForKeyMembers(s, init, k);
      assert log == init + [c];
      if NoRepeats(log) {
        NoRepeatInit(log);
        if c in ForKey(s, log, k) { AppendNew(ForKey(s, init, k), c); }
      }
    }
  }

  lemma NoRepeatInit(log: seq<nat>)
    requires log != [] && NoRepeats(log)
    ensures NoRepeats(log[..|log| - 1]) && log[|log| - 1] !in log[..|log| - 1]
  {
  }

  /** A log without repetition is no longer than any log that has all its entries. */
  lemma {:induction false} NoRepeatFits(a: seq<nat>, b: seq<nat>)
    requires NoRepeats(a) && forall x :: x in a ==> x in b
    ensures |a| <= |b|
    decreases |a|
  {
    if a != [] {
      NoRepeatInit(a);
      var init, x := a[..|a| - 1], a[|a| - 1];
      assert x in a;
      var j :| 0 <= j < |b| && b[j] == x;
      var rest := b[..j] + b[j + 1..];
      forall y | y in init ensures y in rest {
        assert y in a && y != x;
        var m :| 0 <= m < |b| && b[m] == y;
        assert rest[if m < j then m else m - 1] == y;
      }
      NoRepeatFits(init, rest);
    }
  }

  lemma QueuedAreWinners(s: State, log: seq<nat>, k: D.Key)
    requires Inv(s) && forall c :: c in log ==> c in s.written
    ensures forall c :: c in ForKey(s, log, k) ==> c in Winners(s, k)
  {
    ForKeyMembers(s, log, k);
    forall c | c in ForKey(s, log, k) ensures c in Winners(s, k) {
      assert CallOk(s, c);
    }
  }

  /** Nobody is between reserving this key and enqueueing the message. */
  ghost predicate NoneAdmitted(s: State, k: D.Key) {
    forall c :: 0 <= c < |s.calls| && s.calls[c].pc.Admitted? && s.calls[c].req.clientMsgId != 0 ==>
      KeyOf(s.calls[c].req) != k
  }

  lemma WinnersAreQueued(s: State, k: D.Key)
    requires Inv(s) && NoneAdmitted(s, k)
    ensures forall c :: c in Winners(s, k) ==> c in ForKey(s, s.written, k)
  {
    ForKeyMembers(s, s.written, k);
    forall c | c in Winners(s, k) ensures c in ForKey(s, s.written, k) {
      assert KeyOk(s, k);
      var j :| 0 <= j < |Winners(s, k)| && Winners(s, k)[j] == c;
      assert IsWinner(s, k, c) && CallOk(s, c);
    }
  }

  lemma WinnersDoNotRepeat(s: State, k: D.Key)
    requires KeyOk(s, k)
    ensures NoRepeats(Winners(s, k))
  {
  }

  /**
  In any run, the calls that reserved a key are exactly as many as its entry was evicted, and one more while
  the entry is there.  The messages handed to the writer for the key are never more, and when no call is
  between the two steps exactly as many; pushes are never more.
  */
  lemma MessagesPerKey(states: seq<State>, actions: seq<Action>, ttl: int, n: nat, k: D.Key)
    requires Run(states, actions, ttl) && n < |states|
    ensures var s := states[n];
            var lifetimes := Evictions(s, k) + (if k in s.cache then 1 else 0);
            && |Winners(s, k)| == lifetimes
            && |ForKey(s, s.written, k)| <= lifetimes && |ForKey(s, s.pushed, k)| <= lifetimes
            && (NoneAdmitted(s, k) ==> |ForKey(s, s.written, k)| == lifetimes)
  {
    RunInv(states, actions, ttl, n);
    var s := states[n];
    assert KeyOk(s, k);
    WinnersDoNotRepeat(s, k);
    ForKeyMembers(s, s.written, k);
    ForKeyMembers(s, s.pushed, k);
    QueuedAreWinners(s, s.written, k);
    QueuedAreWinners(s, s.pushed, k);
    NoRepeatFits(ForKey(s, s.written, k), Winners(s, k));
    NoRepeatFits(ForKey(s, s.pushed, k), Winners(s, k));
    if NoneAdmitted(s, k) {
      WinnersAreQueued(s, k);
      NoRepeatFits(Winners(s, k), ForKey(s, s.written, k));
    }
  }

  /** A client message id makes at most one message if and only if its entry was not evicted and then reserved again. */
  lemma AtMostOnceIff(states: seq<State>, actions: seq<Action>, ttl: int, n: nat, k: D.Key)
    requires Run(states, actions, ttl) && n < |states| && NoneAdmitted(states[n], k)
    ensures |ForKey(states[n], states[n].written, k)| <= 1
            <==> Evictions(states[n], k) == 0 || (Evictions(states[n], k) == 1 && k !in states[n].cache)
  {
    MessagesPerKey(states, actions, ttl, n, k);
  }

  // ---------------------------------------------------------------- one lifetime of an entry

  /** Call `c` has not come or has not looked at the cache. */
  predicate Undecided(s: State, c: nat) {
    c >= |s.calls| || s.calls[c].pc.Accepted?
  }

  predicate CallFor(s: State, c: nat, k: D.Key) {
    c < |s.calls| && s.calls[c].req.clientMsgId != 0 && KeyOf(s.calls[c].req) == k
  }

  predicate Successful(s: State, c: nat) {
    c < |s.calls| && s.calls[c].pc.Done? && s.calls[c].pc.ack.success
  }

  /** Evictions of a key are never undone, nor are its reservations. */
  predicate Later(s: State, t: State, k: D.Key) {
    Evictions(s, k) <= Evictions(t, k) && Winners(s, k) <= Winners(t, k)
  }

  lemma NextIsLater(s: State, a: Action, ttl: int, s': State, k: D.Key)
    requires ServerOk(s) && Next(s, a, ttl, s')
    ensures ServerOk(s') && Later(s, s', k)
  {
    if CallStep(s, a, ttl, s') {
      CallServer(s, a, ttl, s');
    } else if CacheStep(s, a, ttl, s') {
      CacheServer(s, a, ttl, s');
    } else {
      ClientFrame(s, a, s');
      ClientServer(s, s');
    }
  }

  lemma NextKeepsDone(s: State, a: Action, ttl: int, s': State, c: nat)
    requires Next(s, a, ttl, s') && c < |s.calls| && s.calls[c].pc.Done?
    ensures c < |s'.calls| && s'.calls[c] == s.calls[c]
  {
    if CallStep(s, a, ttl, s') || CacheStep(s, a, ttl, s') {
      DoneStays(s, a, ttl, s');
    } else {
      ClientFrame(s, a, s');
    }
  }

  lemma RunServer(states: seq<State>, actions: seq<Action>, ttl: int, n: nat)
    requires Run(states, actions, ttl) && n < |states|
    ensures ServerOk(states[n])
  {
    RunInv(states, actions, ttl, n);
  }

  lemma {:induction false} RunIsLater(states: seq<State>, actions: seq<Action>, ttl: int, m: nat, n: nat, k: D.Key)
    requires Run(states, actions, ttl) && m <= n < |states|
    ensures Later(states[m], states[n], k)
  {
    if m < n {
      RunIsLater(states, actions, ttl, m, n - 1, k);
      StepIsLater(states, actions, ttl, n - 1, k);
      LaterTrans(states[m], states[n - 1], states[n], k);
    } else {
      SameIsLater(states[m], k);
    }
  }

  lemma StepIsLater(states: seq<State>, actions: seq<Action>, ttl: int, n: nat, k: D.Key)
    requires Run(states, actions, ttl) && n < |actions|
    ensures Later(states[n], states[n + 1], k)
  {
    RunServer(states, actions, ttl, n);
    assert StepAt(states, actions, ttl, n);
    NextIsLater(states[n], actions[n], ttl, states[n + 1], k);
  }

  lemma SameIsLater(s: State, k: D.Key)
    ensures Later(s, s, k)
  {
  }

  lemma LaterTrans(s: State, t: State, u: State, k: D.Key)
    requires Later(s, t, k) && Later(t, u, k)
    ensures Later(s, u, k)
  {
  }

  /** Between two states with no eviction of the key, it is reserved at most once. */
  lemma OneReservation(s: State, t: State, k: D.Key)
    requires KeyOk(s, k) && KeyOk(t, k) && Later(s, t, k) && Evictions(s, k) == Evictions(t, k)
    ensures |Winners(t, k)| <= |Winners(s, k)| + 1
    ensures |Winners(s, k)| == Evictions(s, k) + 1 ==> Winners(t, k) == Winners(s, k)
  {
  }

  lemma UndecidedHasNotWon(s: State, c: nat, k: D.Key)
    requires ServerOk(s) && Undecided(s, c)
    ensures c !in Winners(s, k)
  {
    assert KeyOk(s, k);
    if c < |s.calls| {
      assert CallOk(s, c);
    }
  }

  /** The last call to reserve the key. */
  predicate IsLast(s: State, k: D.Key, c: nat) {
    Winners(s, k) != [] && Winners(s, k)[|Winners(s, k)| - 1] == c
  }

  /** A call that wins during a lifetime is the last winner. */
  lemma NewWinnerIsLast(s: State, t: State, c: nat, k: D.Key)
    requires ServerOk(s) && ServerOk(t) && Later(s, t, k) && Evictions(s, k) == Evictions(t, k)
    requires Undecided(s, c) && CallFor(t, c, k) && t.calls[c].won
    ensures IsLast(t, k, c) && |Winners(t, k)| == Evictions(t, k) + 1
  {
    assert KeyOk(s, k) && KeyOk(t, k) && CallOk(t, c);
    UndecidedHasNotWon(s, c, k);
    OneReservation(s, t, k);
    var j :| 0 <= j < |Winners(t, k)| && Winners(t, k)[j] == c;
    assert j >= |Winners(s, k)|;
  }

  /** A call that becomes successful without winning was answered from the cache. */
  lemma AnsweredFromCache(s: State, a: Action, ttl: int, s': State, c: nat, k: D.Key)
    requires ServerOk(s) && Next(s, a, ttl, s')
    requires !Successful(s, c) && Successful(s', c) && CallFor(s', c, k) && !s'.calls[c].won
    ensures k in s.cache && s'.calls[c].pc.ack == DedupAck(s.cache[k].entry) && Winners(s', k) == Winners(s, k)
  {
    assert CallStep(s, a, ttl, s');
    if c < |s.calls| {
      assert CallOk(s, c);
    }
  }

  /** The last winner made the reservation of the current lifetime, and call `c` was answered with its id. */
  predicate AnsweredBy(s: State, c: nat, k: D.Key, w: nat) {
    && IsLast(s, k, w) && |Winners(s, k)| == Evictions(s, k) + 1
    && Successful(s, c) && w < |s.calls| && s.calls[w].id == s.calls[c].pc.ack.msgId
  }

  lemma AnswerStays(s: State, a: Action, ttl: int, s': State, c: nat, k: D.Key, w: nat)
    requires ServerOk(s) && Next(s, a, ttl, s') && Evictions(s', k) == Evictions(s, k) && AnsweredBy(s, c, k, w)
    ensures AnsweredBy(s', c, k, w)
  {
    hide Next;
    NextIsLater(s, a, ttl, s', k);
    NextKeepsDone(s, a, ttl, s', c);
    NextSources(s, a, ttl, s');
    assert KeyOk(s, k) && KeyOk(s', k);
    OneReservation(s, s', k);
  }

  lemma NewAnswer(s: State, a: Action, ttl: int, s': State, c: nat, k: D.Key) returns (w: nat)
    requires ServerOk(s) && Next(s, a, ttl, s') && Evictions(s', k) == Evictions(s, k)
    requires !Successful(s, c) && Successful(s', c) && CallFor(s', c, k) && !s'.calls[c].won
    ensures AnsweredBy(s', c, k, w)
  {
    hide Next;
    AnsweredFromCache(s, a, ttl, s', c, k);
    NextSources(s, a, ttl, s');
    assert KeyOk(s, k);
    w := Winners(s, k)[|Winners(s, k)| - 1];
    assert IsWinner(s, k, w);
  }

  lemma WinnerIsAnswered(s: State, t: State, c: nat, k: D.Key)
    requires ServerOk(s) && ServerOk(t) && Later(s, t, k) && Evictions(s, k) == Evictions(t, k)
    requires Undecided(s, c) && CallFor(t, c, k) && t.calls[c].won && Successful(t, c)
    ensures AnsweredBy(t, c, k, c)
  {
    NewWinnerIsLast(s, t, c, k);
    assert CallOk(t, c);
  }

  /** A successful answer decided during a lifetime names the last winner, whose reservation is the lifetime's. */
  lemma {:induction false} AnsweredInLifetime(states: seq<State>, actions: seq<Action>, ttl: int, m: nat, n: nat, c: nat,
                                              k: D.Key) returns (w: nat)
    requires Run(states, actions, ttl) && m <= n < |states| && Evictions(states[m], k) == Evictions(states[n], k)
    requires Undecided(states[m], c) && CallFor(states[n], c, k) && Successful(states[n], c)
    ensures AnsweredBy(states[n], c, k, w)
    decreases n
  {
    hide ServerOk, Next, AnsweredBy;
    RunServer(states, actions, ttl, n);
    RunIsLater(states, actions, ttl, m, n, k);
    if states[n].calls[c].won {
      RunServer(states, actions, ttl, m);
      WinnerIsAnswered(states[m], states[n], c, k);
      w := c;
    } else {
      var s, s' := states[n - 1], states[n];
      RunServer(states, actions, ttl, n - 1);
      RunIsLater(states, actions, ttl, m, n - 1, k);
      assert StepAt(states, actions, ttl, n - 1);
      NextIsLater(s, actions[n - 1], ttl, s', k);
      if Successful(s, c) {
        NextKeepsDone(s, actions[n - 1], ttl, s', c);
        w := AnsweredInLifetime(states, actions, ttl, m, n - 1, c, k);
        AnswerStays(s, actions[n - 1], ttl, s', c, k, w);
      } else {
        w := NewAnswer(s, actions[n - 1], ttl, s', c, k);
      }
    }
  }

  /**
  Any lifetime of a cache entry: from state `m` to state `n` the key was not evicted.  Of the calls for it
  that had not looked at the cache at `m`, at most one makes a message, and every one that is successful at
  `n` carries that message's id.
  */
  lemma OneMessagePerLifetime(states: seq<State>, actions: seq<Action>, ttl: int, m: nat, n: nat, k: D.Key, c: nat, d: nat)
    requires Run(states, actions, ttl) && m <= n < |states| && Evictions(states[m], k) == Evictions(states[n], k)
    requires Undecided(states[m], c) && CallFor(states[n], c, k) && Undecided(states[m], d) && CallFor(states[n], d, k)
    ensures states[n].calls[c].won && states[n].calls[d].won ==> c == d
    ensures states[n].calls[c].won && Successful(states[n], d) ==>
              states[n].calls[d].pc.ack.msgId == states[n].calls[c].id
    ensures Successful(states[n], c) && Successful(states[n], d) ==>
              states[n].calls[c].pc.ack.msgId == states[n].calls[d].pc.ack.msgId
  {
    RunServer(states, actions, ttl, m);
    RunServer(states, actions, ttl, n);
    RunIsLater(states, actions, ttl, m, n, k);
    if states[n].calls[c].won {
      NewWinnerIsLast(states[m], states[n], c, k);
    }
    if states[n].calls[d].won {
      NewWinnerIsLast(states[m], states[n], d, k);
    }
    if Successful(states[n], d) {
      var w := AnsweredInLifetime(states, actions, ttl, m, n, d, k);
    }
    if Successful(states[n], c) {
      var w := AnsweredInLifetime(states, actions, ttl, m, n, c, k);
    }
  }

  lemma Extend(states: seq<State>, actions: seq<Action>, ttl: int, a: Action, s': State)
    requires Run(states, actions, ttl) && Next(states[|actions|], a, ttl, s')
    ensures Run(states + [s'], actions + [a], ttl)
  {
    forall n | 0 <= n < |actions + [a]| ensures StepAt(states + [s'], actions + [a], ttl, n) {
      if n < |actions| {
        assert StepAt(states, actions, ttl, n);
      }
    }
  }

  /** A delivery of the only request sent, where its key is not cached, makes a message. */
  lemma DeliveryMakesMessage(states: seq<State>, actions: seq<Action>, ttl: int, req: P2PMessage, id: u64)
    returns (states': seq<State>, actions': seq<Action>)
    requires Run(states, actions, ttl) && Acceptable(req) && req.clientMsgId != 0 && id != 0
    requires var s := states[|actions|];
             && s.sends == [Send(req, 1, Waiting)] && KeyOf(req) !in s.cache
             && forall c :: 0 <= c < |s.calls| ==> s.calls[c].id != id
    ensures Run(states', actions', ttl)
    ensures var s, t := states[|actions|], states'[|actions'|];
            && t.sends == s.sends && t.evictions == s.evictions && KeyOf(req) in t.cache
            && t.calls == s.calls + [Call(0, req, id, true, Queued)] && t.written == s.written + [|s.calls|]
  {
    var s := states[|actions|];
    var c := |s.calls|;
    var s1 := s.(calls := s.calls + [Call(0, req, id, false, Accepted)]);
    Extend(states, actions, ttl, Receive(0, id), s1);
    var s2 := ReserveCall(s1, c, 0, ttl);
    assert s2.calls == s.calls + [Call(0, req, id, true, Admitted)];
    Extend(states + [s1], actions + [Receive(0, id)], ttl, Reserve(c, 0), s2);
    var s3 := s2.(calls := s2.calls[c := s2.calls[c].(pc := Queued)], written := s2.written + [c]);
    states' := states + [s1] + [s2] + [s3];
    actions' := actions + [Receive(0, id)] + [Reserve(c, 0)] + [Write(c)];
    Extend(states + [s1] + [s2], actions + [Receive(0, id)] + [Reserve(c, 0)], ttl, Write(c), s3);
    assert s3.calls == s.calls + [Call(0, req, id, true, Queued)];
  }

  /** The bound is reached: a retransmission that arrives after an eviction makes a second message. */
  lemma EvictionAllowsSecondMessage(req: P2PMessage, ttl: int) returns (states: seq<State>, actions: seq<Action>)
    requires Acceptable(req) && req.clientMsgId != 0
    ensures Run(states, actions, ttl)
    ensures var s := states[|actions|];
            && s.written == [0, 1] && |s.calls| == 2 && s.calls[0].id != s.calls[1].id
            && s.calls[0].req == s.calls[1].req == req && Evictions(s, KeyOf(req)) == 1
  {
    var k := KeyOf(req);
    var s1 := Init().(sends := [Send(req, 0, Waiting)]);
    var s2 := Init().(sends := [Send(req, 1, Waiting)]);
    Extend([Init()], [], ttl, Start(req), s1);
    Extend([Init()] + [s1], [] + [Start(req)], ttl, Transmit(0), s2);
    states, actions := DeliveryMakesMessage([Init()] + [s1] + [s2], [] + [Start(req)] + [Transmit(0)], ttl, req, 1);
    var s := states[|actions|];
    var s' := s.(cache := s.cache - {k}, evictions := CountEvictions(s, {k}));
    Extend(states, actions, ttl, Evict({k}), s');
    states, actions := DeliveryMakesMessage(states + [s'], actions + [Evict({k})], ttl, req, 2);
  }

  /** A successful answer for a key names the message of one of its winners. */
  lemma AnswerNamesWinner(s: State, c: nat) returns (w: nat)
    requires Inv(s) && c < |s.calls| && s.calls[c].pc.Done? && s.calls[c].pc.ack.success
    requires s.calls[c].req.clientMsgId != 0
    ensures w in Winners(s, KeyOf(s.calls[c].req)) && w < |s.calls| && s.calls[w].id == s.calls[c].pc.ack.msgId
  {
    assert CallOk(s, c);
    if s.calls[c].won {
      w := c;
    } else {
      w :| w in Winners(s, KeyOf(s.calls[c].req)) && w < |s.calls| && s.calls[w].id == s.calls[c].pc.ack.msgId
           && s.calls[w].req.receiverId == s.calls[c].req.receiverId;
    }
  }

  /** A key that was never evicted: over the whole run every successful answer for it carries one id. */
  lemma AnswersAgree(states: seq<State>, actions: seq<Action>, ttl: int, n: nat, k: D.Key, c: nat, d: nat)
    requires Run(states, actions, ttl) && n < |states| && Evictions(states[n], k) == 0
    requires CallFor(states[n], c, k) && CallFor(states[n], d, k)
    requires Successful(states[n], c) && Successful(states[n], d)
    ensures states[n].calls[c].pc.ack.msgId == states[n].calls[d].pc.ack.msgId
  {
    OneMessagePerLifetime(states, actions, ttl, 0, n, k, c, d);
  }

  /** Call `c`, which acknowledged something with the id of `w`, was answered with the message of `w` itself. */
  lemma AckNames(s: State, c: nat, w: nat)
    requires Inv(s) && c < |s.calls| && w < |s.calls| && Successful(s, c) && s.calls[c].pc.ack.msgId == s.calls[w].id
    ensures s.calls[w].won
    ensures c == w || (s.calls[c].req.clientMsgId != 0 && IsWinner(s, KeyOf(s.calls[c].req), w))
  {
    assert CallOk(s, c);
    if s.calls[c].won {
      assert c == w;
    } else {
      var v := AnswerNamesWinner(s, c);
      assert v == w && KeyOk(s, KeyOf(s.calls[c].req));
      var x :| 0 <= x < |Winners(s, KeyOf(s.calls[c].req))| && Winners(s, KeyOf(s.calls[c].req))[x] == v;
      assert IsWinner(s, KeyOf(s.calls[c].req), v);
    }
  }

  /** A send acknowledged with the id of call `w` is the one behind that call, where no other has its key. */
  lemma AckedByWinner(s: State, j: nat, w: nat)
    requires Inv(s) && j < |s.sends| && w < |s.calls| && s.sends[j].outcome == Succeeded(s.calls[w].id)
    requires s.calls[w].send < |s.sends| && (s.calls[w].req.clientMsgId == 0 || OwnKey(s, s.calls[w].send))
    ensures s.calls[w].won && s.calls[w].send == j && s.calls[w].req == s.sends[j].req
  {
    assert SendOk(s, j) && CallOk(s, w);
    var c :| 0 <= c < |s.calls| && Acked(s.calls[c], j, s.calls[w].id);
    assert CallOk(s, c);
    AckNames(s, c, w);
  }

  /** Whatever is in a history under the id of call `w` is the message of that call. */
  lemma EntryMatchesCall(s: State, w: nat, e: P2PMessage)
    requires Inv(s) && w < |s.calls| && Sourced(s, e) && e.msgId == s.calls[w].id
    requires s.calls[w].send < |s.sends| && (s.calls[w].req.clientMsgId == 0 || OwnKey(s, s.calls[w].send))
    ensures s.calls[w].won && T.RowOf(e) == T.RowOf(s.calls[w].req)
  {
    if c :| FromCall(s, c, e) {
      assert c == w;
    } else {
      var j :| FromAck(s, j, e);
      AckedByWinner(s, j, w);
    }
  }

  /** No other send uses this send's client message id. */
  predicate OwnKey(s: State, i: nat)
    requires i < |s.sends|
  {
    s.sends[i].req.clientMsgId != 0
    && forall j :: 0 <= j < |s.sends| && j != i ==> KeyOf(s.sends[j].req) != KeyOf(s.sends[i].req)
  }

  lemma SuccessHasWinner(s: State, i: nat) returns (w: nat)
    requires Inv(s) && i < |s.sends| && s.sends[i].outcome.Succeeded? && OwnKey(s, i)
    ensures w in Winners(s, KeyOf(s.sends[i].req)) && IsWinner(s, KeyOf(s.sends[i].req), w) && s.calls[w].send == i
    ensures MessageOf(s.calls[w]) == s.sends[i].req.(msgId := s.sends[i].outcome.msgId)
  {
    var send := s.sends[i];
    var k := KeyOf(send.req);
    assert SendOk(s, i) && KeyOk(s, k);
    var c :| 0 <= c < |s.calls| && Acked(s.calls[c], i, send.outcome.msgId);
    assert CallOk(s, c);
    w := AnswerNamesWinner(s, c);
    var x :| 0 <= x < |Winners(s, k)| && Winners(s, k)[x] == w;
    assert IsWinner(s, k, w) && CallOk(s, w);
  }

  lemma HistoryHasRequest(s: State, i: nat, w: nat)
    requires Inv(s) && i < |s.sends| && s.sends[i].outcome.Succeeded? && OwnKey(s, i)
    requires w < |s.calls| && s.calls[w].send == i
    requires MessageOf(s.calls[w]) == s.sends[i].req.(msgId := s.sends[i].outcome.msgId)
    ensures var send := s.sends[i];
            HasRequestOnce(C.HistoryOf(StoreOf(s, send.req.senderId), send.req.receiverId), send.req, send.outcome.msgId)
  {
    var send := s.sends[i];
    var history := C.HistoryOf(StoreOf(s, send.req.senderId), send.req.receiverId);
    assert SendOk(s, i);
    assert C.Consistent(StoreOf(s, send.req.senderId));
    C.NoDuplicatesCounts(history, send.outcome.msgId);
    forall k | 0 <= k < |history| && history[k].msgId == send.outcome.msgId
      ensures T.RowOf(history[k]) == T.RowOf(send.req)
    {
      assert EntryOk(s, send.req.senderId, send.req.receiverId, history[k]);
      EntryMatchesCall(s, w, history[k]);
      assert T.RowOf(MessageOf(s.calls[w])) == T.RowOf(s.calls[w].req);
    }
  }

  /** One entry has this id, and it is the request: sender, receiver, type, content and timestamp. */
  ghost predicate HasRequestOnce(history: seq<P2PMessage>, req: P2PMessage, id: u64) {
    && C.Occurrences(history, id) == 1
    && forall k :: 0 <= k < |history| && history[k].msgId == id ==> T.RowOf(history[k]) == T.RowOf(req)
  }

  /** Entry `k` of this history has the id of call `c`. */
  predicate EntryUnder(s: State, user: u64, partner: u64, k: int, c: int) {
    && 0 <= k < |C.HistoryOf(StoreOf(s, user), partner)| && 0 <= c < |s.calls|
    && C.HistoryOf(StoreOf(s, user), partner)[k].msgId == s.calls[c].id
  }

  /** In no history of anybody is there an entry of this send, under the id of any of its calls, but that one id. */
  ghost predicate NoOtherEntry(s: State, i: nat, id: u64) {
    forall user: u64, partner: u64, k, c :: EntryUnder(s, user, partner, k, c) && s.calls[c].send == i ==> s.calls[c].id == id
  }

  lemma EntryOfSend(s: State, i: nat, w: nat, c: nat, e: P2PMessage)
    requires Inv(s) && i < |s.sends| && OwnKey(s, i) && Winners(s, KeyOf(s.sends[i].req)) == [w]
    requires c < |s.calls| && s.calls[c].send == i && Sourced(s, e) && e.msgId == s.calls[c].id
    ensures c == w
  {
    assert CallOk(s, c);
    EntryMatchesCall(s, c, e);
    assert c in Winners(s, KeyOf(s.calls[c].req));
  }

  lemma OnlyTheMessage(s: State, i: nat, w: nat)
    requires Inv(s) && i < |s.sends| && OwnKey(s, i) && Winners(s, KeyOf(s.sends[i].req)) == [w] && w < |s.calls|
    ensures NoOtherEntry(s, i, s.calls[w].id)
  {
    forall user: u64, partner: u64, k, c | EntryUnder(s, user, partner, k, c) && s.calls[c].send == i
      ensures s.calls[c].id == s.calls[w].id
    {
      var e := C.HistoryOf(StoreOf(s, user), partner)[k];
      assert EntryOk(s, user, partner, e);
      EntryOfSend(s, i, w, c, e);
    }
  }

  /**
  A send that the client saw succeed, under its own client message id and with the condition of AtMostOnceIff
  on its cache entry, made exactly one server message: the request with the acknowledged id.  It has been
  handed to the writer once, or the one call that will is still on its way.  The sender's history with the
  receiver holds that message exactly once, by whichever way and however often it came, and nobody's history
  holds anything else that this send made.
  */
  lemma SendIsExactlyOnce(states: seq<State>, actions: seq<Action>, ttl: int, n: nat, i: nat) returns (w: nat)
    requires Run(states, actions, ttl) && n < |states|
    requires i < |states[n].sends| && states[n].sends[i].outcome.Succeeded? && OwnKey(states[n], i)
    requires var k := KeyOf(states[n].sends[i].req);
             Evictions(states[n], k) == 0 || (Evictions(states[n], k) == 1 && k !in states[n].cache)
    ensures var s, send := states[n], states[n].sends[i];
            && Winners(s, KeyOf(send.req)) == [w] && w < |s.calls|
            && MessageOf(s.calls[w]) == send.req.(msgId := send.outcome.msgId)
            && ForKey(s, s.written, KeyOf(send.req)) == (if s.calls[w].pc.Admitted? then [] else [w])
            && HasRequestOnce(C.HistoryOf(StoreOf(s, send.req.senderId), send.req.receiverId), send.req, send.outcome.msgId)
            && NoOtherEntry(s, i, send.outcome.msgId)
  {
    RunInv(states, actions, ttl, n);
    var s := states[n];
    var k := KeyOf(s.sends[i].req);
    w := SuccessHasWinner(s, i);
    OnlyWinner(s, k, w);
    WrittenOnce(s, k, w);
    HistoryHasRequest(s, i, w);
    OnlyTheMessage(s, i, w);
  }

  lemma OnlyWinner(s: State, k: D.Key, w: nat)
    requires KeyOk(s, k) && Evictions(s, k) + (if k in s.cache then 1 else 0) <= 1 && w in Winners(s, k)
    ensures Winners(s, k) == [w]
  {
  }

  /** In any history of any user, every entry is a message of that user, filed under the other party, once. */
  lemma HistoriesHoldMessages(states: seq<State>, actions: seq<Action>, ttl: int, n: nat, user: u64, partner: u64, k: nat)
    requires Run(states, actions, ttl) && n < |states|
    requires k < |C.HistoryOf(StoreOf(states[n], user), partner)|
    ensures var history := C.HistoryOf(StoreOf(states[n], user), partner);
            EntryOk(states[n], user, partner, history[k]) && C.Occurrences(history, history[k].msgId) == 1
  {
    RunInv(states, actions, ttl, n);
    var history := C.HistoryOf(StoreOf(states[n], user), partner);
    assert C.Consistent(StoreOf(states[n], user));
    C.NoDuplicatesCounts(history, history[k].msgId);
  }

  lemma WrittenOnce(s: State, k: D.Key, w: nat)
    requires Inv(s) && Winners(s, k) == [w] && IsWinner(s, k, w)
    ensures ForKey(s, s.written, k) == (if s.calls[w].pc.Admitted? then [] else [w])
  {
    assert CallOk(s, w);
    ForKeyMembers(s, s.written, k);
    QueuedAreWinners(s, s.written, k);
    var log := ForKey(s, s.written, k);
    NoRepeatFits(log, [w]);
    assert log == [] || log[0] in log;
  }
}
