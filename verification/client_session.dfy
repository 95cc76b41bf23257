/**
The client of client/network_manager.cpp while it runs: each method of NetworkManager is one section the
source runs under `mutex_`, a session is any sequence of such sections, and SyncMessages is the paging loop.
*/
module ClientSession {
  import opened Messages
  import opened ClientStore

  // ---------------------------------------------------------------- the inbox on the server

  /** The rows of one user's inbox: ids ascend. */
  ghost predicate Ascending(rows: seq<P2PMessage>) {
    forall i, j :: 0 <= i < j < |rows| ==> rows[i].msgId < rows[j].msgId
  }

  datatype Page = Page(messages: seq<P2PMessage>, nextAckMsgId: u64, hasMore: bool)

  /** Rows above the cursor, in order. */
  function After(rows: seq<P2PMessage>, cursor: u64): (r: seq<P2PMessage>)
    ensures |r| <= |rows|
  {
    if rows == [] then []
    else if rows[0].msgId > cursor then [rows[0]] + After(rows[1..], cursor)
    else After(rows[1..], cursor)
  }

  /** std::clamp of the requested limit, 0 meaning 100. */
  function PageSize(limit: nat): (n: nat)
    ensures 1 <= n <= 500
  {
    if limit == 0 then 100 else if limit > 500 then 500 else limit
  }

  /** SELECT ... WHERE message_id > cursor LIMIT n on a clustered table. */
  function Select(rows: seq<P2PMessage>, cursor: u64, n: nat): seq<P2PMessage> {
    if |After(rows, cursor)| <= n then After(rows, cursor) else After(rows, cursor)[..n]
  }

  /** The first `size` of the rows `left` above the cursor, whether there are more, and where to go on. */
  predicate IsPage(left: seq<P2PMessage>, cursor: u64, size: nat, page: Page)
    requires size > 0
  {
    && page.messages == (if |left| <= size then left else left[..size])
    && page.hasMore == (|left| > size)
    && page.nextAckMsgId == (if left == [] then cursor else page.messages[|page.messages| - 1].msgId)
  }

  /** GetMessagesForUserAfter: one row too many tells whether there is more. */
  method GetMessagesAfter(rows: seq<P2PMessage>, cursor: u64, limit: nat) returns (page: Page)
    ensures IsPage(After(rows, cursor), cursor, PageSize(limit), page)
  {
    var size := PageSize(limit);
    var result := Select(rows, cursor, size + 1);
    var messages := [];
    for i := 0 to |result|
      invariant messages == result[..i]
    {
      messages := messages + [result[i]];
    }
    var hasMore := false;
    if |messages| > size {
      hasMore := true;
      messages := messages[..|messages| - 1];
    }
    page := Page(messages, if messages != [] then messages[|messages| - 1].msgId else cursor, hasMore);
  }

  /** The rows above the cursor are those from `p` on. */
  ghost predicate SplitAt(rows: seq<P2PMessage>, cursor: u64, p: nat) {
    p <= |rows| && forall i :: 0 <= i < |rows| ==> (rows[i].msgId > cursor <==> i >= p)
  }

  /** In an ascending inbox the rows above the cursor are a suffix. */
  lemma {:induction false} AfterIsSuffix(rows: seq<P2PMessage>, cursor: u64) returns (p: nat)
    requires Ascending(rows)
    ensures SplitAt(rows, cursor, p) && After(rows, cursor) == rows[p..]
  {
    if rows == [] {
      p := 0;
    } else {
      AscendingRest(rows);
      hide SplitAt, After, Ascending;
      p := AfterIsSuffix(rows[1..], cursor);
      AfterFirst(rows, cursor);
      if rows[0].msgId > cursor {
        SplitTaken(rows, cursor, p);
      } else {
        SplitSkipped(rows, cursor, p);
        p := p + 1;
      }
    }
  }

  lemma AscendingRest(rows: seq<P2PMessage>)
    requires Ascending(rows) && rows != []
    ensures Ascending(rows[1..])
  {
  }

  lemma AfterFirst(rows: seq<P2PMessage>, cursor: u64)
    requires rows != []
    ensures After(rows, cursor) == (if rows[0].msgId > cursor then [rows[0]] else []) + After(rows[1..], cursor)
  {
  }

  lemma SplitTaken(rows: seq<P2PMessage>, cursor: u64, q: nat)
    requires Ascending(rows) && rows != [] && rows[0].msgId > cursor && SplitAt(rows[1..], cursor, q)
    ensures q == 0 && SplitAt(rows, cursor, 0) && [rows[0]] + rows[1..][q..] == rows[0..]
  {
    if |rows| > 1 {
      assert rows[1..][0].msgId > cursor;
    }
  }

  lemma SplitSkipped(rows: seq<P2PMessage>, cursor: u64, q: nat)
    requires rows != [] && rows[0].msgId <= cursor && SplitAt(rows[1..], cursor, q)
    ensures SplitAt(rows, cursor, q + 1) && [] + rows[1..][q..] == rows[q + 1..]
  {
    forall i | 0 <= i < |rows| ensures rows[i].msgId > cursor <==> i >= q + 1 {
      if i > 0 {
        assert rows[i] == rows[1..][i - 1];
      }
    }
  }

  /** Moving the cursor to the k-th remaining row leaves exactly the rows behind it. */
  lemma AfterSkips(rows: seq<P2PMessage>, cursor: u64, k: nat)
    requires Ascending(rows) && 0 < k <= |After(rows, cursor)|
    ensures After(rows, After(rows, cursor)[k - 1].msgId) == After(rows, cursor)[k..]
    ensures After(rows, cursor)[k - 1].msgId > cursor
  {
    var p := AfterIsSuffix(rows, cursor);
    var x := rows[p + k - 1].msgId;
    var q := AfterIsSuffix(rows, x);
    assert q == p + k by {
      assert !(rows[p + k - 1].msgId > x);
      assert p + k < |rows| ==> rows[p + k].msgId > x;
    }
    assert rows[p..][k..] == rows[q..];
  }

  // ---------------------------------------------------------------- the client

  /** The messages of a page on their way into histories, as user `user` files them. */
  function PageArrivals(user: u64, messages: seq<P2PMessage>): (r: seq<Arrival>)
    ensures |r| == |messages| && forall i :: 0 <= i < |r| ==> r[i] == Arrival(SyncPartner(user, messages[i]), messages[i])
  {
    seq(|messages|, i requires 0 <= i < |messages| => Arrival(SyncPartner(user, messages[i]), messages[i]))
  }

  /** What comes back from one sync request. */
  datatype Answer = Answered | QueryFailed | NoAnswer | Refused

  /** How many requests it takes to fetch `n` messages in pages of 100. */
  function Rounds(n: nat): (r: nat)
    ensures r >= 1
  {
    if n <= 100 then 1 else 1 + Rounds(n - 100)
  }

  /** One request for an empty inbox, else the number of hundreds rounded up. */
  lemma {:induction false} RoundsIsCeiling(n: nat)
    ensures Rounds(n) == if n == 0 then 1 else (n + 99) / 100
  {
    if n > 100 {
      RoundsIsCeiling(n - 100);
    }
  }

  /**
  The server as a sync sees it: one user's inbox, which does not change, and what becomes of each request.
  `requested` is every message it handed out, request after request.
  */
  class InboxServer {
    const inbox: seq<P2PMessage>
    const answer: nat -> Answer
    var requests: nat
    ghost var requested: seq<P2PMessage>

    constructor (inbox: seq<P2PMessage>, answer: nat -> Answer)
      ensures this.inbox == inbox && this.answer == answer && requests == 0 && requested == []
    {
      this.inbox, this.answer, requests, requested := inbox, answer, 0, [];
    }

    /** One request for a page above the cursor.  A query that fails is answered with an empty last page. */
    method Request(cursor: u64) returns (outcome: Answer, page: Page)
      modifies this
      ensures requests == old(requests) + 1 && outcome == answer(old(requests))
      ensures outcome == Answered ==> IsPage(After(inbox, cursor), cursor, 100, page)
      ensures outcome != Answered ==> page == Page([], cursor, false)
      ensures requested == old(requested) + page.messages
    {
      outcome := answer(requests);
      requests := requests + 1;
      if outcome == Answered {
        page := GetMessagesAfter(inbox, cursor, 100);
      } else {
        page := Page([], cursor, false);
      }
      requested := requested + page.messages;
    }
  }

  /** The cursor stands behind the first `got` of the messages `left` above `first`. */
  ghost predicate Behind(inbox: seq<P2PMessage>, left: seq<P2PMessage>, got: nat, first: u64, cursor: u64) {
    && Ascending(inbox) && left == After(inbox, first) && got <= |left|
    && cursor == (if got == 0 then first else left[got - 1].msgId) && cursor >= first
    && After(inbox, cursor) == left[got..]
  }

  /** The first `got` of the messages `left` have been filed on top of `start`. */
  predicate Fetched(start: Store, user: u64, left: seq<P2PMessage>, got: nat, store: Store)
    requires got <= |left|
  {
    store == FileAll(start, PageArrivals(user, left[..got]))
  }

  /** Where a sync is after fetching `got` messages: what it filed, its cursor, and what it was handed. */
  ghost predicate Synced(inbox: seq<P2PMessage>, left: seq<P2PMessage>, first: u64, start: Store, user: u64,
                         asked: seq<P2PMessage>, got: nat, store: Store, cursor: u64, requested: seq<P2PMessage>) {
    && Behind(inbox, left, got, first, cursor)
    && Fetched(start, user, left, got, store)
    && requested == asked + left[..got]
  }

  /**
  What a sync did with the messages `left` above its cursor `first`: it was handed `got` of them, each once
  and in order, in `rounds` requests, the last of which came out as `last`.
  */
  ghost predicate SyncResult(left: seq<P2PMessage>, first: u64, start: Store, user: u64, asked: seq<P2PMessage>, got: nat,
                             rounds: nat, last: Answer, ok: bool, store: Store, cursor: u64, requested: seq<P2PMessage>) {
    && got <= |left| && 1 <= rounds <= Rounds(|left|)
    && requested == asked + left[..got]
    && Fetched(start, user, left, got, store)
    && cursor == (if got == 0 then first else left[got - 1].msgId) && cursor >= first
    && ok == (last == Answered || last == QueryFailed)
    && (last == Answered ==> got == |left| && rounds == Rounds(|left|))
    && (ok ==> (got == |left| <==> last == Answered || left == []))
  }

  class NetworkManager {
    var userId: u64
    var lastSyncedMsgId: u64
    var store: Store
    var status: map<u64, DeliveryState>

    ghost predicate Valid()
      reads this
    {
      Consistent(store)
    }

    constructor (user: u64)
      ensures Valid() && userId == user && lastSyncedMsgId == 0 && store == EMPTY && status == map[]
    {
      userId, lastSyncedMsgId, store, status := user, 0, EMPTY, map[];
    }

    function StatusOf(id: u64): DeliveryState
      reads this
    {
      if id in status then status[id] else NOTHING_KNOWN
    }

    method MergeMessageAck(msgId: u64, ack: AckStatus)
      modifies this`status
      ensures forall id: u64 :: StatusOf(id) == if id == msgId && id != 0 then Merge(old(StatusOf(id)), ack) else old(StatusOf(id))
    {
      if msgId == 0 {
        return;
      }
      status := status[msgId := Merge(StatusOf(msgId), ack)];
    }

    /** A batch of pushed ACKs: each message ends with the merge of the successful ACKs that name it. */
    method OnAckBatch(acks: seq<Ack>, ghost before: seq<Ack>)
      requires forall id: u64 :: StatusOf(id) == MergeAll(StatusesOf(before, id))
      modifies this`status
      ensures forall id: u64 :: StatusOf(id) == MergeAll(StatusesOf(before + acks, id))
      ensures forall id: u64 :: StatusOf(id) == Facts(Seen(StatusesOf(before + acks, id)))
    {
      assert before + acks[..0] == before;
      for i := 0 to |acks|
        invariant forall id: u64 :: StatusOf(id) == MergeAll(StatusesOf(before + acks[..i], id))
      {
        assert before + acks[..i + 1] == before + acks[..i] + [acks[i]];
        MergeKnown(before + acks[..i], acks[i]);
        if acks[i].success {
          MergeMessageAck(acks[i].msgId, acks[i].status);
        }
      }
      assert acks[..|acks|] == acks;
      forall id: u64 ensures StatusOf(id) == Facts(Seen(StatusesOf(before + acks, id))) {
        MergeDependsOnlyOnSet(StatusesOf(before + acks, id));
      }
    }

    /** A pushed message; the callback and the delivered ACK are the caller's. */
    method OnPush(msg: P2PMessage) returns (inserted: bool)
      requires Valid()
      modifies this`store
      ensures Valid() && store == File(old(store), msg.senderId, msg)
      ensures inserted == (store != old(store)) && Once(store, msg.senderId, msg.msgId)
    {
      inserted := msg.msgId !in IdsOf(store, msg.senderId);
      FileKeepsConsistent(store, msg.senderId, msg);
      store := File(store, msg.senderId, msg);
      NoDuplicatesCounts(HistoryOf(store, msg.senderId), msg.msgId);
    }

    /** A successful ACK of a message this client sent. */
    method OnSendAck(receiverId: u64, req: P2PMessage, msgId: u64, ack: AckStatus)
      requires Valid()
      modifies this`store, this`status
      ensures Valid() && store == File(old(store), receiverId, req.(msgId := msgId)) && Once(store, receiverId, msgId)
      ensures forall id: u64 :: StatusOf(id) == if id == msgId && id != 0 then Merge(old(StatusOf(id)), ack) else old(StatusOf(id))
    {
      MergeMessageAck(msgId, ack);
      FileKeepsConsistent(store, receiverId, req.(msgId := msgId));
      store := File(store, receiverId, req.(msgId := msgId));
      NoDuplicatesCounts(HistoryOf(store, receiverId), msgId);
    }

    /** The locked part of one sync round. */
    method ApplyPage(page: Page)
      modifies this`store, this`lastSyncedMsgId
      ensures store == FileAll(old(store), PageArrivals(userId, page.messages)) && (old(Valid()) ==> Valid())
      ensures lastSyncedMsgId == if page.nextAckMsgId > old(lastSyncedMsgId) then page.nextAckMsgId else old(lastSyncedMsgId)
    {
      var messages := page.messages;
      ghost var all := PageArrivals(userId, messages);
      for i := 0 to |messages|
        invariant store == FileAll(old(store), all[..i])
        invariant lastSyncedMsgId == old(lastSyncedMsgId)
      {
        store := File(store, SyncPartner(userId, messages[i]), messages[i]);
        assert all[..i + 1][..i] == all[..i];
      }
      assert all[..|messages|] == all;
      if old(Valid()) {
        FileAllConsistent(old(store), all);
      }
      if page.nextAckMsgId > lastSyncedMsgId {
        lastSyncedMsgId := page.nextAckMsgId;
      }
    }

    /** The first part of ClearAuth, outside the lock. */
    method ForgetUser()
      modifies this`userId
      ensures userId == 0
    {
      userId := 0;
    }

    /** The second part of ClearAuth, under the lock. */
    method ClearLocked()
      modifies this`lastSyncedMsgId, this`store, this`status
      ensures Valid() && lastSyncedMsgId == 0 && store == EMPTY && status == map[]
    {
      lastSyncedMsgId, store, status := 0, EMPTY, map[];
    }

    /** Login sets the user and clears nothing. */
    method OnLogin(user: u64)
      modifies this`userId
      ensures userId == user
    {
      userId := user;
    }

    /**
    Fetches the inbox page by page.  The server hands over a prefix of the messages above the cursor, each
    once and in ascending order over all requests together; they are filed, and the cursor ends at the last
    of them.  When every request is answered they are all of them, after exactly `Rounds` requests.  A failed
    query looks like an empty last page, so success means completeness exactly when no query failed with
    rows left.
    */
    method SyncMessages(server: InboxServer) returns (ok: bool, rounds: nat, ghost got: nat)
      requires Valid() && Ascending(server.inbox)
      modifies this`store, this`lastSyncedMsgId, server
      ensures Valid() && rounds >= 1 && server.requests == old(server.requests) + rounds
      ensures SyncResult(After(server.inbox, old(lastSyncedMsgId)), old(lastSyncedMsgId), old(store), userId,
                         old(server.requested), got, rounds, server.answer(server.requests - 1), ok, store,
                         lastSyncedMsgId, server.requested)
      ensures AllAnswered(server.answer, old(server.requests), server.requests - 1)
    {
      ghost var left, first := After(server.inbox, lastSyncedMsgId), lastSyncedMsgId;
      NothingFetched(server.inbox, left, first, store, userId, server.requested);
      var last;
      last, rounds, got := SyncLoop(server, left, first);
      ok := last == Answered || last == QueryFailed;
      SyncEnds(server.inbox, left, first, old(store), userId, old(server.requested), got, store, lastSyncedMsgId,
               server.requested, rounds, last);
    }

    /** The loop of requests; `last` is what became of the last one. */
    method SyncLoop(server: InboxServer, ghost left: seq<P2PMessage>, ghost first: u64)
      returns (last: Answer, rounds: nat, ghost got: nat)
      requires Synced(server.inbox, left, first, store, userId, server.requested, 0, store, lastSyncedMsgId, server.requested)
      modifies this`store, this`lastSyncedMsgId, server
      ensures Synced(server.inbox, left, first, old(store), userId, old(server.requested), got, store, lastSyncedMsgId,
                     server.requested)
      ensures rounds >= 1 && server.requests == old(server.requests) + rounds
      ensures last == server.answer(server.requests - 1) && RoundsEnd(|left|, got, rounds, last)
      ensures AllAnswered(server.answer, old(server.requests), server.requests - 1)
    {
      hide Synced;
      last, rounds, got := Answered, 0, 0;
      var more := true;
      while more
        invariant last == Answered && server.requests == old(server.requests) + rounds
        invariant Synced(server.inbox, left, first, old(store), userId, old(server.requested), got, store,
                         lastSyncedMsgId, server.requested)
        invariant RoundsLeft(|left|, got, rounds, more)
        invariant AllAnswered(server.answer, old(server.requests), server.requests) && (!more ==> rounds > 0)
        decreases more, |left| - got
      {
        RoundsStep(|left|, got, rounds);
        ghost var before := got;
        last, more, got := SyncRound(server, left, first, old(store), old(server.requested), got);
        rounds := rounds + 1;
        if last != Answered {
          RoundsShort(|left|, before, rounds - 1, last);
          return;
        }
        AnsweredMore(server.answer, old(server.requests), server.requests - 1);
      }
    }

    /** One round: an answer moves on by a page of at most 100, anything else ends the sync where it is. */
    method SyncRound(server: InboxServer, ghost left: seq<P2PMessage>, ghost first: u64, ghost start: Store,
                     ghost asked: seq<P2PMessage>, ghost got: nat)
      returns (outcome: Answer, more: bool, ghost now: nat)
      requires Synced(server.inbox, left, first, start, userId, asked, got, store, lastSyncedMsgId, server.requested)
      modifies this`store, this`lastSyncedMsgId, server
      ensures Synced(server.inbox, left, first, start, userId, asked, now, store, lastSyncedMsgId, server.requested)
      ensures server.requests == old(server.requests) + 1 && outcome == server.answer(old(server.requests))
      ensures now == (if outcome != Answered then got else if |left| - got <= 100 then |left| else got + 100)
      ensures more == (outcome == Answered && now < |left|)
    {
      ghost var cursor := lastSyncedMsgId;
      var page;
      outcome, page := server.Request(lastSyncedMsgId);
      if outcome == NoAnswer || outcome == Refused {
        NothingHanded(server.requested, old(server.requested), page.messages);
        return outcome, false, got;
      }
      ApplyPage(page);
      more, now := page.hasMore, got + |page.messages|;
      if outcome == Answered {
        NextPage(left, got, cursor, page);
        NextStore(start, userId, left, got, page, old(store), now, store);
        NextCursor(server.inbox, left, got, first, cursor, page, now, lastSyncedMsgId);
        NextHanded(asked, left, got, page.messages, now);
      } else {
        NothingHanded(server.requested, old(server.requested), page.messages);
        EmptyPage(userId, old(store));
      }
    }
  }

  /** Requests made and still to make add up. */
  predicate RoundsLeft(all: nat, got: nat, rounds: nat, more: bool) {
    got <= all
    && if more then rounds + Rounds(all - got) == Rounds(all) && (got < all || rounds == got == 0)
       else got == all && rounds == Rounds(all)
  }

  lemma SyncEnds(inbox: seq<P2PMessage>, left: seq<P2PMessage>, first: u64, start: Store, user: u64,
                 asked: seq<P2PMessage>, got: nat, store: Store, cursor: u64, requested: seq<P2PMessage>, rounds: nat,
                 last: Answer)
    requires Synced(inbox, left, first, start, user, asked, got, store, cursor, requested)
    requires rounds >= 1 && RoundsEnd(|left|, got, rounds, last) && Consistent(start)
    ensures SyncResult(left, first, start, user, asked, got, rounds, last, last == Answered || last == QueryFailed, store,
                       cursor, requested)
    ensures Consistent(store)
  {
    FileAllConsistent(start, PageArrivals(user, left[..got]));
  }

  ghost predicate AllAnswered(answer: nat -> Answer, from: nat, to: int) {
    forall r: nat :: from <= r < to ==> answer(r) == Answered
  }

  lemma AnsweredMore(answer: nat -> Answer, from: nat, to: nat)
    requires from <= to && AllAnswered(answer, from, to) && answer(to) == Answered
    ensures AllAnswered(answer, from, to + 1)
  {
  }

  lemma NothingHanded(requested: seq<P2PMessage>, before: seq<P2PMessage>, page: seq<P2PMessage>)
    requires requested == before + page && page == []
    ensures requested == before
  {
  }

  lemma NextHanded(asked: seq<P2PMessage>, left: seq<P2PMessage>, got: nat, page: seq<P2PMessage>, now: nat)
    requires got + |page| == now <= |left| && page == left[got..][..|page|]
    ensures asked + left[..got] + page == asked + left[..now]
  {
    assert left[..got] + page == left[..now];
  }

  /** How the loop ends: with everything after the full number of requests, or short of it. */
  predicate RoundsEnd(all: nat, got: nat, rounds: nat, last: Answer) {
    if last == Answered then RoundsLeft(all, got, rounds, false)
    else rounds <= Rounds(all) && (got == all ==> all == 0)
  }

  lemma RoundsStep(all: nat, got: nat, rounds: nat)
    requires RoundsLeft(all, got, rounds, true)
    ensures var now := if all - got <= 100 then all else got + 100; RoundsLeft(all, now, rounds + 1, now < all)
  {
  }

  lemma RoundsShort(all: nat, got: nat, rounds: nat, last: Answer)
    requires RoundsLeft(all, got, rounds, true) && last != Answered
    ensures RoundsEnd(all, got, rounds + 1, last)
  {
  }

  lemma NothingFetched(inbox: seq<P2PMessage>, left: seq<P2PMessage>, first: u64, store: Store, user: u64,
                       asked: seq<P2PMessage>)
    requires Ascending(inbox) && left == After(inbox, first)
    ensures Synced(inbox, left, first, store, user, asked, 0, store, first, asked)
  {
    EmptyPage(user, store);
    assert left[..0] == [] && left[0..] == left && asked + [] == asked;
  }

  lemma EmptyPage(user: u64, store: Store)
    ensures FileAll(store, PageArrivals(user, [])) == store
  {
    assert PageArrivals(user, []) == [];
  }

  lemma NextPage(left: seq<P2PMessage>, got: nat, cursor: u64, page: Page)
    requires got <= |left| && IsPage(left[got..], cursor, 100, page)
    ensures got + |page.messages| == (if |left| - got <= 100 then |left| else got + 100)
    ensures page.hasMore == (got + |page.messages| < |left|)
    ensures page.messages == left[got..][..|page.messages|]
  {
  }

  lemma NextStore(start: Store, user: u64, left: seq<P2PMessage>, got: nat, page: Page, store: Store, now: nat,
                  store': Store)
    requires got + |page.messages| == now <= |left| && page.messages == left[got..][..|page.messages|]
    requires Fetched(start, user, left, got, store) && store' == FileAll(store, PageArrivals(user, page.messages))
    ensures Fetched(start, user, left, now, store')
  {
    var a, b := PageArrivals(user, left[..got]), PageArrivals(user, page.messages);
    FileAllConcat(start, a, b);
    assert a + b == PageArrivals(user, left[..now]);
  }

  lemma NextCursor(inbox: seq<P2PMessage>, left: seq<P2PMessage>, got: nat, first: u64, cursor: u64, page: Page,
                   now: nat, cursor': u64)
    requires Behind(inbox, left, got, first, cursor) && IsPage(left[got..], cursor, 100, page)
    requires now == got + |page.messages|
    requires cursor' == if page.nextAckMsgId > cursor then page.nextAckMsgId else cursor
    ensures Behind(inbox, left, now, first, cursor')
  {
    var k := |page.messages|;
    if k > 0 {
      AfterSkips(inbox, cursor, k);
      assert left[got..][k..] == left[got + k..];
      assert left[got..][k - 1] == left[got + k - 1] && page.messages[k - 1] == left[got..][k - 1];
    }
  }

  /** A sync that reports success and fetched nothing of what was there. */
  method SyncCanStopShort() returns (client: NetworkManager, ok: bool)
    ensures ok && client.store == EMPTY && After([P2PMessage(5, 1, 2, 0, [], 9, 0)], client.lastSyncedMsgId) != []
  {
    client := new NetworkManager(2);
    var server := new InboxServer([P2PMessage(5, 1, 2, 0, [], 9, 0)], _ => QueryFailed);
    var rounds;
    ghost var got;
    ok, rounds, got := client.SyncMessages(server);
    EmptyPage(client.userId, EMPTY);
    assert After(server.inbox, 0)[..got] == [];
  }

  // ---------------------------------------------------------------- any session

  /** A section of the client: those under the lock in the order they took it, and the two that set the user. */
  datatype Event =
    | Pushed(msg: P2PMessage)
    | SendAcked(receiverId: u64, req: P2PMessage, msgId: u64, ack: AckStatus)
    | PageReceived(page: Page)
    | AcksPushed(acks: seq<Ack>)
    | UserForgotten
    | Cleared
    | LoggedIn(user: u64)

  function UserAfter(user: u64, events: seq<Event>): u64 {
    if events == [] then user
    else match events[|events| - 1]
         case LoggedIn(u) => u
         case UserForgotten => 0
         case _ => UserAfter(user, events[..|events| - 1])
  }

  /** What an event brings into histories while `user` is logged in. */
  function Brought(user: u64, event: Event): seq<Arrival> {
    match event
    case Pushed(msg) => [Arrival(msg.senderId, msg)]
    case SendAcked(receiverId, req, msgId, _) => [Arrival(receiverId, req.(msgId := msgId))]
    case PageReceived(page) => PageArrivals(user, page.messages)
    case _ => []
  }

  /** Everything brought since the histories were last cleared. */
  function Arrivals(user: u64, events: seq<Event>): seq<Arrival> {
    if events == [] then []
    else
      var front, last := events[..|events| - 1], events[|events| - 1];
      if last.Cleared? then [] else Arrivals(user, front) + Brought(UserAfter(user, front), last)
  }

  function Carried(event: Event): seq<Ack> {
    match event
    case SendAcked(_, _, msgId, ack) => [Ack(msgId, true, ack)]
    case AcksPushed(acks) => acks
    case _ => []
  }

  /** The ACKs since then, successful or not. */
  function AcksSince(events: seq<Event>): seq<Ack> {
    if events == [] then []
    else
      var last := events[|events| - 1];
      if last.Cleared? then [] else AcksSince(events[..|events| - 1]) + Carried(last)
  }

  /** The largest cursor of a page since then. */
  function CursorAfter(events: seq<Event>): u64 {
    if events == [] then 0
    else
      var before := CursorAfter(events[..|events| - 1]);
      match events[|events| - 1]
      case Cleared => 0
      case PageReceived(page) => if page.nextAckMsgId > before then page.nextAckMsgId else before
      case _ => before
  }

  /** Between clears the cursor never goes back. */
  lemma {:induction false} CursorNeverDecreases(events: seq<Event>, i: nat)
    requires i <= |events| && forall j :: i <= j < |events| ==> !events[j].Cleared?
    ensures CursorAfter(events[..i]) <= CursorAfter(events)
  {
    if i < |events| {
      var front := events[..|events| - 1];
      CursorNeverDecreases(front, i);
      assert front[..i] == events[..i];
    } else {
      assert events[..i] == events;
    }
  }

  method Handle(client: NetworkManager, event: Event, ghost known: seq<Ack>)
    requires client.Valid() && !event.Cleared? && !event.UserForgotten? && !event.LoggedIn?
    requires forall id: u64 :: client.StatusOf(id) == MergeAll(StatusesOf(known, id))
    modifies client`store, client`status, client`lastSyncedMsgId
    ensures client.Valid() && client.store == FileAll(old(client.store), Brought(client.userId, event))
    ensures client.lastSyncedMsgId == if event.PageReceived? && event.page.nextAckMsgId > old(client.lastSyncedMsgId)
                                      then event.page.nextAckMsgId else old(client.lastSyncedMsgId)
    ensures forall id: u64 :: client.StatusOf(id) == MergeAll(StatusesOf(known + Carried(event), id))
  {
    hide FileAll, File, MergeAll, StatusesOf;
    match event
    case Pushed(msg) =>
      FileOne(client.store, Arrival(msg.senderId, msg));
      var inserted := client.OnPush(msg);
      assert known + Carried(event) == known;
    case SendAcked(receiverId, req, msgId, ack) =>
      FileOne(client.store, Arrival(receiverId, req.(msgId := msgId)));
      MergeKnown(known, Ack(msgId, true, ack));
      client.OnSendAck(receiverId, req, msgId, ack);
    case PageReceived(page) =>
      client.ApplyPage(page);
      assert known + Carried(event) == known;
    case AcksPushed(acks) =>
      FileNone(client.store);
      client.OnAckBatch(acks, known);
  }

  lemma FileNone(store: Store)
    ensures FileAll(store, []) == store
  {
  }

  lemma FileOne(store: Store, a: Arrival)
    ensures FileAll(store, [a]) == File(store, a.partner, a.msg)
  {
    assert [a][..0] == [];
    assert FileAll(store, []) == store;
  }

  lemma OneMoreEvent(user: u64, events: seq<Event>, e: Event)
    ensures Arrivals(user, events + [e])
            == if e.Cleared? then [] else Arrivals(user, events) + Brought(UserAfter(user, events), e)
    ensures AcksSince(events + [e]) == if e.Cleared? then [] else AcksSince(events) + Carried(e)
    ensures UserAfter(user, events + [e])
            == match e case LoggedIn(u) => u case UserForgotten => 0 case _ => UserAfter(user, events)
    ensures CursorAfter(events + [e])
            == match e
               case Cleared => 0
               case PageReceived(page) =>
                 if page.nextAckMsgId > CursorAfter(events) then page.nextAckMsgId else CursorAfter(events)
               case _ => CursorAfter(events)
  {
    assert (events + [e])[..|events|] == events;
  }

  /** The client after a run of events. */
  ghost predicate Follows(client: NetworkManager, user: u64, events: seq<Event>)
    reads client
  {
    && client.Valid() && client.userId == UserAfter(user, events)
    && client.store == FileAll(EMPTY, Arrivals(user, events))
    && client.lastSyncedMsgId == CursorAfter(events)
    && forall id: u64 :: client.StatusOf(id) == MergeAll(StatusesOf(AcksSince(events), id))
  }

  method Step(client: NetworkManager, ghost user: u64, ghost before: seq<Event>, event: Event)
    requires Follows(client, user, before)
    modifies client
    ensures Follows(client, user, before + [event])
  {
    OneMoreEvent(user, before, event);
    match event
    case Cleared => client.ClearLocked();
    case UserForgotten =>
      client.ForgetUser();
      NothingBrought(user, before, event);
    case LoggedIn(u) =>
      client.OnLogin(u);
      NothingBrought(user, before, event);
    case _ =>
      FileAllConcat(EMPTY, Arrivals(user, before), Brought(client.userId, event));
      Handle(client, event, AcksSince(before));
  }

  lemma NothingBrought(user: u64, before: seq<Event>, event: Event)
    requires event.UserForgotten? || event.LoggedIn?
    ensures Arrivals(user, before) + Brought(UserAfter(user, before), event) == Arrivals(user, before)
    ensures AcksSince(before) + Carried(event) == AcksSince(before)
  {
  }

  /**
  Any interleaving of pushes, send ACKs, sync pages, pushed ACKs, logouts and logins.  Each history is exactly
  what arrived for its partner since the last clear, the first message of each id, in order of arrival; the
  delivery facts are those of the set of ACKs seen since then.
  */
  method Session(user: u64, events: seq<Event>) returns (client: NetworkManager)
    ensures Follows(client, user, events)
    ensures forall p: u64 :: HistoryOf(client.store, p) == Firsts(Arrivals(user, events), p)
    ensures forall id: u64 :: client.StatusOf(id) == Facts(Seen(StatusesOf(AcksSince(events), id)))
  {
    client := new NetworkManager(user);
    for i := 0 to |events|
      invariant Follows(client, user, events[..i])
    {
      assert events[..i + 1] == events[..i] + [events[i]];
      Step(client, user, events[..i], events[i]);
    }
    assert events[..|events|] == events;
    forall p: u64 ensures HistoryOf(client.store, p) == Firsts(Arrivals(user, events), p) {
      HistoryIsFirsts(Arrivals(user, events), p);
    }
    forall id: u64 ensures client.StatusOf(id) == Facts(Seen(StatusesOf(AcksSince(events), id))) {
      MergeDependsOnlyOnSet(StatusesOf(AcksSince(events), id));
    }
  }

  // ---------------------------------------------------------------- the right partner

  /** The event carries messages of `owner` only: received by push, sent by itself, or either by sync. */
  predicate Owned(owner: u64, event: Event) {
    match event
    case Pushed(msg) => msg.receiverId == owner
    case SendAcked(receiverId, req, _, _) => req.senderId == owner && req.receiverId == receiverId
    case PageReceived(page) =>
      forall i :: 0 <= i < |page.messages| ==> OwnMessage(owner, page.messages[i])
    case _ => true
  }

  predicate OwnMessage(owner: u64, m: P2PMessage) {
    m.senderId == owner || m.receiverId == owner
  }

  /**
  A message of `owner` goes astray when `user`, somebody else or nobody, is logged in: one the owner sent to
  another, or one that this user sent to the owner.
  */
  predicate Astray(owner: u64, user: u64, m: P2PMessage) {
    && user != owner && m.senderId != m.receiverId
    && (m.senderId == owner || (m.senderId == user && m.receiverId == owner))
  }

  lemma RightUnlessAstray(owner: u64, user: u64, m: P2PMessage)
    requires OwnMessage(owner, m)
    ensures SyncPartner(user, m) == SyncPartner(owner, m) <==> !Astray(owner, user, m)
  {
  }

  /** A page of the owner that reaches the client under another user id, with a message that goes astray. */
  predicate StalePage(owner: u64, user: u64, event: Event) {
    event.PageReceived? && exists i :: 0 <= i < |event.page.messages| && Astray(owner, user, event.page.messages[i])
  }

  /** One event: every message goes to the right history exactly when the event is not such a page. */
  lemma BroughtRightIff(owner: u64, user: u64, event: Event)
    requires Owned(owner, event)
    ensures AllRight(owner, Brought(user, event)) <==> !StalePage(owner, user, event)
  {
    if event.PageReceived? {
      var ms := event.page.messages;
      forall i | 0 <= i < |ms| ensures Right(owner, Brought(user, event)[i]) <==> !Astray(owner, user, ms[i]) {
        assert OwnMessage(owner, ms[i]);
        RightUnlessAstray(owner, user, ms[i]);
      }
    }
  }

  lemma AllRightConcat(owner: u64, a: seq<Arrival>, b: seq<Arrival>)
    ensures AllRight(owner, a + b) <==> AllRight(owner, a) && AllRight(owner, b)
  {
    if AllRight(owner, a + b) {
      forall i | 0 <= i < |a| ensures Right(owner, a[i]) { assert (a + b)[i] == a[i]; }
      forall i | 0 <= i < |b| ensures Right(owner, b[i]) { assert (a + b)[|a| + i] == b[i]; }
    }
  }

  /** Since the last clear, in a session of `owner`. */
  predicate SessionOf(owner: u64, events: seq<Event>) {
    forall i :: 0 <= i < |events| ==> !events[i].Cleared? && Owned(owner, events[i])
  }

  predicate NoStalePage(owner: u64, user: u64, events: seq<Event>) {
    forall i :: 0 <= i < |events| ==> !StalePage(owner, UserAfter(user, events[..i]), events[i])
  }

  lemma SessionFront(owner: u64, user: u64, events: seq<Event>)
    requires events != []
    ensures var n := |events| - 1;
            && (SessionOf(owner, events) ==> SessionOf(owner, events[..n]))
            && (NoStalePage(owner, user, events)
                <==> NoStalePage(owner, user, events[..n]) && !StalePage(owner, UserAfter(user, events[..n]), events[n]))
  {
    var n := |events| - 1;
    forall i | 0 <= i < n ensures events[..n][i] == events[i] && events[..n][..i] == events[..i] {
    }
  }

  /**
  All three insertion paths agree: since the last clear, and whoever is or is not logged in meanwhile, every
  message of the owner that arrived, by push, by ACK or by sync, is filed under its one partner, if and only
  if no page was applied under another user id with a message that goes astray under it.
  */
  lemma {:induction false} RightPartnersIff(owner: u64, user: u64, events: seq<Event>)
    requires SessionOf(owner, events)
    ensures AllRight(owner, Arrivals(user, events)) <==> NoStalePage(owner, user, events)
  {
    if events != [] {
      var n := |events| - 1;
      SessionFront(owner, user, events);
      RightPartnersIff(owner, user, events[..n]);
      assert !events[n].Cleared? && Owned(owner, events[n]);
      BroughtRightIff(owner, UserAfter(user, events[..n]), events[n]);
      AllRightConcat(owner, Arrivals(user, events[..n]), Brought(UserAfter(user, events[..n]), events[n]));
    }
  }

  /**
  So, in a session without such a page, the history with `p` holds only messages between the user and `p`,
  and an id that names one message is in one history only.
  */
  lemma OwnHistories(owner: u64, user: u64, events: seq<Event>, p: u64, k: nat, q: u64, l: nat)
    requires SessionOf(owner, events) && NoStalePage(owner, user, events)
    requires var store := FileAll(EMPTY, Arrivals(user, events)); k < |HistoryOf(store, p)| && l < |HistoryOf(store, q)|
    ensures var store := FileAll(EMPTY, Arrivals(user, events));
            && SyncPartner(owner, HistoryOf(store, p)[k]) == p
            && (IdsAgree(Arrivals(user, events)) && HistoryOf(store, p)[k].msgId == HistoryOf(store, q)[l].msgId ==> p == q)
  {
    RightPartnersIff(owner, user, events);
    var arrivals := Arrivals(user, events);
    HistoryIsWithPartner(owner, arrivals, p, k);
    if IdsAgree(arrivals) && HistoryOf(FileAll(EMPTY, arrivals), p)[k].msgId == HistoryOf(FileAll(EMPTY, arrivals), q)[l].msgId {
      IdInOneHistory(owner, arrivals, p, q, k, l);
    }
  }

  /** Such a run: logout, then a page with a message from 7 to 9 ends up in the history of 7 with itself. */
  lemma StalePageMisfiles(m: P2PMessage)
    requires m.senderId == 7 && m.receiverId == 9
    ensures Arrivals(7, [UserForgotten, Cleared, PageReceived(Page([m], m.msgId, false))]) == [Arrival(7, m)]
    ensures SyncPartner(7, m) == 9
  {
    var page := PageReceived(Page([m], m.msgId, false));
    var events := [UserForgotten, Cleared, page];
    assert events[..2] == [UserForgotten, Cleared] && [UserForgotten, Cleared][..1] == [UserForgotten];
    assert UserAfter(7, [UserForgotten]) == 0 && UserAfter(7, events[..2]) == 0;
    assert Arrivals(7, events[..2]) == [];
  }

  /** Another: a page of user 7 that arrives after user 8 has logged in files a message from 8 to 7 under 7. */
  lemma LatePageMisfiles(m: P2PMessage)
    requires m.senderId == 8 && m.receiverId == 7
    ensures Arrivals(7, [Cleared, LoggedIn(8), PageReceived(Page([m], m.msgId, false))]) == [Arrival(7, m)]
    ensures SyncPartner(7, m) == 8
  {
    var page := PageReceived(Page([m], m.msgId, false));
    var events := [Cleared, LoggedIn(8), page];
    assert events[..2] == [Cleared, LoggedIn(8)] && [Cleared, LoggedIn(8)][..1] == [Cleared];
    assert Arrivals(7, [Cleared]) == [] && Arrivals(7, events[..2]) == [] + Brought(UserAfter(7, [Cleared]), LoggedIn(8));
    assert UserAfter(7, events[..2]) == 8;
  }

  // ---------------------------------------------------------------- the next login

  lemma FiledIsNotEmpty(arrivals: seq<Arrival>)
    ensures FileAll(EMPTY, arrivals) == EMPTY <==> arrivals == []
  {
    if arrivals != [] {
      ArrivedIsFiledOnce(arrivals, 0);
      assert HistoryOf(EMPTY, arrivals[0].partner) == [];
    }
  }

  lemma {:induction false} ArrivalsSinceClear(user: u64, before: seq<Event>, since: seq<Event>)
    requires forall i :: 0 <= i < |since| ==> !since[i].Cleared?
    ensures Arrivals(user, before + [Cleared] + since) == Arrivals(UserAfter(user, before), since)
    ensures UserAfter(user, before + [Cleared] + since) == UserAfter(UserAfter(user, before), since)
    decreases |since|
  {
    if since == [] {
      OneMoreEvent(user, before, Cleared);
      assert before + [Cleared] + since == before + [Cleared];
    } else {
      var front, last := since[..|since| - 1], since[|since| - 1];
      ArrivalsSinceClear(user, before, front);
      OneMoreEvent(user, before + [Cleared] + front, last);
      OneMoreEvent(UserAfter(user, before), front, last);
      LastOff(before + [Cleared], since);
    }
  }

  lemma LastOff(a: seq<Event>, b: seq<Event>)
    requires b != []
    ensures b == b[..|b| - 1] + [b[|b| - 1]]
    ensures a + b == a + b[..|b| - 1] + [b[|b| - 1]]
  {
  }

  predicate BringsNothing(event: Event) {
    !event.Pushed? && !event.SendAcked? && (event.PageReceived? ==> event.page.messages == [])
  }

  lemma {:induction false} NothingArrivesIff(user: u64, events: seq<Event>)
    requires forall i :: 0 <= i < |events| ==> !events[i].Cleared?
    ensures Arrivals(user, events) == [] <==> forall i :: 0 <= i < |events| ==> BringsNothing(events[i])
  {
    if events != [] {
      var n := |events| - 1;
      NothingArrivesIff(user, events[..n]);
      ArrivalsNext(user, events);
      hide Arrivals, Brought, UserAfter, BringsNothing;
      NothingBroughtIff(UserAfter(user, events[..n]), events[n]);
      QuietNext(events);
    }
  }

  lemma ArrivalsNext(user: u64, events: seq<Event>)
    requires events != [] && !events[|events| - 1].Cleared?
    ensures var front, last := events[..|events| - 1], events[|events| - 1];
            Arrivals(user, events) == Arrivals(user, front) + Brought(UserAfter(user, front), last)
  {
  }

  lemma QuietNext(events: seq<Event>)
    requires events != []
    ensures var front := events[..|events| - 1];
            (forall i :: 0 <= i < |events| ==> BringsNothing(events[i]))
            <==> (forall i :: 0 <= i < |front| ==> BringsNothing(front[i])) && BringsNothing(events[|events| - 1])
  {
    hide BringsNothing;
    var front := events[..|events| - 1];
    assert forall i :: 0 <= i < |front| ==> front[i] == events[i];
  }

  lemma NothingBroughtIff(user: u64, event: Event)
    ensures Brought(user, event) == [] <==> BringsNothing(event)
  {
  }

  /**
  Logout clears before the connection is closed, and login clears nothing: the next user starts with empty
  histories if and only if nothing arrived in between.
  */
  lemma NextSessionStartsCleanIff(user: u64, before: seq<Event>, between: seq<Event>, next: u64)
    requires forall i :: 0 <= i < |between| ==> !between[i].Cleared?
    ensures var events := before + [Cleared] + (between + [LoggedIn(next)]);
            && UserAfter(user, events) == next
            && (FileAll(EMPTY, Arrivals(user, events)) == EMPTY
                <==> forall i :: 0 <= i < |between| ==> BringsNothing(between[i]))
  {
    var since := between + [LoggedIn(next)];
    ArrivalsSinceClear(user, before, since);
    FiledIsNotEmpty(Arrivals(UserAfter(user, before), since));
    NothingArrivesIff(UserAfter(user, before), since);
    assert forall i :: 0 <= i < |between| ==> since[i] == between[i];
    assert since[|between|] == LoggedIn(next);
  }

  /** A push that arrives between clearing and closing is still there when user 8 logs in. */
  lemma PushOutlivesLogout(m: P2PMessage)
    ensures var events := [UserForgotten, Cleared, Pushed(m), LoggedIn(8)];
            UserAfter(7, events) == 8 && Once(FileAll(EMPTY, Arrivals(7, events)), m.senderId, m.msgId)
  {
    var events := [UserForgotten, Cleared, Pushed(m), LoggedIn(8)];
    assert events == [UserForgotten] + [Cleared] + [Pushed(m), LoggedIn(8)];
    ArrivalsSinceClear(7, [UserForgotten], [Pushed(m), LoggedIn(8)]);
    var since := [Pushed(m), LoggedIn(8)];
    assert since[..1] == [Pushed(m)] && [Pushed(m)][..0] == [];
    assert Arrivals(0, since[..1]) == [Arrival(m.senderId, m)];
    ArrivedIsFiledOnce(Arrivals(0, since), 0);
  }
}
