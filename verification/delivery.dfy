/**
Persisting and syncing put together: what the writer reported stored, a later complete sync of either user
files.  The server's inbox query (server/src/dao/msg_scylla_dao.cpp) is the step between the two.
*/
module Delivery {
  import opened Messages
  import C = ClientStore
  import P = SendProtocol
  import R = ServerRun
  import S = ClientSession
  import T = Tables

  /** The rows the inbox query walks for one user: that partition, by ascending message id. */
  ghost predicate InboxRows(t: T.Tables, user: u64, rows: seq<P2PMessage>) {
    && S.Ascending(rows)
    && (forall id: u64 :: (user, id) in t.inbox <==> id in C.MsgIds(rows))
    && (forall i :: 0 <= i < |rows| ==>
          (user, rows[i].msgId) in t.inbox && T.RowOf(rows[i]) == t.inbox[(user, rows[i].msgId)])
  }

  predicate Party(user: u64, m: P2PMessage) {
    user == m.senderId || user == m.receiverId
  }

  /** A stored message is one of its users' rows, with its own sender, receiver and content. */
  lemma StoredIsRow(t: T.Tables, m: P2PMessage, user: u64, rows: seq<P2PMessage>) returns (i: nat)
    requires T.Stored(t, m) && InboxRows(t, user, rows) && Party(user, m)
    ensures i < |rows| && rows[i].msgId == m.msgId && T.RowOf(rows[i]) == T.RowOf(m)
  {
    assert (user, m.msgId) in t.inbox;
    assert m.msgId in C.MsgIds(rows);
    i :| 0 <= i < |rows| && rows[i].msgId == m.msgId;
  }

  lemma SameRowSamePartner(user: u64, a: P2PMessage, b: P2PMessage)
    requires T.RowOf(a) == T.RowOf(b)
    ensures C.SyncPartner(user, a) == C.SyncPartner(user, b)
  {
    assert T.RowOf(a).senderId == a.senderId && T.RowOf(a).receiverId == a.receiverId;
    assert T.RowOf(b).senderId == b.senderId && T.RowOf(b).receiverId == b.receiverId;
  }

  // ---------------------------------------------------------------- entries that agree

  /** Whatever arrives under the id of `m` is `m`, up to the client's id, which tables do not keep. */
  predicate AgreesWith(arrivals: seq<C.Arrival>, m: P2PMessage) {
    forall i :: 0 <= i < |arrivals| && arrivals[i].msg.msgId == m.msgId ==> T.RowOf(arrivals[i].msg) == T.RowOf(m)
  }

  /** And so is whatever a history holds under that id. */
  predicate EntriesAgree(history: seq<P2PMessage>, m: P2PMessage) {
    forall k :: 0 <= k < |history| && history[k].msgId == m.msgId ==> T.RowOf(history[k]) == T.RowOf(m)
  }

  lemma {:induction false} FileAllAgrees(store: C.Store, arrivals: seq<C.Arrival>, partner: u64, m: P2PMessage)
    requires EntriesAgree(C.HistoryOf(store, partner), m) && AgreesWith(arrivals, m)
    ensures EntriesAgree(C.HistoryOf(C.FileAll(store, arrivals), partner), m)
  {
    if arrivals != [] {
      var n := |arrivals| - 1;
      assert AgreesWith(arrivals[..n], m);
      FileAllAgrees(store, arrivals[..n], partner, m);
      FileAgrees(C.FileAll(store, arrivals[..n]), arrivals[n], partner, m);
    }
  }

  lemma FileAgrees(store: C.Store, a: C.Arrival, partner: u64, m: P2PMessage)
    requires EntriesAgree(C.HistoryOf(store, partner), m) && (a.msg.msgId == m.msgId ==> T.RowOf(a.msg) == T.RowOf(m))
    ensures EntriesAgree(C.HistoryOf(C.File(store, a.partner, a.msg), partner), m)
  {
    var before, after := C.HistoryOf(store, partner), C.HistoryOf(C.File(store, a.partner, a.msg), partner);
    assert after == before || after == before + [a.msg];
  }

  lemma InboxAgrees(t: T.Tables, user: u64, rows: seq<P2PMessage>, m: P2PMessage)
    requires T.Stored(t, m) && InboxRows(t, user, rows) && Party(user, m)
    ensures EntriesAgree(rows, m)
  {
  }

  lemma PageAgrees(user: u64, rows: seq<P2PMessage>, p: nat, m: P2PMessage)
    requires EntriesAgree(rows, m) && p <= |rows|
    ensures AgreesWith(S.PageArrivals(user, rows[p..]), m)
  {
    assert EntriesAgree(rows[p..], m);
  }

  /** The history with `partner` has one entry under the id of `m`, and that entry is `m`. */
  ghost predicate HasOnce(store: C.Store, partner: u64, m: P2PMessage) {
    C.Once(store, partner, m.msgId) && EntriesAgree(C.HistoryOf(store, partner), m)
  }

  /** The row of a stored message above the cursor is among those fetched. */
  lemma FetchesRow(t: T.Tables, m: P2PMessage, user: u64, rows: seq<P2PMessage>, cursor: u64) returns (i: nat)
    requires T.Stored(t, m) && InboxRows(t, user, rows) && Party(user, m) && cursor < m.msgId
    ensures i < |S.After(rows, cursor)|
    ensures S.After(rows, cursor)[i].msgId == m.msgId && T.RowOf(S.After(rows, cursor)[i]) == T.RowOf(m)
  {
    hide S.After, T.Stored, T.RowOf;
    var j := StoredIsRow(t, m, user, rows);
    var p := S.AfterIsSuffix(rows, cursor);
    i := j - p;
  }

  lemma FetchedAgrees(t: T.Tables, m: P2PMessage, user: u64, rows: seq<P2PMessage>, cursor: u64)
    requires T.Stored(t, m) && InboxRows(t, user, rows) && Party(user, m)
    ensures AgreesWith(S.PageArrivals(user, S.After(rows, cursor)), m)
  {
    var p := S.AfterIsSuffix(rows, cursor);
    InboxAgrees(t, user, rows, m);
    PageAgrees(user, rows, p, m);
  }

  /** Filing every row above a cursor below the message's id files the message, once. */
  lemma FetchedIsFiled(t: T.Tables, m: P2PMessage, user: u64, rows: seq<P2PMessage>, cursor: u64, store: C.Store)
    requires T.Stored(t, m) && InboxRows(t, user, rows) && Party(user, m) && cursor < m.msgId
    requires C.Consistent(store) && EntriesAgree(C.HistoryOf(store, C.SyncPartner(user, m)), m)
    ensures HasOnce(C.FileAll(store, S.PageArrivals(user, S.After(rows, cursor))), C.SyncPartner(user, m), m)
  {
    var i := FetchesRow(t, m, user, rows, cursor);
    FetchedAgrees(t, m, user, rows, cursor);
    FiledOnce(store, user, S.After(rows, cursor), i, m);
  }

  lemma FiledOnce(store: C.Store, user: u64, left: seq<P2PMessage>, i: nat, m: P2PMessage)
    requires i < |left| && left[i].msgId == m.msgId && T.RowOf(left[i]) == T.RowOf(m)
    requires C.Consistent(store) && EntriesAgree(C.HistoryOf(store, C.SyncPartner(user, m)), m)
    requires AgreesWith(S.PageArrivals(user, left), m)
    ensures HasOnce(C.FileAll(store, S.PageArrivals(user, left)), C.SyncPartner(user, m), m)
  {
    SameRowSamePartner(user, left[i], m);
    C.FileAllHas(store, S.PageArrivals(user, left), i);
    FileAllAgrees(store, S.PageArrivals(user, left), C.SyncPartner(user, m), m);
  }

  // ---------------------------------------------------------------- end to end

  /** A sync in which every request is answered files every stored message above the cursor, once. */
  method SyncFiles(client: S.NetworkManager, server: S.InboxServer, ghost t: T.Tables, ghost m: P2PMessage)
    returns (ok: bool)
    requires client.Valid() && EntriesAgree(C.HistoryOf(client.store, C.SyncPartner(client.userId, m)), m)
    requires InboxRows(t, client.userId, server.inbox) && T.Stored(t, m)
    requires Party(client.userId, m) && client.lastSyncedMsgId < m.msgId
    requires forall r :: server.answer(r) == S.Answered
    modifies client, server
    ensures ok && HasOnce(client.store, C.SyncPartner(old(client.userId), m), m)
  {
    ghost var left := S.After(server.inbox, client.lastSyncedMsgId);
    FetchedIsFiled(t, m, client.userId, server.inbox, client.lastSyncedMsgId, client.store);
    var rounds;
    ghost var got;
    ok, rounds, got := client.SyncMessages(server);
    assert left[..got] == left;
  }

  /** No two sends with a client message id use the same one. */
  predicate OwnKeys(p: P.State) {
    forall i :: 0 <= i < |p.sends| && p.sends[i].req.clientMsgId != 0 ==> P.OwnKey(p, i)
  }

  /** What any user has under the id of a message the server made is that message. */
  lemma HistoriesAgree(p: P.State, call: nat, user: u64, partner: u64)
    requires P.Inv(p) && OwnKeys(p) && call < |p.calls|
    ensures EntriesAgree(C.HistoryOf(P.StoreOf(p, user), partner), P.MessageOf(p.calls[call]))
  {
    var history, m := C.HistoryOf(P.StoreOf(p, user), partner), P.MessageOf(p.calls[call]);
    forall k | 0 <= k < |history| && history[k].msgId == m.msgId ensures T.RowOf(history[k]) == T.RowOf(m) {
      assert P.EntryOk(p, user, partner, history[k]) && P.CallOk(p, call);
      P.EntryMatchesCall(p, call, history[k]);
    }
  }

  /**
  End to end, over any joint run of clients, server calls, cache and writer: take a user with the histories
  the run left them.  Any message of theirs that the writer reported stored is, after a complete sync from a
  cursor below its id, in their history with the other party exactly once, and the entry is that message,
  whether or not a push, a send ACK or an earlier sync had already brought it.
  */
  method SyncDeliversPersisted(ghost states: seq<R.State>, ghost actions: seq<R.Action>, ghost ttl: int, ghost n: nat,
                               ghost c: nat, client: S.NetworkManager, server: S.InboxServer)
    returns (ok: bool)
    requires R.Run(states, actions, ttl) && n < |states| && OwnKeys(states[n].p)
    requires c < |states[n].w.calls| && states[n].w.calls[c].success
    requires client.store == P.StoreOf(states[n].p, client.userId)
    requires InboxRows(states[n].w.tables, client.userId, server.inbox)
    requires Party(client.userId, states[n].w.calls[c].msg) && client.lastSyncedMsgId < states[n].w.calls[c].msg.msgId
    requires forall r :: server.answer(r) == S.Answered
    modifies client, server
    ensures var m := states[n].w.calls[c].msg; ok && HasOnce(client.store, C.SyncPartner(old(client.userId), m), m)
  {
    ghost var m := states[n].w.calls[c].msg;
    ghost var call := R.ReportedIsStored(states, actions, ttl, n, c);
    HistoriesAgree(states[n].p, call, client.userId, C.SyncPartner(client.userId, m));
    assert C.Consistent(P.StoreOf(states[n].p, client.userId));
    ok := SyncFiles(client, server, states[n].w.tables, m);
  }
}
