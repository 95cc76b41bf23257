/**
The two message tables of server/src/dao/msg_scylla_dao.cpp: conversation history, keyed by conversation
and message id, and user inboxes, keyed by user and message id.  A batch is a logged batch: the database
applies all of its statements or none.
*/
module Tables {
  import opened Messages
  import Ids = IdGenerator

  datatype Row = Row(senderId: u64, receiverId: u64, contentType: int, content: seq<int>, timestamp: int)

  datatype Tables = Tables(history: map<(string, u64), Row>, inbox: map<(u64, u64), Row>)

  datatype Statement =
    | InsertHistory(convId: string, msgId: u64, row: Row)
    | InsertInbox(userId: u64, msgId: u64, row: Row)

  const EMPTY := Tables(map[], map[])

  function RowOf(m: P2PMessage): Row {
    Row(m.senderId, m.receiverId, m.contentType, m.content, m.timestamp)
  }

  function HistoryKey(m: P2PMessage): (string, u64) {
    (Ids.P2PConvId(m.senderId, m.receiverId), m.msgId)
  }

  /** An insert replaces the row under its primary key. */
  function Execute(t: Tables, s: Statement): Tables {
    match s
    case InsertHistory(c, id, row) => t.(history := t.history[(c, id) := row])
    case InsertInbox(u, id, row) => t.(inbox := t.inbox[(u, id) := row])
  }

  function ExecuteAll(t: Tables, batch: seq<Statement>): Tables {
    if batch == [] then t else Execute(ExecuteAll(t, batch[..|batch| - 1]), batch[|batch| - 1])
  }

  /** What storing one message means, whatever statements do it. */
  function Insert(t: Tables, m: P2PMessage): Tables {
    Tables(t.history[HistoryKey(m) := RowOf(m)],
           t.inbox[(m.receiverId, m.msgId) := RowOf(m)][(m.senderId, m.msgId) := RowOf(m)])
  }

  function InsertAll(t: Tables, ms: seq<P2PMessage>): Tables {
    if ms == [] then t else Insert(InsertAll(t, ms[..|ms| - 1]), ms[|ms| - 1])
  }

  lemma ExecuteOne(t: Tables, batch: seq<Statement>, s: Statement)
    ensures ExecuteAll(t, batch + [s]) == Execute(ExecuteAll(t, batch), s)
  {
    assert (batch + [s])[..|batch|] == batch;
  }

  lemma NothingYet(t: Tables, msgs: seq<P2PMessage>)
    ensures ExecuteAll(t, []) == InsertAll(t, msgs[..0])
  {
  }

  /** The three statements of one message store it. */
  lemma StoresOne(t: Tables, batch: seq<Statement>, msgs: seq<P2PMessage>, i: nat)
    requires i < |msgs| && ExecuteAll(t, batch) == InsertAll(t, msgs[..i])
    ensures var m := msgs[i];
            ExecuteAll(t, batch + [InsertHistory(Ids.P2PConvId(m.senderId, m.receiverId), m.msgId, RowOf(m))]
                                + [InsertInbox(m.receiverId, m.msgId, RowOf(m))]
                                + [InsertInbox(m.senderId, m.msgId, RowOf(m))])
            == InsertAll(t, msgs[..i + 1])
  {
    var m := msgs[i];
    var a := batch + [InsertHistory(Ids.P2PConvId(m.senderId, m.receiverId), m.msgId, RowOf(m))];
    var b := a + [InsertInbox(m.receiverId, m.msgId, RowOf(m))];
    assert msgs[..i + 1][..i] == msgs[..i];
    ExecuteOne(t, batch, InsertHistory(Ids.P2PConvId(m.senderId, m.receiverId), m.msgId, RowOf(m)));
    ExecuteOne(t, a, InsertInbox(m.receiverId, m.msgId, RowOf(m)));
    ExecuteOne(t, b, InsertInbox(m.senderId, m.msgId, RowOf(m)));
  }

  /**
  How the driver answers: no session, or the batch sent and acknowledged, or an error after which the
  batch may or may not have been applied.
  */
  datatype Outcome = NoSession | Acknowledged | Failed(applied: bool)

  /**
  The statements are added one message at a time and run as one batch.  The tables end unchanged or with
  the whole batch, and a reported success means the whole batch.
  */
  method InsertBatch(t: Tables, msgs: seq<P2PMessage>, outcome: Outcome) returns (ok: bool, after: Tables)
    ensures ok <==> msgs == [] || outcome.Acknowledged?
    ensures after == if ok || outcome == Failed(true) then InsertAll(t, msgs) else t
  {
    if msgs == [] {
      return true, t;
    }
    if outcome.NoSession? {
      return false, t;
    }
    hide ExecuteAll, InsertAll, Execute, Insert;
    var batch := [];
    NothingYet(t, msgs);
    for i := 0 to |msgs|
      invariant ExecuteAll(t, batch) == InsertAll(t, msgs[..i])
    {
      var m := msgs[i];
      StoresOne(t, batch, msgs, i);
      batch := batch + [InsertHistory(Ids.P2PConvId(m.senderId, m.receiverId), m.msgId, RowOf(m))];
      batch := batch + [InsertInbox(m.receiverId, m.msgId, RowOf(m))];
      batch := batch + [InsertInbox(m.senderId, m.msgId, RowOf(m))];
    }
    assert msgs[..|msgs|] == msgs;
    ok := outcome.Acknowledged?;
    after := if outcome == Failed(false) then t else ExecuteAll(t, batch);
  }

  // ---------------------------------------------------------------- retries

  lemma {:induction false} InsertAllConcat(t: Tables, a: seq<P2PMessage>, b: seq<P2PMessage>)
    ensures InsertAll(InsertAll(t, a), b) == InsertAll(t, a + b)
    decreases |b|
  {
    hide Insert;
    if b == [] {
      assert a + b == a;
    } else {
      InsertAllConcat(t, a, b[..|b| - 1]);
      assert (a + b)[..|a + b| - 1] == a + b[..|b| - 1];
    }
  }

  lemma OverlayUpdate<K, V>(under: map<K, V>, over: map<K, V>, k: K, v: V)
    ensures (under + over)[k := v] == under + over[k := v]
  {
  }

  /** Storing messages lays what they store alone over what was there. */
  lemma {:induction false} InsertAllOverlays(t: Tables, ms: seq<P2PMessage>)
    ensures InsertAll(t, ms).history == t.history + InsertAll(EMPTY, ms).history
    ensures InsertAll(t, ms).inbox == t.inbox + InsertAll(EMPTY, ms).inbox
  {
    if ms != [] {
      var front, m := ms[..|ms| - 1], ms[|ms| - 1];
      var alone := InsertAll(EMPTY, front);
      InsertAllOverlays(t, front);
      OverlayUpdate(t.history, alone.history, HistoryKey(m), RowOf(m));
      OverlayUpdate(t.inbox, alone.inbox, (m.receiverId, m.msgId), RowOf(m));
      OverlayUpdate(t.inbox, alone.inbox[(m.receiverId, m.msgId) := RowOf(m)], (m.senderId, m.msgId), RowOf(m));
    }
  }

  /** A batch applied again, as a retry after a lost acknowledgement does, changes nothing. */
  lemma RetryChangesNothing(t: Tables, ms: seq<P2PMessage>)
    ensures InsertAll(InsertAll(t, ms), ms) == InsertAll(t, ms)
  {
    InsertAllOverlays(t, ms);
    InsertAllOverlays(InsertAll(t, ms), ms);
  }

  // ---------------------------------------------------------------- all three copies

  /** The message is in the history and in both users' inboxes. */
  predicate Stored(t: Tables, m: P2PMessage) {
    && HistoryKey(m) in t.history && t.history[HistoryKey(m)] == RowOf(m)
    && (m.senderId, m.msgId) in t.inbox && t.inbox[(m.senderId, m.msgId)] == RowOf(m)
    && (m.receiverId, m.msgId) in t.inbox && t.inbox[(m.receiverId, m.msgId)] == RowOf(m)
  }

  predicate AllStored(t: Tables, ms: seq<P2PMessage>) {
    forall i :: 0 <= i < |ms| ==> Stored(t, ms[i])
  }

  /** Nothing else is: every row is that of one of the messages, under a key of it. */
  ghost predicate NothingElse(t: Tables, ms: seq<P2PMessage>) {
    && (forall k <- t.history :: exists i :: HistoryRow(t, ms, i, k))
    && (forall u, id :: (u, id) in t.inbox ==> exists i :: InboxRow(t, ms, i, u, id))
  }

  predicate HistoryRow(t: Tables, ms: seq<P2PMessage>, i: int, k: (string, u64))
    requires k in t.history
  {
    0 <= i < |ms| && k == HistoryKey(ms[i]) && t.history[k] == RowOf(ms[i])
  }

  predicate InboxRow(t: Tables, ms: seq<P2PMessage>, i: int, u: u64, id: u64)
    requires (u, id) in t.inbox
  {
    && 0 <= i < |ms| && ms[i].msgId == id && u in {ms[i].senderId, ms[i].receiverId}
    && t.inbox[(u, id)] == RowOf(ms[i])
  }

  /** Two messages with one id and a user in common that are not the same row. */
  predicate Clash(a: P2PMessage, b: P2PMessage) {
    && a.msgId == b.msgId
    && (a.senderId in {b.senderId, b.receiverId} || a.receiverId in {b.senderId, b.receiverId})
    && RowOf(a) != RowOf(b)
  }

  predicate NoClash(ms: seq<P2PMessage>) {
    forall i, j :: 0 <= i < j < |ms| ==> !Clash(ms[i], ms[j])
  }

  lemma InsertKeeps(t: Tables, m: P2PMessage, other: P2PMessage)
    requires Stored(t, other) && !Clash(other, m)
    ensures Stored(Insert(t, m), other)
  {
    if HistoryKey(m) == HistoryKey(other) {
      Ids.ConvIdsEqualIff(m.senderId, m.receiverId, other.senderId, other.receiverId);
    }
  }

  /** Any number of messages: all three copies of every one are there exactly when no two clash. */
  lemma {:induction false} AllStoredIff(t: Tables, ms: seq<P2PMessage>)
    ensures AllStored(InsertAll(t, ms), ms) <==> NoClash(ms)
  {
    if NoClash(ms) {
      AllStoredIfNoClash(t, ms);
    }
    if AllStored(InsertAll(t, ms), ms) {
      forall i, j | 0 <= i < j < |ms| ensures !Clash(ms[i], ms[j]) {
        assert Stored(InsertAll(t, ms), ms[i]) && Stored(InsertAll(t, ms), ms[j]);
      }
    }
  }

  lemma {:induction false} AllStoredIfNoClash(t: Tables, ms: seq<P2PMessage>)
    requires NoClash(ms)
    ensures AllStored(InsertAll(t, ms), ms)
  {
    if ms != [] {
      var front, last := ms[..|ms| - 1], ms[|ms| - 1];
      AllStoredIfNoClash(t, front);
      forall i | 0 <= i < |ms| ensures Stored(InsertAll(t, ms), ms[i]) {
        if i < |front| {
          assert ms[i] == front[i];
          InsertKeeps(InsertAll(t, front), last, ms[i]);
        }
      }
    }
  }

  lemma {:induction false} InsertsNothingElse(ms: seq<P2PMessage>)
    ensures NothingElse(InsertAll(EMPTY, ms), ms)
  {
    if ms != [] {
      var front, last := ms[..|ms| - 1], |ms| - 1;
      InsertsNothingElse(front);
      var before, t := InsertAll(EMPTY, front), InsertAll(EMPTY, ms);
      forall k | k in t.history ensures exists i :: HistoryRow(t, ms, i, k) {
        if k == HistoryKey(ms[last]) {
          assert HistoryRow(t, ms, last, k);
        } else {
          var i :| HistoryRow(before, front, i, k);
          assert HistoryRow(t, ms, i, k);
        }
      }
      forall u, id | (u, id) in t.inbox ensures exists i :: InboxRow(t, ms, i, u, id) {
        if id == ms[last].msgId && u in {ms[last].senderId, ms[last].receiverId} {
          assert InboxRow(t, ms, last, u, id);
        } else {
          var i :| InboxRow(before, front, i, u, id);
          assert InboxRow(t, ms, i, u, id);
        }
      }
    }
  }

  /**
  Two messages of one sender to different receivers under one id: both histories have theirs, but the
  sender's inbox keeps only the later one.
  */
  lemma ClashLosesRow()
    ensures var a, b := P2PMessage(5, 1, 2, 0, [], 9, 0), P2PMessage(5, 1, 3, 0, [], 9, 0);
            var t := InsertAll(EMPTY, [a, b]);
            Clash(a, b) && !Stored(t, a) && Stored(t, b) && t.inbox[(1, 5)] == RowOf(b)
  {
    var a, b := P2PMessage(5, 1, 2, 0, [], 9, 0), P2PMessage(5, 1, 3, 0, [], 9, 0);
    assert [a, b][..1] == [a] && [a][..0] == [];
    assert InsertAll(EMPTY, []) == EMPTY;
    assert InsertAll(EMPTY, [a]) == Insert(EMPTY, a);
    assert InsertAll(EMPTY, [a, b]) == Insert(InsertAll(EMPTY, [a]), b);
  }
}
