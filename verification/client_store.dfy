/**
What the client keeps of its messages (client/network_manager.cpp): the merged delivery facts of sent
messages, and the chat histories with their id sets.
*/
module ClientStore {
  import opened Messages

  // ---------------------------------------------------------------- delivery facts

  datatype DeliveryState = DeliveryState(serverReceived: bool, persisted: bool, pushEnqueued: bool, delivered: bool)

  const NOTHING_KNOWN := DeliveryState(false, false, false, false)

  /** One ACK merged into what is known. */
  function Merge(state: DeliveryState, status: AckStatus): DeliveryState {
    match status
    case RECEIVED => state.(serverReceived := true)
    case PERSISTED => state.(serverReceived := true, persisted := true)
    case ENQUEUED => state.(serverReceived := true, pushEnqueued := true)
    case DELIVERED => state.(serverReceived := true, pushEnqueued := true, delivered := true)
    case UNKNOWN => state
    case READ => state
  }

  /** The ACKs of one message, merged in the order they came. */
  function MergeAll(statuses: seq<AckStatus>): DeliveryState {
    if statuses == [] then NOTHING_KNOWN
    else Merge(MergeAll(statuses[..|statuses| - 1]), statuses[|statuses| - 1])
  }

  /** What a set of ACKs says, with no reference to order or number. */
  function Facts(seen: set<AckStatus>): DeliveryState {
    DeliveryState(
      RECEIVED in seen || PERSISTED in seen || ENQUEUED in seen || DELIVERED in seen,
      PERSISTED in seen,
      ENQUEUED in seen || DELIVERED in seen,
      DELIVERED in seen)
  }

  ghost function Seen(statuses: seq<AckStatus>): set<AckStatus> {
    set i | 0 <= i < |statuses| :: statuses[i]
  }

  /** Reordering and duplication cannot change the merged state: it is a function of the set of ACKs. */
  lemma {:induction false} MergeDependsOnlyOnSet(statuses: seq<AckStatus>)
    ensures MergeAll(statuses) == Facts(Seen(statuses))
  {
    if statuses != [] {
      var init := statuses[..|statuses| - 1];
      MergeDependsOnlyOnSet(init);
      assert Seen(statuses) == Seen(init) + {statuses[|statuses| - 1]};
    }
  }

  /** Later ACKs only add facts, and the facts keep the order delivered, enqueued, received. */
  lemma MergeNeverForgets(statuses: seq<AckStatus>, more: seq<AckStatus>)
    ensures var a, b := MergeAll(statuses), MergeAll(statuses + more);
            && (a.serverReceived ==> b.serverReceived) && (a.persisted ==> b.persisted)
            && (a.pushEnqueued ==> b.pushEnqueued) && (a.delivered ==> b.delivered)
            && (b.persisted ==> b.serverReceived)
            && (b.delivered ==> b.pushEnqueued) && (b.pushEnqueued ==> b.serverReceived)
  {
    MergeDependsOnlyOnSet(statuses);
    MergeDependsOnlyOnSet(statuses + more);
    assert Seen(statuses) <= Seen(statuses + more) by {
      forall i | 0 <= i < |statuses| ensures statuses[i] in Seen(statuses + more) {
        assert (statuses + more)[i] == statuses[i];
      }
    }
  }

  datatype Ack = Ack(msgId: u64, success: bool, status: AckStatus)

  /** The statuses that count for one message: successful ACKs that name it. */
  function StatusesOf(acks: seq<Ack>, id: u64): seq<AckStatus> {
    if acks == [] then []
    else StatusesOf(acks[..|acks| - 1], id)
         + (if acks[|acks| - 1].success && acks[|acks| - 1].msgId == id && id != 0 then [acks[|acks| - 1].status] else [])
  }

  lemma StatusesAppend(acks: seq<Ack>, ack: Ack, id: u64)
    ensures StatusesOf(acks + [ack], id)
            == StatusesOf(acks, id) + (if ack.success && ack.msgId == id && id != 0 then [ack.status] else [])
  {
    assert (acks + [ack])[..|acks|] == acks;
  }

  lemma MergeOneMore(acks: seq<Ack>, ack: Ack, id: u64)
    ensures MergeAll(StatusesOf(acks + [ack], id))
            == if ack.success && ack.msgId == id && id != 0 then Merge(MergeAll(StatusesOf(acks, id)), ack.status)
               else MergeAll(StatusesOf(acks, id))
  {
    StatusesAppend(acks, ack, id);
    var before := StatusesOf(acks, id);
    assert (before + [ack.status])[..|before|] == before;
    assert before + [] == before;
  }

  lemma MergeKnown(acks: seq<Ack>, ack: Ack)
    ensures forall id: u64 :: MergeAll(StatusesOf(acks + [ack], id))
              == if ack.success && ack.msgId == id && id != 0 then Merge(MergeAll(StatusesOf(acks, id)), ack.status)
                 else MergeAll(StatusesOf(acks, id))
  {
    forall id: u64 ensures MergeAll(StatusesOf(acks + [ack], id))
              == if ack.success && ack.msgId == id && id != 0 then Merge(MergeAll(StatusesOf(acks, id)), ack.status)
                 else MergeAll(StatusesOf(acks, id)) {
      MergeOneMore(acks, ack, id);
    }
  }

  // ---------------------------------------------------------------- histories

  datatype Store = Store(history: map<u64, seq<P2PMessage>>, ids: map<u64, set<u64>>)

  const EMPTY := Store(map[], map[])

  function HistoryOf(store: Store, partner: u64): seq<P2PMessage> {
    if partner in store.history then store.history[partner] else []
  }

  function IdsOf(store: Store, partner: u64): set<u64> {
    if partner in store.ids then store.ids[partner] else {}
  }

  ghost function MsgIds(messages: seq<P2PMessage>): set<u64> {
    set i | 0 <= i < |messages| :: messages[i].msgId
  }

  /** No two messages of a history have the same id. */
  ghost predicate NoDuplicates(messages: seq<P2PMessage>) {
    forall i, j :: 0 <= i < j < |messages| ==> messages[i].msgId != messages[j].msgId
  }

  /** Every partner's id set is exactly the ids of that partner's history, which has no duplicate. */
  ghost predicate Consistent(store: Store) {
    forall partner: u64 ::
      IdsOf(store, partner) == MsgIds(HistoryOf(store, partner)) && NoDuplicates(HistoryOf(store, partner))
  }

  /** The three insertion paths share this: insert the id, and the message if the id was new. */
  function File(store: Store, partner: u64, msg: P2PMessage): Store {
    if msg.msgId in IdsOf(store, partner) then store
    else Store(store.history[partner := HistoryOf(store, partner) + [msg]],
               store.ids[partner := IdsOf(store, partner) + {msg.msgId}])
  }

  lemma FileKeepsConsistent(store: Store, partner: u64, msg: P2PMessage)
    requires Consistent(store)
    ensures Consistent(File(store, partner, msg))
    ensures msg.msgId in MsgIds(HistoryOf(File(store, partner, msg), partner))
    ensures forall p: u64 :: HistoryOf(store, p) <= HistoryOf(File(store, partner, msg), p)
  {
    var after := File(store, partner, msg);
    forall p: u64
      ensures IdsOf(after, p) == MsgIds(HistoryOf(after, p)) && NoDuplicates(HistoryOf(after, p))
    {
      assert IdsOf(store, p) == MsgIds(HistoryOf(store, p)) && NoDuplicates(HistoryOf(store, p));
      if p == partner && after != store {
        AppendIds(HistoryOf(store, p), msg);
      }
    }
  }

  lemma AppendIds(messages: seq<P2PMessage>, msg: P2PMessage)
    requires NoDuplicates(messages) && msg.msgId !in MsgIds(messages)
    ensures MsgIds(messages + [msg]) == MsgIds(messages) + {msg.msgId} && NoDuplicates(messages + [msg])
  {
    forall x ensures x in MsgIds(messages + [msg]) <==> x in MsgIds(messages) + {msg.msgId} {
      if x in MsgIds(messages) {
        var i :| 0 <= i < |messages| && messages[i].msgId == x;
        assert (messages + [msg])[i].msgId == x;
      }
      if x == msg.msgId { assert (messages + [msg])[|messages|].msgId == x; }
    }
  }

  /** How often an id occurs in a history. */
  function Occurrences(messages: seq<P2PMessage>, id: u64): nat {
    if messages == [] then 0
    else Occurrences(messages[..|messages| - 1], id) + (if messages[|messages| - 1].msgId == id then 1 else 0)
  }

  lemma {:induction false} NoDuplicatesCounts(messages: seq<P2PMessage>, id: u64)
    requires NoDuplicates(messages)
    ensures Occurrences(messages, id) == if id in MsgIds(messages) then 1 else 0
  {
    if messages != [] {
      var init, last := messages[..|messages| - 1], messages[|messages| - 1];
      NoDuplicatesCounts(init, id);
      assert messages == init + [last];
      assert last.msgId !in MsgIds(init) by {
        forall i | 0 <= i < |init| ensures init[i].msgId != last.msgId { assert init[i] == messages[i]; }
      }
      AppendIds(init, last);
    }
  }

  ghost predicate Once(store: Store, partner: u64, id: u64) {
    Occurrences(HistoryOf(store, partner), id) == 1
  }

  // ---------------------------------------------------------------- arrivals

  /** A message on its way into the history with `partner`. */
  datatype Arrival = Arrival(partner: u64, msg: P2PMessage)

  /** Files arrivals one after another. */
  function FileAll(store: Store, arrivals: seq<Arrival>): Store {
    if arrivals == [] then store
    else
      var last := arrivals[|arrivals| - 1];
      File(FileAll(store, arrivals[..|arrivals| - 1]), last.partner, last.msg)
  }

  lemma {:induction false} FileAllConcat(store: Store, a: seq<Arrival>, b: seq<Arrival>)
    ensures FileAll(store, a + b) == FileAll(FileAll(store, a), b)
    decreases |b|
  {
    if b == [] {
      assert a + b == a;
    } else {
      assert (a + b)[..|a + b| - 1] == a + b[..|b| - 1];
      FileAllConcat(store, a, b[..|b| - 1]);
    }
  }

  lemma {:induction false} FileAllConsistent(store: Store, arrivals: seq<Arrival>)
    requires Consistent(store)
    ensures Consistent(FileAll(store, arrivals))
  {
    if arrivals != [] {
      var last := arrivals[|arrivals| - 1];
      FileAllConsistent(store, arrivals[..|arrivals| - 1]);
      FileKeepsConsistent(FileAll(store, arrivals[..|arrivals| - 1]), last.partner, last.msg);
    }
  }

  /** No earlier arrival has this one's partner and message id. */
  predicate First(arrivals: seq<Arrival>, i: int) {
    && 0 <= i < |arrivals|
    && forall j :: 0 <= j < i ==> !SameSlot(arrivals[j], arrivals[i].partner, arrivals[i].msg.msgId)
  }

  predicate SameSlot(a: Arrival, partner: u64, id: u64) {
    a.partner == partner && a.msg.msgId == id
  }

  /** What a history should be: the first arrival of each id for this partner, in order of arrival. */
  function Firsts(arrivals: seq<Arrival>, partner: u64): seq<P2PMessage> {
    if arrivals == [] then []
    else
      var n := |arrivals| - 1;
      Firsts(arrivals[..n], partner)
      + (if arrivals[n].partner == partner && First(arrivals, n) then [arrivals[n].msg] else [])
  }

  predicate Arrived(arrivals: seq<Arrival>, partner: u64, id: u64) {
    exists i :: 0 <= i < |arrivals| && SameSlot(arrivals[i], partner, id)
  }

  lemma ArrivedFront(arrivals: seq<Arrival>, partner: u64, id: u64)
    requires arrivals != []
    ensures Arrived(arrivals, partner, id)
            <==> Arrived(arrivals[..|arrivals| - 1], partner, id) || SameSlot(arrivals[|arrivals| - 1], partner, id)
  {
    var front := arrivals[..|arrivals| - 1];
    if Arrived(front, partner, id) {
      var i :| 0 <= i < |front| && SameSlot(front[i], partner, id);
      assert SameSlot(arrivals[i], partner, id);
    }
    if Arrived(arrivals, partner, id) && !SameSlot(arrivals[|arrivals| - 1], partner, id) {
      var i :| 0 <= i < |arrivals| && SameSlot(arrivals[i], partner, id);
      assert SameSlot(front[i], partner, id);
    }
  }

  lemma FirstIsNew(arrivals: seq<Arrival>)
    requires arrivals != []
    ensures var n := |arrivals| - 1;
            First(arrivals, n) <==> !Arrived(arrivals[..n], arrivals[n].partner, arrivals[n].msg.msgId)
  {
    var n := |arrivals| - 1;
    assert forall j :: 0 <= j < n ==> arrivals[..n][j] == arrivals[j];
  }

  /** An id is in the reference history exactly when it arrived for that partner. */
  lemma {:induction false} FirstsHaveAll(arrivals: seq<Arrival>, partner: u64, id: u64)
    ensures id in MsgIds(Firsts(arrivals, partner)) <==> Arrived(arrivals, partner, id)
  {
    if arrivals != [] {
      var n := |arrivals| - 1;
      FirstsHaveAll(arrivals[..n], partner, id);
      ArrivedFront(arrivals, partner, id);
      FirstIsNew(arrivals);
      IdsAppend(Firsts(arrivals[..n], partner), arrivals[n].msg);
      assert Firsts(arrivals[..n], partner) + [] == Firsts(arrivals[..n], partner);
    }
  }

  lemma IdsAppend(messages: seq<P2PMessage>, msg: P2PMessage)
    ensures MsgIds(messages + [msg]) == MsgIds(messages) + {msg.msgId}
  {
    forall x ensures x in MsgIds(messages + [msg]) <==> x in MsgIds(messages) + {msg.msgId} {
      if x in MsgIds(messages) {
        var i :| 0 <= i < |messages| && messages[i].msgId == x;
        assert (messages + [msg])[i].msgId == x;
      }
      if x == msg.msgId { assert (messages + [msg])[|messages|].msgId == x; }
    }
  }

  lemma EmptyIsConsistent()
    ensures Consistent(EMPTY)
  {
  }

  /** Filing by id set gives exactly the reference history. */
  lemma {:induction false} HistoryIsFirsts(arrivals: seq<Arrival>, partner: u64)
    ensures Consistent(FileAll(EMPTY, arrivals))
    ensures HistoryOf(FileAll(EMPTY, arrivals), partner) == Firsts(arrivals, partner)
  {
    EmptyIsConsistent();
    FileAllConsistent(EMPTY, arrivals);
    if arrivals != [] {
      var n := |arrivals| - 1;
      var last, before := arrivals[n], FileAll(EMPTY, arrivals[..n]);
      HistoryIsFirsts(arrivals[..n], partner);
      if last.partner == partner {
        FirstsHaveAll(arrivals[..n], partner, last.msg.msgId);
        FirstIsNew(arrivals);
        assert IdsOf(before, partner) == MsgIds(HistoryOf(before, partner));
      }
    }
  }

  /** Every message that arrived is in its history exactly once. */
  lemma ArrivedIsFiledOnce(arrivals: seq<Arrival>, i: nat)
    requires i < |arrivals|
    ensures Once(FileAll(EMPTY, arrivals), arrivals[i].partner, arrivals[i].msg.msgId)
  {
    var p, id := arrivals[i].partner, arrivals[i].msg.msgId;
    HistoryIsFirsts(arrivals, p);
    assert SameSlot(arrivals[i], p, id);
    FirstsHaveAll(arrivals, p, id);
    var history := HistoryOf(FileAll(EMPTY, arrivals), p);
    assert NoDuplicates(history);
    NoDuplicatesCounts(history, id);
  }

  /** Every entry of a history is a message that arrived for it, the first with its id. */
  lemma {:induction false} EntryIsFirst(arrivals: seq<Arrival>, partner: u64, k: nat) returns (i: nat)
    requires k < |Firsts(arrivals, partner)|
    ensures First(arrivals, i) && arrivals[i] == Arrival(partner, Firsts(arrivals, partner)[k])
  {
    var n := |arrivals| - 1;
    var front := arrivals[..n];
    if k < |Firsts(front, partner)| {
      i := EntryIsFirst(front, partner, k);
      assert forall j :: 0 <= j <= i ==> front[j] == arrivals[j];
    } else {
      i := n;
    }
  }

  lemma OnceIfThere(store: Store, partner: u64, id: u64)
    requires Consistent(store) && id in MsgIds(HistoryOf(store, partner))
    ensures Once(store, partner, id)
  {
    assert NoDuplicates(HistoryOf(store, partner));
    NoDuplicatesCounts(HistoryOf(store, partner), id);
  }

  lemma FileAllLast(store: Store, arrivals: seq<Arrival>)
    requires arrivals != []
    ensures var last := arrivals[|arrivals| - 1];
            FileAll(store, arrivals) == File(FileAll(store, arrivals[..|arrivals| - 1]), last.partner, last.msg)
  {
  }

  /** Every message of a list is there after filing the list on top of any history. */
  lemma {:induction false} FileAllHas(store: Store, arrivals: seq<Arrival>, i: nat)
    requires Consistent(store) && i < |arrivals|
    ensures Once(FileAll(store, arrivals), arrivals[i].partner, arrivals[i].msg.msgId)
  {
    hide FileAll, File, Consistent, Once, MsgIds;
    var n := |arrivals| - 1;
    var before := FileAll(store, arrivals[..n]);
    FileAllLast(store, arrivals);
    FileAllConsistent(store, arrivals[..n]);
    FileKeepsConsistent(before, arrivals[n].partner, arrivals[n].msg);
    if i < n {
      FileAllHas(store, arrivals[..n], i);
      OnceStays(before, FileAll(store, arrivals), arrivals[i].partner, arrivals[i].msg.msgId);
    } else {
      OnceIfThere(FileAll(store, arrivals), arrivals[n].partner, arrivals[n].msg.msgId);
    }
  }

  lemma OnceStays(store: Store, after: Store, partner: u64, id: u64)
    requires Consistent(store) && Consistent(after) && Once(store, partner, id)
    requires HistoryOf(store, partner) <= HistoryOf(after, partner)
    ensures Once(after, partner, id)
  {
    var h, h' := HistoryOf(store, partner), HistoryOf(after, partner);
    assert NoDuplicates(h) && NoDuplicates(h');
    NoDuplicatesCounts(h, id);
    NoDuplicatesCounts(h', id);
    var i :| 0 <= i < |h| && h[i].msgId == id;
    assert h'[i].msgId == id;
  }

  // ---------------------------------------------------------------- partners

  /** The other party of a message, as the sync path computes it from the current user id. */
  function SyncPartner(currentUser: u64, msg: P2PMessage): u64 {
    if msg.senderId == currentUser then msg.receiverId else msg.senderId
  }

  predicate Right(user: u64, a: Arrival) {
    a.partner == SyncPartner(user, a.msg)
  }

  predicate AllRight(user: u64, arrivals: seq<Arrival>) {
    forall i :: 0 <= i < |arrivals| ==> Right(user, arrivals[i])
  }

  /** An id names one message: two arrivals with it have the same sender and receiver. */
  predicate IdsAgree(arrivals: seq<Arrival>) {
    forall i, j :: 0 <= i < |arrivals| && 0 <= j < |arrivals| && arrivals[i].msg.msgId == arrivals[j].msg.msgId ==>
      arrivals[i].msg.senderId == arrivals[j].msg.senderId && arrivals[i].msg.receiverId == arrivals[j].msg.receiverId
  }

  /** Where partners are right, a history holds only messages with its partner. */
  lemma HistoryIsWithPartner(user: u64, arrivals: seq<Arrival>, partner: u64, k: nat)
    requires AllRight(user, arrivals) && k < |HistoryOf(FileAll(EMPTY, arrivals), partner)|
    ensures SyncPartner(user, HistoryOf(FileAll(EMPTY, arrivals), partner)[k]) == partner
  {
    HistoryIsFirsts(arrivals, partner);
    var i := EntryIsFirst(arrivals, partner, k);
    assert Right(user, arrivals[i]);
  }

  /** And then an id is in one history only. */
  lemma IdInOneHistory(user: u64, arrivals: seq<Arrival>, p: u64, q: u64, k: nat, l: nat)
    requires AllRight(user, arrivals) && IdsAgree(arrivals)
    requires k < |HistoryOf(FileAll(EMPTY, arrivals), p)| && l < |HistoryOf(FileAll(EMPTY, arrivals), q)|
    requires HistoryOf(FileAll(EMPTY, arrivals), p)[k].msgId == HistoryOf(FileAll(EMPTY, arrivals), q)[l].msgId
    ensures p == q
  {
    HistoryIsFirsts(arrivals, p);
    HistoryIsFirsts(arrivals, q);
    var i := EntryIsFirst(arrivals, p, k);
    var j := EntryIsFirst(arrivals, q, l);
    assert Right(user, arrivals[i]) && Right(user, arrivals[j]);
  }
}
