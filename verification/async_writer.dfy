/**
The write-behind persister of server/src/dao/async_msg_writer.cpp: any number of producers, the queue, one
worker that takes batches, tries to store them, and reports to each message's callback.  A step is one
atomic operation of one thread; the queue is the FIFO that MpscQueue.QueueIsFifo establishes.
*/
module AsyncWriter {
  import opened Messages
  import opened Wrappers
  import T = Tables

  const BATCH_SIZE: nat := 100
  const MAX_RETRIES: nat := 3

  /** `callback` says whether the item carries one. */
  datatype Item = Item(msg: P2PMessage, callback: bool)

  datatype Pc =
    | CheckRunning
    | Bulk
    | Subtract
    | Try(retry: nat)
    | Notify(next: nat, success: bool)
    | CheckEmpty
    | Stopped

  /** Items `first..end` of the queue order, after `tries` attempts to store them. */
  datatype Batch = Batch(first: nat, end: nat, tries: nat, drained: bool, success: bool)

  /** Item number `index` was told `success`. */
  datatype Call = Call(index: nat, msg: P2PMessage, success: bool)

  /**
  `linked` is every item ever linked into the queue, in order: the worker has taken the first `taken` of
  them, the rest is the queue, and its buffer is `linked[first..taken]`.  `counted` holds producers between
  their increment and their link.  `tries`, `finished`, `calls` and `applied` record what happened.
  */
  datatype State = State(
    linked: seq<Item>,
    taken: nat,
    counted: map<nat, Item>,
    queuedItems: int,
    running: bool,
    draining: bool,
    pc: Pc,
    first: nat,
    tables: T.Tables,
    tries: nat,
    finished: seq<Batch>,
    calls: seq<Call>,
    applied: seq<P2PMessage>)

  datatype Action =
    | Count(producer: nat, item: Item)
    | Link(producer: nat)
    | Stop
    | TestRunning
    | Dequeue
    | EndBulk
    | Discount
    | Persist(outcome: T.Outcome)
    | CallBack
    | ClearBatch
    | TestEmpty

  const INIT := State([], 0, map[], 0, true, false, CheckRunning, 0, T.EMPTY, 0, [], [], [])

  function Payloads(items: seq<Item>): (r: seq<P2PMessage>)
    ensures |r| == |items| && forall i :: 0 <= i < |r| ==> r[i] == items[i].msg
  {
    seq(|items|, i requires 0 <= i < |items| => items[i].msg)
  }

  predicate Enabled(s: State, a: Action) {
    match a
    case Count(p, _) => p !in s.counted
    case Link(p) => p in s.counted
    case Stop => true
    case TestRunning => s.pc.CheckRunning?
    case Dequeue => s.pc.Bulk? && s.first <= s.taken < |s.linked| && s.taken - s.first < BATCH_SIZE
    case EndBulk => s.pc.Bulk? && (s.taken - s.first >= BATCH_SIZE || s.taken >= |s.linked|)
    case Discount => s.pc.Subtract?
    case Persist(_) => s.pc.Try? && s.first <= s.taken <= |s.linked|
    case CallBack => s.pc.Notify? && s.pc.next < s.taken && s.pc.next < |s.linked|
    case ClearBatch => s.pc.Notify? && s.pc.next >= s.taken
    case TestEmpty => s.pc.CheckEmpty?
  }

  function Apply(s: State, a: Action): State
    requires Enabled(s, a)
  {
    match a
    case Count(p, item) => s.(queuedItems := s.queuedItems + 1, counted := s.counted[p := item])
    case Link(p) => s.(linked := s.linked + [s.counted[p]], counted := s.counted - {p})
    case Stop => s.(running := false)
    case TestRunning =>
      if s.running then s.(pc := Bulk) else s.(pc := CheckEmpty, draining := true)
    case Dequeue => s.(taken := s.taken + 1)
    case EndBulk =>
      if s.taken > s.first then s.(pc := Subtract) else s.(pc := if s.draining then CheckEmpty else CheckRunning)
    case Discount => s.(queuedItems := s.queuedItems - (s.taken - s.first), pc := Try(0), tries := 0)
    case Persist(outcome) => Persisted(s, outcome, Payloads(s.linked[s.first..s.taken]))
    case CallBack =>
      var item := s.linked[s.pc.next];
      s.(pc := s.pc.(next := s.pc.next + 1),
         calls := if item.callback then s.calls + [Call(s.pc.next, item.msg, s.pc.success)] else s.calls)
    case ClearBatch =>
      s.(pc := if s.draining then CheckEmpty else CheckRunning, first := s.taken,
         finished := s.finished + [Batch(s.first, s.taken, s.tries, s.draining, s.pc.success)])
    case TestEmpty =>
      if s.taken < |s.linked| then s.(pc := Bulk) else s.(pc := Stopped)
  }

  /** One call of the DAO, whose contract is Tables.InsertBatch; only the running worker retries. */
  function Persisted(s: State, outcome: T.Outcome, batch: seq<P2PMessage>): State
    requires s.pc.Try?
  {
    var reached := outcome.Acknowledged? || outcome == T.Failed(true);
    s.(tables := if reached then T.InsertAll(s.tables, batch) else s.tables,
       applied := if reached then s.applied + batch else s.applied,
       tries := s.tries + 1,
       pc := if outcome.Acknowledged? then Notify(s.first, true)
             else if s.draining || s.pc.retry + 1 > MAX_RETRIES then Notify(s.first, false)
             else Try(s.pc.retry + 1))
  }

  ghost predicate Run(states: seq<State>, actions: seq<Action>) {
    && |states| == |actions| + 1
    && states[0] == INIT
    && forall i :: 0 <= i < |actions| ==> StepAt(states, actions, i)
  }

  ghost predicate StepAt(states: seq<State>, actions: seq<Action>, i: nat)
    requires i < |actions| && i + 1 < |states|
  {
    Enabled(states[i], actions[i]) && states[i + 1] == Apply(states[i], actions[i])
  }

  // ---------------------------------------------------------------- invariant

  predicate Shape(s: State) {
    && s.first <= s.taken <= |s.linked|
    && s.taken - s.first <= BATCH_SIZE
    && (s.pc.CheckRunning? ==> !s.draining)
    && ((s.pc.CheckEmpty? || s.pc.Stopped?) ==> s.draining)
    && ((s.pc.CheckRunning? || s.pc.CheckEmpty? || s.pc.Stopped?) ==> s.first == s.taken)
    && ((s.pc.Subtract? || s.pc.Try? || s.pc.Notify?) ==> s.first < s.taken)
    && (s.pc.Notify? ==> s.first <= s.pc.next <= s.taken)
    && (s.pc.Try? ==> s.tries == s.pc.retry <= MAX_RETRIES && (s.draining ==> s.tries == 0))
    && (s.pc.Notify? ==> TriesFit(s.tries, s.draining, s.pc.success))
  }

  /** One attempt when draining; otherwise up to four, and a failure is reported only after four. */
  predicate TriesFit(tries: nat, drained: bool, success: bool) {
    && 1 <= tries <= (if drained then 1 else MAX_RETRIES + 1)
    && (!success && !drained ==> tries == MAX_RETRIES + 1)
  }

  /** Taken from the queue and not yet subtracted from the counter. */
  function Unsubtracted(s: State): int {
    if s.pc.Bulk? || s.pc.Subtract? then s.taken - s.first else 0
  }

  predicate CounterExact(s: State) {
    s.queuedItems == |s.linked| - s.taken + |s.counted| + Unsubtracted(s)
  }

  predicate BatchesConsecutive(finished: seq<Batch>, first: nat) {
    && (forall b :: 0 <= b < |finished| ==>
          && finished[b].first < finished[b].end <= finished[b].first + BATCH_SIZE
          && TriesFit(finished[b].tries, finished[b].drained, finished[b].success))
    && (forall b :: 0 < b < |finished| ==> finished[b].first == finished[b - 1].end)
    && first == (if finished == [] then 0 else finished[|finished| - 1].end)
    && (finished != [] ==> finished[0].first == 0)
  }

  /** Items whose turn for a callback has passed. */
  function Served(s: State): nat {
    if s.pc.Notify? then s.pc.next else s.first
  }

  predicate CallsInOrder(calls: seq<Call>, linked: seq<Item>, served: nat) {
    && (forall c :: 0 <= c < |calls| ==>
          && calls[c].index < served && calls[c].index < |linked|
          && linked[calls[c].index].callback && calls[c].msg == linked[calls[c].index].msg)
    && (forall c, d :: 0 <= c < d < |calls| ==> calls[c].index < calls[d].index)
  }

  predicate CallsComplete(calls: seq<Call>, linked: seq<Item>, served: nat) {
    forall j :: 0 <= j < served && j < |linked| && linked[j].callback ==> Called(calls, j)
  }

  predicate Called(calls: seq<Call>, j: int) {
    exists c :: 0 <= c < |calls| && calls[c].index == j
  }

  /** Calls about the current batch tell its outcome, the others that of their finished batch. */
  predicate CallsTellOutcome(calls: seq<Call>, finished: seq<Batch>, first: nat, pc: Pc) {
    forall c :: 0 <= c < |calls| ==>
      && (calls[c].index >= first ==> pc.Notify? && calls[c].success == pc.success)
      && (forall b :: 0 <= b < |finished| && finished[b].first <= calls[c].index < finished[b].end ==>
            calls[c].success == finished[b].success)
  }

  predicate AllIn(some: seq<P2PMessage>, all: seq<P2PMessage>) {
    forall i :: 0 <= i < |some| ==> some[i] in all
  }

  predicate TablesMatch(tables: T.Tables, applied: seq<P2PMessage>, all: seq<P2PMessage>) {
    tables == T.InsertAll(T.EMPTY, applied) && AllIn(applied, all)
  }

  predicate SuccessesApplied(s: State)
    requires s.first <= s.taken <= |s.linked|
  {
    && (s.pc.Notify? && s.pc.success ==> AllIn(Payloads(s.linked[s.first..s.taken]), s.applied))
    && (forall c :: 0 <= c < |s.calls| && s.calls[c].success ==> s.calls[c].msg in s.applied)
  }

  predicate Inv(s: State) {
    && Shape(s)
    && CounterExact(s)
    && BatchesConsecutive(s.finished, s.first)
    && CallsInOrder(s.calls, s.linked, Served(s))
    && CallsComplete(s.calls, s.linked, Served(s))
    && CallsTellOutcome(s.calls, s.finished, s.first, s.pc)
    && TablesMatch(s.tables, s.applied, Payloads(s.linked))
    && SuccessesApplied(s)
  }

  // ---------------------------------------------------------------- preservation

  lemma ShapeKept(s: State, a: Action)
    requires Shape(s) && Enabled(s, a)
    ensures Shape(Apply(s, a))
  {
  }

  lemma CounterKept(s: State, a: Action)
    requires Shape(s) && CounterExact(s) && Enabled(s, a)
    ensures CounterExact(Apply(s, a))
  {
    if a.Link? {
      OneLess(s.counted, a.producer);
    } else if a.Count? {
      OneMore(s.counted, a.producer, a.item);
    } else {
      Untouched(s, a);
    }
  }

  /** What each action leaves alone. */
  lemma Untouched(s: State, a: Action)
    requires Shape(s) && Enabled(s, a)
    ensures var s' := Apply(s, a);
            && (!a.ClearBatch? ==> s'.finished == s.finished && s'.first == s.first)
            && (!a.CallBack? ==> s'.calls == s.calls && Served(s') == Served(s))
            && (!a.Persist? ==> s'.applied == s.applied && s'.tables == s.tables)
            && (!a.Link? ==> s'.linked == s.linked)
            && (!a.Link? && !a.Count? ==> s'.counted == s.counted)
            && (s.pc.Notify? && !a.ClearBatch? ==> s'.pc.Notify? && s'.pc.success == s.pc.success && s'.taken == s.taken)
            && (s'.pc.Notify? && !s.pc.Notify? ==> a.Persist?)
  {
  }

  lemma BatchAdded(finished: seq<Batch>, first: nat, b: Batch)
    requires BatchesConsecutive(finished, first)
    requires b.first == first < b.end <= first + BATCH_SIZE && TriesFit(b.tries, b.drained, b.success)
    ensures BatchesConsecutive(finished + [b], b.end)
  {
  }

  lemma BatchesKept(s: State, a: Action)
    requires Shape(s) && BatchesConsecutive(s.finished, s.first) && Enabled(s, a)
    ensures BatchesConsecutive(Apply(s, a).finished, Apply(s, a).first)
  {
    if a.ClearBatch? {
      BatchAdded(s.finished, s.first, Batch(s.first, s.taken, s.tries, s.draining, s.pc.success));
    } else {
      Untouched(s, a);
    }
  }

  lemma CallAdded(calls: seq<Call>, linked: seq<Item>, served: nat, call: Call)
    requires CallsInOrder(calls, linked, served) && CallsComplete(calls, linked, served)
    requires call.index == served < |linked| && linked[served].callback && call.msg == linked[served].msg
    ensures CallsInOrder(calls + [call], linked, served + 1)
    ensures CallsComplete(calls + [call], linked, served + 1)
  {
    assert (calls + [call])[|calls|].index == served;
    forall j | Called(calls, j) ensures Called(calls + [call], j) {
      StillCalled(calls, call, j);
    }
  }

  lemma StillCalled(calls: seq<Call>, call: Call, j: int)
    requires Called(calls, j)
    ensures Called(calls + [call], j)
  {
    var c :| 0 <= c < |calls| && calls[c].index == j;
    assert (calls + [call])[c].index == j;
  }

  lemma CallsKept(s: State, a: Action)
    requires Shape(s) && Enabled(s, a)
    requires CallsInOrder(s.calls, s.linked, Served(s)) && CallsComplete(s.calls, s.linked, Served(s))
    ensures var s' := Apply(s, a);
            CallsInOrder(s'.calls, s'.linked, Served(s')) && CallsComplete(s'.calls, s'.linked, Served(s'))
  {
    if a.CallBack? {
      if s.linked[s.pc.next].callback {
        CallAdded(s.calls, s.linked, s.pc.next, Call(s.pc.next, s.linked[s.pc.next].msg, s.pc.success));
      }
    } else {
      Untouched(s, a);
    }
  }

  /** No finished batch reaches the current one. */
  lemma FinishedBefore(finished: seq<Batch>, first: nat)
    requires BatchesConsecutive(finished, first)
    ensures forall b :: 0 <= b < |finished| ==> finished[b].end <= first
  {
    var b := |finished|;
    while b > 0
      invariant 0 <= b <= |finished|
      invariant forall k :: b <= k < |finished| ==> finished[k].end <= first
      invariant b > 0 ==> finished[b - 1].end <= first
    {
      b := b - 1;
    }
  }

  lemma OutcomesKept(s: State, a: Action)
    requires Shape(s) && BatchesConsecutive(s.finished, s.first) && Enabled(s, a)
    requires CallsInOrder(s.calls, s.linked, Served(s)) && CallsTellOutcome(s.calls, s.finished, s.first, s.pc)
    ensures var s' := Apply(s, a); CallsTellOutcome(s'.calls, s'.finished, s'.first, s'.pc)
  {
    if a.CallBack? {
      FinishedBefore(s.finished, s.first);
    } else if !a.ClearBatch? {
      Untouched(s, a);
    }
  }

  lemma BatchStored(tables: T.Tables, applied: seq<P2PMessage>, all: seq<P2PMessage>, batch: seq<P2PMessage>)
    requires TablesMatch(tables, applied, all) && AllIn(batch, all)
    ensures TablesMatch(T.InsertAll(tables, batch), applied + batch, all)
  {
    T.InsertAllConcat(T.EMPTY, applied, batch);
  }

  lemma PersistStores(s: State, outcome: T.Outcome, batch: seq<P2PMessage>, all: seq<P2PMessage>)
    requires s.pc.Try? && TablesMatch(s.tables, s.applied, all) && AllIn(batch, all)
    ensures var s' := Persisted(s, outcome, batch);
            TablesMatch(s'.tables, s'.applied, all) && s'.linked == s.linked
  {
    BatchStored(s.tables, s.applied, all, batch);
  }

  lemma TablesKept(s: State, a: Action)
    requires Shape(s) && TablesMatch(s.tables, s.applied, Payloads(s.linked)) && Enabled(s, a)
    ensures var s' := Apply(s, a); TablesMatch(s'.tables, s'.applied, Payloads(s'.linked))
  {
    if a.Persist? {
      BatchInQueue(s.linked, s.first, s.taken);
      PersistStores(s, a.outcome, Payloads(s.linked[s.first..s.taken]), Payloads(s.linked));
    } else {
      Untouched(s, a);
      if a.Link? {
        StillIn(s.applied, s.linked, s.counted[a.producer]);
      }
    }
  }

  lemma BatchInQueue(linked: seq<Item>, first: nat, end: nat)
    requires first <= end <= |linked|
    ensures AllIn(Payloads(linked[first..end]), Payloads(linked))
  {
    var batch := Payloads(linked[first..end]);
    assert forall i :: 0 <= i < |batch| ==> batch[i] == Payloads(linked)[first + i];
  }

  lemma StillIn(some: seq<P2PMessage>, linked: seq<Item>, item: Item)
    requires AllIn(some, Payloads(linked))
    ensures AllIn(some, Payloads(linked + [item]))
  {
    assert Payloads(linked + [item]) == Payloads(linked) + [item.msg];
  }

  lemma SuccessesKept(s: State, a: Action)
    requires Shape(s) && SuccessesApplied(s) && Enabled(s, a)
    ensures Shape(Apply(s, a)) && SuccessesApplied(Apply(s, a))
  {
    ShapeKept(s, a);
    Untouched(s, a);
    if a.CallBack? {
      assert Payloads(s.linked[s.first..s.taken])[s.pc.next - s.first] == s.linked[s.pc.next].msg;
    } else if a.Link? {
      assert (s.linked + [s.counted[a.producer]])[s.first..s.taken] == s.linked[s.first..s.taken];
    }
  }

  lemma StepKeepsInv(s: State, a: Action)
    requires Inv(s) && Enabled(s, a)
    ensures Inv(Apply(s, a))
  {
    ShapeKept(s, a);
    CounterKept(s, a);
    BatchesKept(s, a);
    CallsKept(s, a);
    OutcomesKept(s, a);
    TablesKept(s, a);
    SuccessesKept(s, a);
  }

  lemma InitInv()
    ensures Inv(INIT)
  {
  }

  lemma {:induction false} RunInv(states: seq<State>, actions: seq<Action>, i: nat)
    requires Run(states, actions) && i < |states|
    ensures Inv(states[i])
  {
    if i == 0 {
      InitInv();
    } else {
      RunInv(states, actions, i - 1);
      assert StepAt(states, actions, i - 1);
      StepKeepsInv(states[i - 1], actions[i - 1]);
    }
  }

  lemma RunShape(states: seq<State>, actions: seq<Action>, i: nat)
    requires Run(states, actions) && i < |states|
    ensures Shape(states[i])
  {
    RunInv(states, actions, i);
  }

  lemma Extend(states: seq<State>, actions: seq<Action>, a: Action, s': State)
    requires Run(states, actions) && Enabled(states[|actions|], a) && s' == Apply(states[|actions|], a)
    ensures Run(states + [s'], actions + [a])
  {
    forall i | 0 <= i < |actions + [a]| ensures StepAt(states + [s'], actions + [a], i) {
      if i < |actions| {
        assert StepAt(states, actions, i);
      }
    }
  }

  // ---------------------------------------------------------------- theorems

  /**
  In any interleaving the counter is the queue's length, plus enqueues counted and not yet linked, plus
  items taken and not yet subtracted.  So it never goes below zero or below the queue's length.
  */
  lemma CounterNeverUnderstates(states: seq<State>, actions: seq<Action>, i: nat)
    requires Run(states, actions) && i < |states|
    ensures states[i].taken <= |states[i].linked|
    ensures var s := states[i];
            && s.queuedItems == |s.linked[s.taken..]| + |s.counted| + Unsubtracted(s)
            && s.queuedItems >= |s.linked[s.taken..]|
  {
    RunInv(states, actions, i);
  }

  predicate Callback(s: State, j: nat) {
    j < |s.linked| && s.linked[j].callback
  }

  predicate InBatch(s: State, b: int, j: nat) {
    0 <= b < |s.finished| && s.finished[b].first <= j < s.finished[b].end
  }

  /** Item `j` was told `success`, about its own message, and nothing else. */
  predicate OnlyCall(s: State, j: nat, success: bool) {
    forall c :: 0 <= c < |s.calls| && s.calls[c].index == j ==>
      && j < |s.linked| && s.calls[c] == Call(j, s.linked[j].msg, success)
      && (forall d :: 0 <= d < |s.calls| && s.calls[d].index == j ==> d == c)
  }

  /**
  Every item the worker is done with belongs to exactly one finished batch, batches being consecutive
  stretches of the queue order of at most 100; its callback, if it has one, was called exactly once, and
  told the outcome of that batch.
  */
  lemma EachItemServedOnce(states: seq<State>, actions: seq<Action>, i: nat, j: nat)
    requires Run(states, actions) && i < |states| && j < states[i].first
    ensures var s := states[i];
            && (exists b :: InBatch(s, b, j))
            && (forall b, d :: InBatch(s, b, j) && InBatch(s, d, j) ==> b == d)
            && (Callback(s, j) <==> Called(s.calls, j))
            && (forall b :: InBatch(s, b, j) ==> OnlyCall(s, j, s.finished[b].success))
  {
    RunInv(states, actions, i);
    var s := states[i];
    BatchOf(s, j);
    forall b, d | InBatch(s, b, j) && InBatch(s, d, j) ensures b == d {
      if b < d {
        BatchesApart(s.finished, s.first, b, d);
      } else if d < b {
        BatchesApart(s.finished, s.first, d, b);
      }
    }
  }

  /** An earlier batch ends where a later one begins, or before. */
  lemma {:induction false} BatchesApart(finished: seq<Batch>, first: nat, b: nat, d: nat)
    requires BatchesConsecutive(finished, first) && b < d < |finished|
    ensures finished[b].end <= finished[d].first
    decreases d
  {
    if b < d - 1 {
      BatchesApart(finished, first, b, d - 1);
    }
  }

  lemma BatchOf(s: State, j: nat)
    requires BatchesConsecutive(s.finished, s.first) && j < s.first
    ensures exists b :: InBatch(s, b, j)
  {
    var b := |s.finished| - 1;
    while s.finished[b].first > j
      invariant 0 <= b < |s.finished| && j < s.finished[b].end
    {
      b := b - 1;
    }
    assert InBatch(s, b, j);
  }

  /**
  What success means: if no two enqueued messages clash, every message whose callback was told success is
  in the history and in both inboxes, and so is every message of a batch the database applied without
  saying so; no row of any table comes from anything else.
  */
  lemma SuccessMeansStored(states: seq<State>, actions: seq<Action>, i: nat)
    requires Run(states, actions) && i < |states| && T.NoClash(Payloads(states[i].linked))
    ensures var s := states[i];
            && (forall c :: 0 <= c < |s.calls| && s.calls[c].success ==>
                  T.Stored(s.tables, s.calls[c].msg) && s.calls[c].msg in Payloads(s.linked))
            && T.AllStored(s.tables, s.applied)
            && T.NothingElse(s.tables, s.applied)
            && AllIn(s.applied, Payloads(s.linked))
  {
    RunInv(states, actions, i);
    var s := states[i];
    AppliedIsStored(s.tables, s.applied, Payloads(s.linked));
    forall c | 0 <= c < |s.calls| && s.calls[c].success
      ensures T.Stored(s.tables, s.calls[c].msg) && s.calls[c].msg in Payloads(s.linked)
    {
      assert s.calls[c].msg in s.applied;
    }
  }

  lemma AppliedIsStored(tables: T.Tables, applied: seq<P2PMessage>, all: seq<P2PMessage>)
    requires TablesMatch(tables, applied, all) && T.NoClash(all)
    ensures T.AllStored(tables, applied) && T.NothingElse(tables, applied)
    ensures forall m <- applied :: T.Stored(tables, m)
  {
    NoClashWithin(all, applied);
    T.AllStoredIff(T.EMPTY, applied);
    T.InsertsNothingElse(applied);
  }

  lemma NoClashWithin(all: seq<P2PMessage>, some: seq<P2PMessage>)
    requires T.NoClash(all) && AllIn(some, all)
    ensures T.NoClash(some)
  {
    forall i, j | 0 <= i < j < |some| ensures !T.Clash(some[i], some[j]) {
      assert some[i] in all && some[j] in all;
      var a :| 0 <= a < |all| && all[a] == some[i];
      var b :| 0 <= b < |all| && all[b] == some[j];
      if a < b {
        assert !T.Clash(all[a], all[b]);
      } else if b < a {
        assert !T.Clash(all[b], all[a]);
      }
    }
  }

  /** The worker stops only with the queue empty and every callback made. */
  lemma StopsEmpty(states: seq<State>, actions: seq<Action>, i: nat)
    requires Run(states, actions) && i < |actions|
    requires !states[i].pc.Stopped? && states[i + 1].pc.Stopped?
    ensures var s := states[i + 1];
            && s.taken == |s.linked| == s.first
            && !s.running
            && forall j :: 0 <= j < |s.linked| && s.linked[j].callback ==> Called(s.calls, j)
  {
    RunInv(states, actions, i);
    assert StepAt(states, actions, i);
    LastLook(states[i], actions[i]);
    RunInv(states, actions, i + 1);
    NotRunningWhenDraining(states, actions, i + 1);
  }

  lemma LastLook(s: State, a: Action)
    requires Shape(s) && Enabled(s, a) && !s.pc.Stopped? && Apply(s, a).pc.Stopped?
    ensures var s' := Apply(s, a); s'.taken == |s'.linked| == s'.first && s'.draining
  {
  }

  lemma {:induction false} NotRunningWhenDraining(states: seq<State>, actions: seq<Action>, i: nat)
    requires Run(states, actions) && i < |states|
    ensures states[i].draining ==> !states[i].running
  {
    if i > 0 {
      NotRunningWhenDraining(states, actions, i - 1);
      assert StepAt(states, actions, i - 1);
    }
  }

  lemma StaysStopped(s: State, a: Action)
    requires s.pc.Stopped? && Enabled(s, a)
    ensures var s' := Apply(s, a); s'.pc.Stopped? && s'.taken == s.taken && s'.calls == s.calls && s'.tables == s.tables
  {
  }

  lemma {:induction false} StoppedForGood(states: seq<State>, actions: seq<Action>, i: nat, k: nat)
    requires Run(states, actions) && i <= k < |states| && states[i].pc.Stopped?
    ensures var s, t := states[i], states[k];
            t.pc.Stopped? && t.taken == s.taken && t.calls == s.calls && t.tables == s.tables
    decreases k - i
  {
    if i < k {
      StoppedForGood(states, actions, i, k - 1);
      assert StepAt(states, actions, k - 1);
      StaysStopped(states[k - 1], actions[k - 1]);
    }
  }

  /**
  After that the worker never acts again: a callback is made exactly for the items linked before its last
  look at the queue.  An item a producer racing with Stop links later is lost, and nothing is stored for it.
  */
  lemma LateItemsAreLost(states: seq<State>, actions: seq<Action>, i: nat, k: nat, j: nat)
    requires Run(states, actions) && i <= k < |states| && states[i].pc.Stopped? && Callback(states[k], j)
    ensures states[k].tables == states[i].tables
    ensures Called(states[k].calls, j) <==> j < states[i].taken
  {
    StoppedForGood(states, actions, i, k);
    RunInv(states, actions, k);
  }

  /** Such a run: Stop, the worker finds nothing, then a producer enqueues. */
  lemma AnItemCanBeLost(item: Item) returns (states: seq<State>, actions: seq<Action>)
    requires item.callback
    ensures Run(states, actions)
    ensures var s := states[|actions|]; s.pc.Stopped? && s.linked == [item] && s.calls == [] && s.tables == T.EMPTY
  {
    actions := [Stop, TestRunning, TestEmpty, Count(0, item), Link(0)];
    var s1 := Apply(INIT, Stop);
    var s2 := Apply(s1, TestRunning);
    var s3 := Apply(s2, TestEmpty);
    var s4 := Apply(s3, Count(0, item));
    states := [INIT, s1, s2, s3, s4, Apply(s4, Link(0))];
    forall k | 0 <= k < 5 ensures StepAt(states, actions, k) {
    }
  }
}
