/**
The writer of AsyncWriter over the queue of MpscQueue: producers and worker run the queue's own atomic steps,
and act on what those steps return.  Every joint run is proved to be a run of AsyncWriter, so its theorems
hold of the lock-free queue.
*/
module WriterQueue {
  import opened Wrappers
  import Q = MpscQueue
  import W = AsyncWriter

  /** `buffer` is the worker's batch buffer, filled with what dequeue returns. */
  datatype State = State(w: W.State, q: Q.State<W.Item>, buffer: seq<W.Item>)

  datatype Action =
    | QueueStep(a: Q.Action<W.Item>, event: Q.Event<W.Item>)
    | WriterStep(action: W.Action)

  const INIT := State(W.INIT, Q.Init<W.Item>(), [])

  /** When the code around the queue calls it. */
  predicate Calls(s: State, a: Q.Action<W.Item>) {
    match a
    case CallEnqueue(p, item) => p in s.w.counted && s.w.counted[p] == item
    case CallDequeue => s.w.pc.Bulk? && s.w.taken - s.w.first < W.BATCH_SIZE
    case CallEmpty => s.w.pc.CheckEmpty?
    case _ => true
  }

  /** What the code does with what the queue returned. */
  function Reaction(s: State, event: Q.Event<W.Item>): (W.State, seq<W.Item>) {
    match event
    case Silent => (s.w, s.buffer)
    case Enqueued(p, item) => (s.w.(linked := s.w.linked + [item], counted := s.w.counted - {p}), s.buffer)
    case Dequeued(item) => (s.w.(taken := s.w.taken + 1), s.buffer + [item])
    case FoundEmpty =>
      (s.w.(pc := if s.buffer != [] then W.Subtract else if s.w.draining then W.CheckEmpty else W.CheckRunning), s.buffer)
    case EmptyAnswer(answer) => (s.w.(pc := if answer then W.Stopped else W.Bulk), s.buffer)
  }

  /** Steps beside the queue: the worker is not inside a queue call, nor is a producer that counts. */
  predicate Beside(s: State, a: W.Action) {
    match a
    case Count(p, _) => p !in s.q.mem.producers
    case Stop => true
    case Link(_) => false
    case Dequeue => false
    case TestEmpty => false
    case EndBulk => s.q.mem.consumer.Resting? && |s.buffer| >= W.BATCH_SIZE
    case _ => s.q.mem.consumer.Resting?
  }

  ghost predicate Next(s: State, action: Action, s': State) {
    match action
    case QueueStep(a, event) =>
      Calls(s, a) && Q.Next(s.q, a, event, s'.q) && (s'.w, s'.buffer) == Reaction(s, event)
    case WriterStep(a) =>
      Beside(s, a) && W.Enabled(s.w, a) && s'.w == W.Apply(s.w, a) && s'.q == s.q
      && s'.buffer == (if a.ClearBatch? then [] else s.buffer)
  }

  ghost predicate Run(states: seq<State>, actions: seq<Action>) {
    && |states| == |actions| + 1 && states[0] == INIT
    && forall i :: 0 <= i < |actions| ==> StepAt(states, actions, i)
  }

  ghost predicate StepAt(states: seq<State>, actions: seq<Action>, i: nat)
    requires i < |actions| && i + 1 < |states|
  {
    Next(states[i], actions[i], states[i + 1])
  }

  // ---------------------------------------------------------------- the two views agree

  /** Log, count and buffer are the same on both sides. */
  ghost predicate SameQueue(s: State) {
    && Q.Values(s.q.linked) == s.w.linked && |s.q.returned| == s.w.taken
    && s.w.first <= s.w.taken <= |s.w.linked| && s.buffer == s.w.linked[s.w.first..s.w.taken]
  }

  /** A worker inside a queue call is where it made the call. */
  predicate WorkerInCall(s: State) {
    match s.q.mem.consumer
    case Resting => true
    case EmptyLoadNext(_) => s.w.pc.CheckEmpty?
    case _ => s.w.pc.Bulk? && s.w.taken - s.w.first < W.BATCH_SIZE
  }

  /** A producer inside enqueue and before its link carries the item it counted. */
  ghost predicate ProducersCounted(s: State) {
    forall p :: Q.Unlinked(s.q, p) ==> p in s.w.counted && Q.InFlight(s.q, p) == [s.w.counted[p]]
  }

  ghost predicate Inv(s: State) {
    Q.Inv(s.q) && W.Shape(s.w) && SameQueue(s) && WorkerInCall(s) && ProducersCounted(s)
  }

  /** The writer's action behind an event, if any. */
  function ActionOf(event: Q.Event<W.Item>): Option<W.Action> {
    match event
    case Silent => None
    case Enqueued(p, _) => Some(W.Link(p))
    case Dequeued(_) => Some(W.Dequeue)
    case FoundEmpty => Some(W.EndBulk)
    case EmptyAnswer(_) => Some(W.TestEmpty)
  }

  /** An event together with what the queue proves about it. */
  ghost predicate Observed(s: State, a: Q.Action<W.Item>, event: Q.Event<W.Item>, s': State) {
    && Calls(s, a) && (s'.w, s'.buffer) == Reaction(s, event)
    && Q.VisibleProducers(s.q, a, event, s'.q) && Q.VisibleConsumer(s.q, a, event, s'.q)
    && Q.TakeStep(s.q, event, s'.q)
  }

  lemma Observe(s: State, a: Q.Action<W.Item>, event: Q.Event<W.Item>, s': State)
    requires Q.Inv(s.q) && Next(s, QueueStep(a, event), s')
    ensures Q.Inv(s'.q) && Observed(s, a, event, s')
  {
    Q.StepRefines(s.q, a, event, s'.q);
    Q.ProducersAreVisible(s.q, a, event, s'.q);
    Q.ConsumerIsVisible(s.q, a, event, s'.q);
    Q.TakesOne(s.q, a, event, s'.q);
  }

  /** An event is an enabled action of the writer with exactly the reaction the code has. */
  lemma EventIsAction(s: State, a: Q.Action<W.Item>, event: Q.Event<W.Item>, s': State)
    requires SameQueue(s) && WorkerInCall(s) && ProducersCounted(s) && Observed(s, a, event, s')
    ensures var action := ActionOf(event);
            if action.None? then s'.w == s.w
            else W.Enabled(s.w, action.value) && s'.w == W.Apply(s.w, action.value)
  {
    assert |s.q.linked| == |s.w.linked|;
  }

  lemma QueuesAgree(s: State, a: Q.Action<W.Item>, event: Q.Event<W.Item>, s': State)
    requires SameQueue(s) && Observed(s, a, event, s')
    ensures SameQueue(s')
  {
    match event
    case Enqueued(p, item) =>
      assert Q.Values(s.q.linked + [(p, item)]) == Q.Values(s.q.linked) + [item];
    case Dequeued(item) =>
      assert item == s.w.linked[s.w.taken];
    case _ =>
  }

  lemma WorkerStaysInCall(s: State, a: Q.Action<W.Item>, event: Q.Event<W.Item>, s': State)
    requires WorkerInCall(s) && Observed(s, a, event, s')
    ensures WorkerInCall(s')
  {
  }

  lemma ProducersStayCounted(s: State, a: Q.Action<W.Item>, event: Q.Event<W.Item>, s': State)
    requires ProducersCounted(s) && Observed(s, a, event, s')
    requires Q.LogsOk(s.q) && Q.LogsOk(s'.q) && Q.Next(s.q, a, event, s'.q)
    ensures ProducersCounted(s')
  {
    forall p | Q.Unlinked(s'.q, p) ensures p in s'.w.counted && Q.InFlight(s'.q, p) == [s'.w.counted[p]] {
      if !(a.CallEnqueue? && a.p == p) {
        Q.InFlightStays(s.q, a, event, s'.q, p);
      }
    }
  }

  lemma QueueStepKeeps(s: State, a: Q.Action<W.Item>, event: Q.Event<W.Item>, s': State)
    requires Inv(s) && Next(s, QueueStep(a, event), s')
    ensures Inv(s') && Observed(s, a, event, s')
  {
    Observe(s, a, event, s');
    QueuesAgree(s, a, event, s');
    WorkerStaysInCall(s, a, event, s');
    ProducersStayCounted(s, a, event, s');
    EventIsAction(s, a, event, s');
    if ActionOf(event).Some? {
      W.ShapeKept(s.w, ActionOf(event).value);
    }
  }

  lemma WriterStepKeeps(s: State, a: W.Action, s': State)
    requires Inv(s) && Next(s, WriterStep(a), s')
    ensures Inv(s')
  {
    W.ShapeKept(s.w, a);
    W.Untouched(s.w, a);
    forall p | Q.Unlinked(s'.q, p) ensures p in s'.w.counted && s'.w.counted[p] == s.w.counted[p] {
      assert Q.Unlinked(s.q, p);
    }
  }

  lemma StepKeeps(s: State, action: Action, s': State) returns (wa: Option<W.Action>)
    requires Inv(s) && Next(s, action, s')
    ensures Inv(s')
    ensures if wa.None? then s'.w == s.w else W.Enabled(s.w, wa.value) && s'.w == W.Apply(s.w, wa.value)
  {
    match action
    case QueueStep(a, event) =>
      QueueStepKeeps(s, a, event, s');
      EventIsAction(s, a, event, s');
      wa := ActionOf(event);
    case WriterStep(a) =>
      WriterStepKeeps(s, a, s');
      wa := Some(a);
  }

  lemma InitInv()
    ensures Inv(INIT)
  {
    Q.InitInv<W.Item>();
  }

  /**
  Every run over the lock-free queue is a run of AsyncWriter that ends in the same state, with the batch
  buffer holding exactly the items the worker took and has not finished.
  */
  lemma {:induction false} RunIsWriterRun(states: seq<State>, actions: seq<Action>, n: nat)
    returns (ws: seq<W.State>, was: seq<W.Action>)
    requires Run(states, actions) && n < |states|
    ensures Inv(states[n])
    ensures W.Run(ws, was) && ws[|was|] == states[n].w
  {
    if n == 0 {
      InitInv();
      ws, was := [W.INIT], [];
    } else {
      ws, was := RunIsWriterRun(states, actions, n - 1);
      assert StepAt(states, actions, n - 1);
      var wa := StepKeeps(states[n - 1], actions[n - 1], states[n]);
      if wa.Some? {
        W.Extend(ws, was, wa.value, states[n].w);
        ws, was := ws + [states[n].w], was + [wa.value];
      }
    }
  }
}
