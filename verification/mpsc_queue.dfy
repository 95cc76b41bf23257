/**
The lock-free queue of server/src/core/mpsc_queue.h, as atomic steps on shared memory.

`Memory` is what the program has: the nodes, `head_`, `tail_`, and the local variables of each
producer and of the one consumer at the load, store or compare-and-swap they do next.  `Step` is
one such atomic access.  Nodes are never freed or reused.

`State` adds logs that no step reads: the chain of nodes ever linked, the enqueue calls made, the
enqueues that took effect (at the link), and the values returned (at the head store).  The queue is
proved to be a first-in first-out sequence under every interleaving.
*/
module MpscQueue {
  import opened Wrappers

  type Pid = nat
  type Ref = nat

  /** A node; `data` becomes None when the consumer moves the value out. */
  datatype Node<T> = Node(data: Option<T>, next: Option<Ref>)

  /** Where a producer is inside `enqueue`, named after the access it makes next. */
  datatype ProducerPc =
    | LoadTail(node: Ref)
    | LoadNext(node: Ref, oldTail: Ref)
    | Recheck(node: Ref, oldTail: Ref, next: Option<Ref>)
    | LinkCas(node: Ref, oldTail: Ref)
    | SwingCas(node: Ref, oldTail: Ref)
    | HelpCas(node: Ref, oldTail: Ref, seen: Ref)

  /** Where the consumer is inside `dequeue` or `empty`. */
  datatype ConsumerPc<T> =
    | Resting
    | DequeueLoadNext(head: Ref)
    | TakeData(next: Ref)
    | StoreHead(next: Ref, value: T)
    | EmptyLoadNext(head: Ref)

  datatype Memory<T> = Memory(
    nodes: seq<Node<T>>,
    head: Ref,
    tail: Ref,
    producers: map<Pid, ProducerPc>,  // a producer outside enqueue is absent
    consumer: ConsumerPc<T>)

  /** One atomic access; `spurious` is the weak compare-and-swap failing for no reason. */
  datatype Action<T> =
    | CallEnqueue(p: Pid, value: T)
    | ProducerMove(p: Pid, spurious: bool)
    | CallDequeue
    | CallEmpty
    | ConsumerMove

  /** What an access makes visible to the outside. */
  datatype Event<T> =
    | Silent
    | Enqueued(p: Pid, value: T)
    | Dequeued(value: T)
    | FoundEmpty
    | EmptyAnswer(answer: bool)

  function InitMemory<T>(): Memory<T> {
    Memory([Node(None, None)], 0, 0, map[], Resting)
  }

  predicate WellFormed<T>(m: Memory<T>) {
    && m.head < |m.nodes| && m.tail < |m.nodes|
    && (forall p :: p in m.producers ==> m.producers[p].node < |m.nodes|)
    && (forall p :: p in m.producers && !m.producers[p].LoadTail? ==> m.producers[p].oldTail < |m.nodes|)
    && (m.consumer.DequeueLoadNext? || m.consumer.EmptyLoadNext? ==> m.consumer.head < |m.nodes|)
    && (m.consumer.TakeData? || m.consumer.StoreHead? ==> m.consumer.next < |m.nodes|)
  }

  /** One iteration point of the loop in `enqueue`. */
  function ProducerNext<T>(m: Memory<T>, p: Pid, spurious: bool): (Memory<T>, Event<T>)
    requires WellFormed(m) && p in m.producers
  {
    match m.producers[p]
    case LoadTail(node) =>
      (m.(producers := m.producers[p := LoadNext(node, m.tail)]), Silent)
    case LoadNext(node, oldTail) =>
      (m.(producers := m.producers[p := Recheck(node, oldTail, m.nodes[oldTail].next)]), Silent)
    case Recheck(node, oldTail, next) =>
      var pc := if oldTail != m.tail then LoadTail(node)
                else if next.None? then LinkCas(node, oldTail)
                else HelpCas(node, oldTail, next.value);
      (m.(producers := m.producers[p := pc]), Silent)
    case LinkCas(node, oldTail) =>
      if !spurious && m.nodes[oldTail].next.None? then
        var linked := m.nodes[oldTail := m.nodes[oldTail].(next := Some(node))];
        var event := if m.nodes[node].data.Some? then Enqueued(p, m.nodes[node].data.value) else Silent;
        (m.(nodes := linked, producers := m.producers[p := SwingCas(node, oldTail)]), event)
      else
        (m.(producers := m.producers[p := LoadTail(node)]), Silent)
    case SwingCas(node, oldTail) =>
      (m.(tail := if m.tail == oldTail then node else m.tail, producers := m.producers - {p}), Silent)
    case HelpCas(node, oldTail, seen) =>
      (m.(tail := if m.tail == oldTail then seen else m.tail,
          producers := m.producers[p := LoadTail(node)]), Silent)
  }

  /** One access of `dequeue` or `empty`. */
  function ConsumerNext<T>(m: Memory<T>): (Memory<T>, Event<T>)
    requires WellFormed(m) && !m.consumer.Resting?
  {
    match m.consumer
    case DequeueLoadNext(head) =>
      (match m.nodes[head].next
       case None => (m.(consumer := Resting), FoundEmpty)
       case Some(next) => (m.(consumer := TakeData(next)), Silent))
    case TakeData(next) =>
      (match m.nodes[next].data
       case None => (m.(consumer := Resting), Silent)
       case Some(value) =>
         (m.(nodes := m.nodes[next := m.nodes[next].(data := None)], consumer := StoreHead(next, value)), Silent))
    case StoreHead(next, value) =>
      (m.(head := next, consumer := Resting), Dequeued(value))
    case EmptyLoadNext(head) =>
      (m.(consumer := Resting), EmptyAnswer(m.nodes[head].next.None?))
  }

  ghost predicate Step<T>(m: Memory<T>, a: Action<T>, event: Event<T>, m': Memory<T>) {
    && WellFormed(m)
    && match a
       case CallEnqueue(p, value) =>
         p !in m.producers && event == Silent
         && m' == m.(nodes := m.nodes + [Node(Some(value), None)], producers := m.producers[p := LoadTail(|m.nodes|)])
       case ProducerMove(p, spurious) =>
         p in m.producers && (m', event) == ProducerNext(m, p, spurious)
       case CallDequeue =>
         m.consumer.Resting? && event == Silent && m' == m.(consumer := DequeueLoadNext(m.head))
       case CallEmpty =>
         m.consumer.Resting? && event == Silent && m' == m.(consumer := EmptyLoadNext(m.head))
       case ConsumerMove =>
         !m.consumer.Resting? && (m', event) == ConsumerNext(m)
  }

  // ---------------------------------------------------------------- logs

  datatype State<T> = State(
    mem: Memory<T>,
    chain: seq<Ref>,             // every node ever linked, oldest first; chain[0] is the dummy
    calls: seq<(Pid, T)>,        // enqueue calls, in call order
    linked: seq<(Pid, T)>,       // enqueues that took effect; linked[i] sits in node chain[i + 1]
    returned: seq<T>)            // values handed out by dequeue

  function Init<T>(): State<T> {
    State(InitMemory(), [0], [], [], [])
  }

  /** A memory step together with what it appends to the logs. */
  ghost predicate Next<T>(s: State<T>, a: Action<T>, event: Event<T>, s': State<T>) {
    && Step(s.mem, a, event, s'.mem)
    && s'.calls == (if a.CallEnqueue? then s.calls + [(a.p, a.value)] else s.calls)
    && s'.linked == (if event.Enqueued? then s.linked + [(event.p, event.value)] else s.linked)
    && s'.returned == (if event.Dequeued? then s.returned + [event.value] else s.returned)
    && s'.chain == (if event.Enqueued? && a.ProducerMove? && a.p in s.mem.producers
                    then s.chain + [s.mem.producers[a.p].node] else s.chain)
  }

  /** The abstract queue: what has been linked and not yet handed out. */
  function Contents<T>(s: State<T>): seq<T>
    requires |s.returned| <= |s.linked|
  {
    Values(s.linked[|s.returned|..])
  }

  function Values<T>(log: seq<(Pid, T)>): (vs: seq<T>)
    ensures |vs| == |log|
    ensures forall i :: 0 <= i < |log| ==> vs[i] == log[i].1
  {
    seq(|log|, i requires 0 <= i < |log| => log[i].1)
  }

  /** The part of a log that one producer wrote. */
  function By<T>(log: seq<(Pid, T)>, p: Pid): seq<T> {
    if log == [] then []
    else By(log[..|log| - 1], p) + (if log[|log| - 1].0 == p then [log[|log| - 1].1] else [])
  }

  lemma ByAppend<T>(log: seq<(Pid, T)>, q: Pid, v: T, p: Pid)
    ensures By(log + [(q, v)], p) == By(log, p) + (if q == p then [v] else [])
  {
    assert (log + [(q, v)])[..|log|] == log;
  }

  // ---------------------------------------------------------------- invariant

  /** `r` is the node at place `i` of the chain. */
  predicate At<T>(s: State<T>, i: int, r: Ref) {
    0 <= i < |s.chain| && s.chain[i] == r
  }

  /** The `next` pointers run through these nodes, each once, and end at the last. */
  ghost predicate Chained<T>(nodes: seq<Node<T>>, chain: seq<Ref>) {
    && |chain| > 0
    && (forall i :: 0 <= i < |chain| ==> chain[i] < |nodes|)
    && (forall i, j :: 0 <= i < j < |chain| ==> chain[i] != chain[j])
    && (forall i :: 0 <= i < |chain| - 1 ==> nodes[chain[i]].next == Some(chain[i + 1]))
    && nodes[chain[|chain| - 1]].next == None
  }

  ghost predicate ChainOk<T>(s: State<T>) {
    && |s.chain| == |s.linked| + 1
    && |s.returned| <= |s.linked|
    && Chained(s.mem.nodes, s.chain)
    && s.mem.head == s.chain[|s.returned|]
  }

  /** `tail_` is the last node of the chain or the one before it. */
  ghost predicate TailOk<T>(s: State<T>) {
    At(s, |s.chain| - 1, s.mem.tail) || At(s, |s.chain| - 2, s.mem.tail)
  }

  /** Every linked value still waiting is in its node, except one the consumer is holding. */
  ghost predicate DataOk<T>(s: State<T>)
    requires ChainOk(s)
  {
    && (forall i :: |s.returned| < i < |s.chain| && !(s.mem.consumer.StoreHead? && i == |s.returned| + 1) ==>
          s.mem.nodes[s.chain[i]].data == Some(s.linked[i - 1].1))
    && s.returned == Values(s.linked[..|s.returned|])
  }

  ghost predicate ConsumerOk<T>(s: State<T>) {
    match s.mem.consumer
    case Resting => true
    case DequeueLoadNext(head) => head == s.mem.head
    case EmptyLoadNext(head) => head == s.mem.head
    case TakeData(next) => At(s, |s.returned| + 1, next)
    case StoreHead(next, value) =>
      At(s, |s.returned| + 1, next) && |s.returned| < |s.linked| && value == s.linked[|s.returned|].1
  }

  /** A node its producer has allocated and not linked. */
  ghost predicate Fresh<T>(s: State<T>, r: Ref) {
    && r < |s.mem.nodes| && r !in s.chain
    && s.mem.nodes[r].next == None && s.mem.nodes[r].data.Some?
  }

  /** `r` was `tail_` at some time: it is in the chain and not after `tail_`. */
  ghost predicate WasTail<T>(s: State<T>, r: Ref) {
    exists i :: At(s, i, r) && 0 <= i <= TailIndex(s)
  }

  ghost function TailIndex<T>(s: State<T>): int {
    if At(s, |s.chain| - 1, s.mem.tail) then |s.chain| - 1 else |s.chain| - 2
  }

  /** `r` directly follows `t` in the chain. */
  ghost predicate Follows<T>(s: State<T>, t: Ref, r: Ref) {
    exists i :: At(s, i, t) && At(s, i + 1, r)
  }

  ghost predicate PcOk<T>(s: State<T>, pc: ProducerPc) {
    && (pc.SwingCas? || Fresh(s, pc.node))
    && (pc.LoadTail? || WasTail(s, pc.oldTail))
    && (pc.Recheck? && pc.next.Some? ==> Follows(s, pc.oldTail, pc.next.value))
    && (pc.HelpCas? ==> Follows(s, pc.oldTail, pc.seen))
    && (pc.SwingCas? ==> Follows(s, pc.oldTail, pc.node))
  }

  /** The value of a call whose node is not linked yet. */
  function InFlight<T>(s: State<T>, p: Pid): seq<T> {
    if p in s.mem.producers && !s.mem.producers[p].SwingCas?
       && s.mem.producers[p].node < |s.mem.nodes| && s.mem.nodes[s.mem.producers[p].node].data.Some?
    then [s.mem.nodes[s.mem.producers[p].node].data.value] else []
  }

  ghost predicate ProducersOk<T>(s: State<T>) {
    && (forall p :: p in s.mem.producers ==> PcOk(s, s.mem.producers[p]))
    && (forall p, q :: p in s.mem.producers && q in s.mem.producers && p != q
                       && !s.mem.producers[p].SwingCas? && !s.mem.producers[q].SwingCas?
          ==> s.mem.producers[p].node != s.mem.producers[q].node)
  }

  ghost predicate LogsOk<T>(s: State<T>) {
    forall p: Pid :: By(s.calls, p) == By(s.linked, p) + InFlight(s, p)
  }

  ghost predicate Inv<T>(s: State<T>) {
    ChainOk(s) && TailOk(s) && DataOk(s) && ConsumerOk(s) && ProducersOk(s) && LogsOk(s)
  }

  // ---------------------------------------------------------------- preservation

  /** How the chain and `tail_` may change: the chain only grows, `tail_` only moves forward. */
  ghost predicate Grows<T>(s: State<T>, s': State<T>) {
    s.chain <= s'.chain && TailIndex(s) <= TailIndex(s')
  }

  lemma PcFrame<T>(s: State<T>, s': State<T>, pc: ProducerPc)
    requires PcOk(s, pc) && Grows(s, s')
    requires pc.SwingCas? || Fresh(s', pc.node)
    ensures PcOk(s', pc)
  {
    if !pc.LoadTail? {
      var i :| At(s, i, pc.oldTail) && 0 <= i <= TailIndex(s);
      assert At(s', i, pc.oldTail);
    }
    FollowsFrame(s, s');
  }

  lemma FollowsFrame<T>(s: State<T>, s': State<T>)
    requires s.chain <= s'.chain
    ensures forall t, r :: Follows(s, t, r) ==> Follows(s', t, r)
  {
    forall t, r | Follows(s, t, r) ensures Follows(s', t, r) {
      var i :| At(s, i, t) && At(s, i + 1, r);
      assert At(s', i, t) && At(s', i + 1, r);
    }
  }

  /** Chain places are unique, so a node that follows `t` is the one `t.next` names. */
  lemma FollowsIsNext<T>(s: State<T>, t: Ref, r: Ref)
    requires ChainOk(s) && t in s.chain
    ensures t < |s.mem.nodes|
    ensures Follows(s, t, r) <==> s.mem.nodes[t].next == Some(r)
  {
    var k :| 0 <= k < |s.chain| && s.chain[k] == t;
    if s.mem.nodes[t].next == Some(r) {
      assert At(s, k, t) && At(s, k + 1, r);
    }
  }

  /** The tail's place in the chain is unique. */
  lemma TailPlace<T>(s: State<T>, i: int)
    requires ChainOk(s) && TailOk(s) && At(s, i, s.mem.tail)
    ensures i == TailIndex(s)
  {
  }

  lemma InvWellFormed<T>(s: State<T>)
    requires Inv(s)
    ensures WellFormed(s.mem)
  {
    forall p | p in s.mem.producers
      ensures s.mem.producers[p].node < |s.mem.nodes|
      ensures !s.mem.producers[p].LoadTail? ==> s.mem.producers[p].oldTail < |s.mem.nodes|
    {
      var pc := s.mem.producers[p];
      assert PcOk(s, pc);
      if pc.SwingCas? {
        var i :| At(s, i, pc.oldTail) && At(s, i + 1, pc.node);
      }
    }
  }

  lemma InitInv<T>()
    ensures Inv(Init<T>())
  {
    var s := Init<T>();
    assert At(s, |s.chain| - 1, s.mem.tail);
  }

  /** The other producers keep their part of the invariant when their nodes are left alone. */
  lemma OthersFrame<T>(s: State<T>, s': State<T>, p: Pid)
    requires ProducersOk(s) && Grows(s, s')
    requires s'.mem.producers - {p} == s.mem.producers - {p}
    requires forall q :: q in s.mem.producers && q != p && !s.mem.producers[q].SwingCas? ==>
               Fresh(s', s.mem.producers[q].node)
    ensures forall q :: q in s'.mem.producers && q != p ==> q in s.mem.producers && s'.mem.producers[q] == s.mem.producers[q]
    ensures forall q :: q in s'.mem.producers && q != p ==> PcOk(s', s'.mem.producers[q])
  {
    forall q | q in s'.mem.producers && q != p
      ensures q in s.mem.producers && s'.mem.producers[q] == s.mem.producers[q]
      ensures PcOk(s', s'.mem.producers[q])
    {
      assert q in s'.mem.producers - {p};
      assert (s.mem.producers - {p})[q] == s.mem.producers[q];
      assert PcOk(s, s.mem.producers[q]);
      PcFrame(s, s', s.mem.producers[q]);
    }
  }

  lemma TailFrame<T>(s: State<T>, s': State<T>)
    requires s'.chain == s.chain && s'.mem.tail == s.mem.tail
    ensures TailOk(s') == TailOk(s) && TailIndex(s') == TailIndex(s)
  {
    assert forall i :: At(s, i, s.mem.tail) == At(s', i, s'.mem.tail);
  }

  lemma InFlightFrame<T>(s: State<T>, p: Pid, s': State<T>)
    requires s'.mem.nodes == s.mem.nodes && p in s.mem.producers
    requires s'.mem.producers - {p} == s.mem.producers - {p}
    requires if s.mem.producers[p].SwingCas? then p !in s'.mem.producers
             else p in s'.mem.producers && !s'.mem.producers[p].SwingCas?
                  && s'.mem.producers[p].node == s.mem.producers[p].node
    ensures forall q: Pid :: InFlight(s', q) == InFlight(s, q)
  {
    forall q: Pid ensures InFlight(s', q) == InFlight(s, q) {
      if q != p {
        assert q in s.mem.producers <==> q in s.mem.producers - {p};
        assert q in s'.mem.producers <==> q in s'.mem.producers - {p};
      }
    }
  }

  lemma LogsFrame<T>(s: State<T>, s': State<T>)
    requires LogsOk(s) && s'.calls == s.calls && s'.linked == s.linked
    requires forall q: Pid :: InFlight(s', q) == InFlight(s, q)
    ensures LogsOk(s')
  {
    forall q: Pid ensures By(s'.calls, q) == By(s'.linked, q) + InFlight(s', q) {
      assert By(s.calls, q) == By(s.linked, q) + InFlight(s, q);
    }
  }

  /** Nothing about the chain or the consumer changes when only producers and `tail_` move. */
  lemma BaseFrame<T>(s: State<T>, s': State<T>)
    requires ChainOk(s) && DataOk(s) && ConsumerOk(s)
    requires s' == s.(mem := s.mem.(producers := s'.mem.producers, tail := s'.mem.tail))
    ensures ChainOk(s') && DataOk(s') && ConsumerOk(s')
  {
  }

  lemma CallEnqueueBase<T>(s: State<T>, p: Pid, value: T, s': State<T>)
    requires Inv(s) && p !in s.mem.producers
    requires s' == s.(calls := s.calls + [(p, value)],
                      mem := s.mem.(nodes := s.mem.nodes + [Node(Some(value), None)],
                                    producers := s.mem.producers[p := LoadTail(|s.mem.nodes|)]))
    ensures ChainOk(s') && TailOk(s') && DataOk(s') && ConsumerOk(s')
    ensures TailIndex(s') == TailIndex(s)
  {
    TailFrame(s, s');
  }

  lemma CallEnqueueLogs<T>(s: State<T>, p: Pid, value: T, s': State<T>)
    requires Inv(s) && p !in s.mem.producers
    requires s' == s.(calls := s.calls + [(p, value)],
                      mem := s.mem.(nodes := s.mem.nodes + [Node(Some(value), None)],
                                    producers := s.mem.producers[p := LoadTail(|s.mem.nodes|)]))
    ensures LogsOk(s')
  {
    forall q: Pid ensures By(s'.calls, q) == By(s'.linked, q) + InFlight(s', q) {
      ByAppend(s.calls, p, value, q);
      assert By(s.calls, q) == By(s.linked, q) + InFlight(s, q);
      if q in s.mem.producers {
        assert PcOk(s, s.mem.producers[q]);
      }
    }
  }

  lemma CallEnqueuePreserves<T>(s: State<T>, p: Pid, value: T, s': State<T>)
    requires Inv(s) && p !in s.mem.producers
    requires s' == s.(calls := s.calls + [(p, value)],
                      mem := s.mem.(nodes := s.mem.nodes + [Node(Some(value), None)],
                                    producers := s.mem.producers[p := LoadTail(|s.mem.nodes|)]))
    ensures Inv(s')
  {
    CallEnqueueBase(s, p, value, s');
    CallEnqueueLogs(s, p, value, s');
    assert s'.mem.producers - {p} == s.mem.producers - {p};
    OthersFrame(s, s', p);
    assert Fresh(s', |s.mem.nodes|);
  }

  /** A producer step that changes only its own program counter, keeping its node. */
  lemma LocalMovePreserves<T>(s: State<T>, p: Pid, pc: ProducerPc, s': State<T>)
    requires Inv(s) && p in s.mem.producers && !s.mem.producers[p].SwingCas? && !pc.SwingCas?
    requires pc.node == s.mem.producers[p].node
    requires s' == s.(mem := s.mem.(producers := s.mem.producers[p := pc]))
    requires PcOk(s, pc)
    ensures Inv(s')
  {
    hide LogsOk, DataOk, ConsumerOk, TailOk, Chained, TailIndex;
    BaseFrame(s, s');
    TailFrame(s, s');
    assert s'.mem.producers - {p} == s.mem.producers - {p};
    OthersFrame(s, s', p);
    PcFrame(s, s', pc);
    InFlightFrame(s, p, s');
    LogsFrame(s, s');
  }

  /** Moving `tail_` from a node to the one that follows it moves it forward by exactly one. */
  lemma TailMove<T>(s: State<T>, t: Ref, r: Ref, s': State<T>)
    requires ChainOk(s) && TailOk(s) && s.mem.tail == t && Follows(s, t, r)
    requires s'.chain == s.chain && s'.mem.tail == r
    ensures TailOk(s') && TailIndex(s') == TailIndex(s) + 1 == |s.chain| - 1
  {
    var i :| At(s, i, t) && At(s, i + 1, r);
    TailPlace(s, i);
    assert At(s', i + 1, r);
  }

  /** Both tail swings, the producer's own and the helping one. */
  lemma SwingPreserves<T>(s: State<T>, p: Pid, s': State<T>)
    requires Inv(s) && p in s.mem.producers
    requires s.mem.producers[p].SwingCas? || s.mem.producers[p].HelpCas?
    requires WellFormed(s.mem) && s' == s.(mem := ProducerNext(s.mem, p, false).0)
    ensures Inv(s')
    ensures TailIndex(s) <= TailIndex(s') <= TailIndex(s) + 1
  {
    hide LogsOk, DataOk, ConsumerOk, TailOk, Chained, TailIndex;
    var pc := s.mem.producers[p];
    assert PcOk(s, pc);
    SwingEffect(s.mem, p);
    BaseFrame(s, s');
    SwingTail(s, pc, s');
    OthersFrame(s, s', p);
    InFlightFrame(s, p, s');
    LogsFrame(s, s');
  }

  /** A tail compare-and-swap touches `tail_` and its own producer only. */
  lemma SwingEffect<T>(m: Memory<T>, p: Pid)
    requires WellFormed(m) && p in m.producers && (m.producers[p].SwingCas? || m.producers[p].HelpCas?)
    ensures var m', pc := ProducerNext(m, p, false).0, m.producers[p];
            && m' == m.(producers := m'.producers, tail := m'.tail)
            && m'.producers - {p} == m.producers - {p}
            && m'.tail == (if m.tail != pc.oldTail then m.tail else if pc.SwingCas? then pc.node else pc.seen)
  {
  }

  lemma SwingTail<T>(s: State<T>, pc: ProducerPc, s': State<T>)
    requires ChainOk(s) && TailOk(s) && PcOk(s, pc) && (pc.SwingCas? || pc.HelpCas?)
    requires s'.chain == s.chain
    requires s'.mem.tail == if s.mem.tail != pc.oldTail then s.mem.tail
                            else if pc.SwingCas? then pc.node else pc.seen
    ensures TailOk(s') && TailIndex(s) <= TailIndex(s') <= TailIndex(s) + 1
  {
    if s.mem.tail == pc.oldTail {
      TailMove(s, pc.oldTail, s'.mem.tail, s');
    } else {
      TailFrame(s, s');
    }
  }

  /** The link succeeds only where `tail_` is the last node of the chain. */
  lemma LinkTarget<T>(s: State<T>, pc: ProducerPc)
    requires Inv(s) && PcOk(s, pc) && pc.LinkCas?
    ensures pc.oldTail in s.chain && pc.oldTail < |s.mem.nodes|
    ensures s.mem.nodes[pc.oldTail].next.None? ==>
              pc.oldTail == s.chain[|s.chain| - 1] == s.mem.tail
  {
    var i :| At(s, i, pc.oldTail) && 0 <= i <= TailIndex(s);
    assert i < |s.chain| - 1 ==> s.mem.nodes[s.chain[i]].next == Some(s.chain[i + 1]);
  }

  ghost predicate Linked<T>(s: State<T>, p: Pid, s': State<T>) {
    && Inv(s) && p in s.mem.producers && s.mem.producers[p].LinkCas?
    && var pc := s.mem.producers[p];
    && Fresh(s, pc.node) && pc.oldTail == s.chain[|s.chain| - 1] == s.mem.tail
    && s' == State(
               s.mem.(nodes := s.mem.nodes[pc.oldTail := s.mem.nodes[pc.oldTail].(next := Some(pc.node))],
                      producers := s.mem.producers[p := SwingCas(pc.node, pc.oldTail)]),
               s.chain + [pc.node], s.calls, s.linked + [(p, s.mem.nodes[pc.node].data.value)], s.returned)
  }

  lemma ChainGrows<T>(nodes: seq<Node<T>>, chain: seq<Ref>, last: Ref, r: Ref)
    requires Chained(nodes, chain) && last == chain[|chain| - 1]
    requires r < |nodes| && r !in chain && nodes[r].next == None
    ensures Chained(nodes[last := nodes[last].(next := Some(r))], chain + [r])
  {
    var nodes' := nodes[last := nodes[last].(next := Some(r))];
    assert forall i :: 0 <= i < |chain| - 1 ==> nodes'[chain[i]] == nodes[chain[i]];
  }

  lemma LinkChain<T>(s: State<T>, p: Pid, s': State<T>)
    requires Linked(s, p, s')
    ensures ChainOk(s')
  {
    var pc := s.mem.producers[p];
    ChainGrows(s.mem.nodes, s.chain, pc.oldTail, pc.node);
  }

  lemma LinkTail<T>(s: State<T>, p: Pid, s': State<T>)
    requires Linked(s, p, s')
    ensures TailOk(s') && ConsumerOk(s') && Grows(s, s') && TailIndex(s') == |s.chain| - 1
  {
    assert At(s, |s.chain| - 1, s.mem.tail) && At(s', |s'.chain| - 2, s'.mem.tail);
  }

  lemma LinkData<T>(s: State<T>, p: Pid, s': State<T>)
    requires Linked(s, p, s') && ChainOk(s')
    ensures DataOk(s')
  {
    assert s'.linked[..|s'.returned|] == s.linked[..|s.returned|];
    forall i | |s'.returned| < i < |s'.chain| && !(s'.mem.consumer.StoreHead? && i == |s'.returned| + 1)
      ensures s'.mem.nodes[s'.chain[i]].data == Some(s'.linked[i - 1].1)
    {
      if i < |s.chain| {
        assert s.mem.nodes[s.chain[i]].data == Some(s.linked[i - 1].1);
      }
    }
  }

  lemma LinkPc<T>(s: State<T>, p: Pid, s': State<T>, q: Pid)
    requires Linked(s, p, s') && Grows(s, s') && TailIndex(s') == |s.chain| - 1
    requires q in s'.mem.producers
    ensures PcOk(s', s'.mem.producers[q])
  {
    hide LogsOk, DataOk, ConsumerOk, TailOk;
    var pc := s.mem.producers[p];
    assert PcOk(s, s.mem.producers[q]);
    if q != p {
      PcFrame(s, s', s.mem.producers[q]);
    } else {
      assert At(s', |s.chain| - 1, pc.oldTail) && At(s', |s.chain| - 1 + 1, pc.node);
    }
  }

  lemma LinkProducers<T>(s: State<T>, p: Pid, s': State<T>)
    requires Linked(s, p, s') && Grows(s, s') && TailIndex(s') == |s.chain| - 1
    ensures ProducersOk(s')
  {
    hide LogsOk, DataOk, ConsumerOk, TailOk, ChainOk, Grows, PcOk;
    forall q | q in s'.mem.producers ensures PcOk(s', s'.mem.producers[q]) {
      LinkPc(s, p, s', q);
    }
  }

  lemma LinkLogs<T>(s: State<T>, p: Pid, s': State<T>)
    requires Linked(s, p, s')
    ensures LogsOk(s')
  {
    var value := s.mem.nodes[s.mem.producers[p].node].data.value;
    forall q: Pid ensures By(s'.calls, q) == By(s'.linked, q) + InFlight(s', q) {
      assert By(s.calls, q) == By(s.linked, q) + InFlight(s, q);
      ByAppend(s.linked, p, value, q);
      LinkInFlight(s, p, s', q);
    }
  }

  /** The link takes the producer's own value out of flight and no other. */
  lemma LinkInFlight<T>(s: State<T>, p: Pid, s': State<T>, q: Pid)
    requires Linked(s, p, s')
    ensures InFlight(s, q) == (if q == p then [s.mem.nodes[s.mem.producers[p].node].data.value] else InFlight(s', q))
    ensures q == p ==> InFlight(s', q) == []
  {
  }

  lemma LinkPreserves<T>(s: State<T>, p: Pid, s': State<T>)
    requires Linked(s, p, s')
    ensures Inv(s')
    ensures TailIndex(s) == |s.chain| - 1 == TailIndex(s')
    ensures Contents(s') == Contents(s) + [s.mem.nodes[s.mem.producers[p].node].data.value]
  {
    LinkChain(s, p, s');
    LinkTail(s, p, s');
    LinkData(s, p, s');
    LinkProducers(s, p, s');
    LinkLogs(s, p, s');
    ContentsAppend(s.linked, |s.returned|, (p, s.mem.nodes[s.mem.producers[p].node].data.value));
    assert At(s, |s.chain| - 1, s.mem.tail);
  }

  lemma ContentsAppend<T>(log: seq<(Pid, T)>, n: nat, e: (Pid, T))
    requires n <= |log|
    ensures Values((log + [e])[n..]) == Values(log[n..]) + [e.1]
  {
    assert (log + [e])[n..] == log[n..] + [e];
  }

  // ---------------------------------------------------------------- the consumer

  /** The consumer leaves the chain, `tail_` and every unlinked node alone. */
  lemma ConsumerFrame<T>(s: State<T>, s': State<T>)
    requires Inv(s) && s'.chain == s.chain && s'.calls == s.calls && s'.linked == s.linked
    requires s'.mem.tail == s.mem.tail && s'.mem.producers == s.mem.producers
    requires |s'.mem.nodes| == |s.mem.nodes|
    requires forall r :: 0 <= r < |s.mem.nodes| && r !in s.chain ==> s'.mem.nodes[r] == s.mem.nodes[r]
    ensures TailOk(s') && ProducersOk(s') && LogsOk(s')
  {
    TailFrame(s, s');
    forall q | q in s'.mem.producers ensures PcOk(s', s'.mem.producers[q]) {
      assert PcOk(s, s.mem.producers[q]);
      PcFrame(s, s', s.mem.producers[q]);
    }
    ConsumerLogs(s, s');
  }

  lemma ConsumerLogs<T>(s: State<T>, s': State<T>)
    requires ProducersOk(s) && LogsOk(s) && s'.chain == s.chain && s'.calls == s.calls && s'.linked == s.linked
    requires s'.mem.producers == s.mem.producers
    requires |s'.mem.nodes| == |s.mem.nodes|
    requires forall r :: 0 <= r < |s.mem.nodes| && r !in s.chain ==> s'.mem.nodes[r] == s.mem.nodes[r]
    ensures LogsOk(s')
  {
    forall q: Pid ensures InFlight(s', q) == InFlight(s, q) {
      if q in s.mem.producers {
        assert PcOk(s, s.mem.producers[q]);
      }
    }
    LogsFrame(s, s');
  }

  lemma CallPreserves<T>(s: State<T>, s': State<T>)
    requires Inv(s) && s.mem.consumer.Resting?
    requires s' == s.(mem := s.mem.(consumer := DequeueLoadNext(s.mem.head)))
             || s' == s.(mem := s.mem.(consumer := EmptyLoadNext(s.mem.head)))
    ensures Inv(s')
  {
    ConsumerFrame(s, s');
  }

  /**
  A null `next` of `head_` is seen exactly when the abstract queue is empty at that access; else it names
  the node of the oldest value, which is there until the consumer takes it out.
  */
  lemma NextOfHead<T>(s: State<T>)
    requires ChainOk(s) && DataOk(s)
    ensures s.mem.nodes[s.mem.head].next.None? <==> Contents(s) == []
    ensures s.mem.nodes[s.mem.head].next.Some? ==>
              var next := s.mem.nodes[s.mem.head].next.value;
              && At(s, |s.returned| + 1, next) && Contents(s) != []
              && (!s.mem.consumer.StoreHead? ==> s.mem.nodes[next].data == Some(Contents(s)[0]))
  {
    var n := |s.returned|;
    if n < |s.linked| {
      assert s.mem.nodes[s.chain[n]].next == Some(s.chain[n + 1]);
      assert |Contents(s)| > 0 && Contents(s)[0] == s.linked[n].1;
    } else {
      assert s.linked[n..] == [];
    }
  }

  lemma LoadNextPreserves<T>(s: State<T>, s': State<T>)
    requires Inv(s) && WellFormed(s.mem) && (s.mem.consumer.DequeueLoadNext? || s.mem.consumer.EmptyLoadNext?)
    requires s' == s.(mem := ConsumerNext(s.mem).0)
    ensures Inv(s')
    ensures ConsumerNext(s.mem).1.FoundEmpty? ==> Contents(s) == []
    ensures ConsumerNext(s.mem).1.EmptyAnswer? ==> ConsumerNext(s.mem).1.answer == (Contents(s) == [])
  {
    NextOfHead(s);
    ConsumerFrame(s, s');
  }

  lemma TakeDataPreserves<T>(s: State<T>, s': State<T>)
    requires Inv(s) && WellFormed(s.mem) && s.mem.consumer.TakeData?
    requires s' == s.(mem := ConsumerNext(s.mem).0)
    ensures Inv(s') && ConsumerNext(s.mem).1.Silent?
  {
    assert s.mem.nodes[s.mem.consumer.next].data == Some(s.linked[|s.returned|].1);
    TakeDataChain(s, s');
    ConsumerFrame(s, s');
  }

  lemma TakeDataChain<T>(s: State<T>, s': State<T>)
    requires ChainOk(s) && DataOk(s) && ConsumerOk(s) && WellFormed(s.mem) && s.mem.consumer.TakeData?
    requires s.mem.nodes[s.mem.consumer.next].data == Some(s.linked[|s.returned|].1)
    requires s' == s.(mem := ConsumerNext(s.mem).0)
    ensures ChainOk(s') && DataOk(s') && ConsumerOk(s')
  {
    var i := |s.returned| + 1;
    assert s.chain[i] == s.mem.consumer.next;
    forall j | |s'.returned| < j < |s'.chain| && !(s'.mem.consumer.StoreHead? && j == |s'.returned| + 1)
      ensures s'.mem.nodes[s'.chain[j]].data == Some(s'.linked[j - 1].1)
    {
      assert s.mem.nodes[s.chain[j]].data == Some(s.linked[j - 1].1);
    }
  }

  /** The head store hands out the oldest value. */
  lemma StoreHeadBase<T>(s: State<T>, s': State<T>)
    requires ChainOk(s) && DataOk(s) && ConsumerOk(s) && s.mem.consumer.StoreHead?
    requires s' == s.(mem := s.mem.(head := s.mem.consumer.next, consumer := Resting),
                      returned := s.returned + [s.mem.consumer.value])
    ensures ChainOk(s') && DataOk(s') && ConsumerOk(s') && Contents(s) == [s.mem.consumer.value] + Contents(s')
  {
    hide Chained;
    var n := |s.returned|;
    assert s.linked[..n + 1] == s.linked[..n] + [s.linked[n]];
    assert s.linked[n..] == [s.linked[n]] + s.linked[n + 1..];
  }

  lemma StoreHeadPreserves<T>(s: State<T>, s': State<T>)
    requires Inv(s) && s.mem.consumer.StoreHead?
    requires s' == s.(mem := s.mem.(head := s.mem.consumer.next, consumer := Resting),
                      returned := s.returned + [s.mem.consumer.value])
    ensures Inv(s') && Contents(s) == [s.mem.consumer.value] + Contents(s')
  {
    hide DataOk, ConsumerOk, ProducersOk, LogsOk, TailOk, Chained;
    StoreHeadBase(s, s');
    ConsumerFrame(s, s');
  }

  // ---------------------------------------------------------------- refinement

  /** The specification: a first-in first-out sequence. */
  ghost predicate FifoStep<T>(q: seq<T>, event: Event<T>, q': seq<T>) {
    match event
    case Silent => q' == q
    case Enqueued(_, value) => q' == q + [value]
    case Dequeued(value) => q == [value] + q'
    case FoundEmpty => q == [] == q'
    case EmptyAnswer(answer) => q' == q && answer == (q == [])
  }

  /** What one atomic access is proved to do. */
  ghost predicate Refines<T>(s: State<T>, event: Event<T>, s': State<T>) {
    && Inv(s) && Inv(s') && FifoStep(Contents(s), event, Contents(s'))
    && TailIndex(s) <= TailIndex(s') <= TailIndex(s) + 1
    && (event.Enqueued? ==> TailIndex(s) == |s.chain| - 1)
  }

  lemma LocalMoveRefines<T>(s: State<T>, p: Pid, pc: ProducerPc, s': State<T>)
    requires Inv(s) && p in s.mem.producers && !s.mem.producers[p].SwingCas? && !pc.SwingCas?
    requires pc.node == s.mem.producers[p].node && PcOk(s, pc)
    requires s' == s.(mem := s.mem.(producers := s.mem.producers[p := pc]))
    ensures Refines(s, Silent, s')
  {
    LocalMovePreserves(s, p, pc, s');
    TailFrame(s, s');
  }

  lemma LoadNextRefines<T>(s: State<T>, p: Pid, s': State<T>)
    requires Inv(s) && WellFormed(s.mem) && p in s.mem.producers && s.mem.producers[p].LoadNext?
    requires s' == s.(mem := ProducerNext(s.mem, p, false).0)
    ensures Refines(s, Silent, s')
  {
    var pc := s.mem.producers[p];
    assert PcOk(s, pc);
    InChain(s, pc.oldTail);
    if s.mem.nodes[pc.oldTail].next.Some? {
      FollowsIsNext(s, pc.oldTail, s.mem.nodes[pc.oldTail].next.value);
    }
    LocalMoveRefines(s, p, Recheck(pc.node, pc.oldTail, s.mem.nodes[pc.oldTail].next), s');
  }

  lemma RecheckRefines<T>(s: State<T>, p: Pid, s': State<T>)
    requires Inv(s) && WellFormed(s.mem) && p in s.mem.producers && s.mem.producers[p].Recheck?
    requires s' == s.(mem := ProducerNext(s.mem, p, false).0)
    ensures Refines(s, Silent, s')
  {
    assert PcOk(s, s.mem.producers[p]);
    LocalMoveRefines(s, p, s'.mem.producers[p], s');
  }

  lemma LinkCasRefines<T>(s: State<T>, a: Action<T>, event: Event<T>, s': State<T>)
    requires Inv(s) && a.ProducerMove? && Next(s, a, event, s') && s.mem.producers[a.p].LinkCas?
    ensures Refines(s, event, s')
  {
    var pc := s.mem.producers[a.p];
    assert PcOk(s, pc);
    LinkTarget(s, pc);
    if event.Enqueued? {
      LinkPreserves(s, a.p, s');
    } else {
      LocalMoveRefines(s, a.p, LoadTail(pc.node), s');
    }
  }

  lemma ProducerMoveRefines<T>(s: State<T>, a: Action<T>, event: Event<T>, s': State<T>)
    requires Inv(s) && a.ProducerMove? && Next(s, a, event, s')
    ensures Refines(s, event, s')
  {
    match s.mem.producers[a.p]
    case LoadTail(node) =>
      WasTailNow(s);
      assert PcOk(s, s.mem.producers[a.p]);
      LocalMoveRefines(s, a.p, LoadNext(node, s.mem.tail), s');
    case LoadNext(_, _) => LoadNextRefines(s, a.p, s');
    case Recheck(_, _, _) => RecheckRefines(s, a.p, s');
    case LinkCas(_, _) => LinkCasRefines(s, a, event, s');
    case SwingCas(_, _) => SwingPreserves(s, a.p, s');
    case HelpCas(_, _, _) => SwingPreserves(s, a.p, s');
  }

  lemma WasTailNow<T>(s: State<T>)
    requires ChainOk(s) && TailOk(s)
    ensures WasTail(s, s.mem.tail)
  {
    assert At(s, TailIndex(s), s.mem.tail);
  }

  lemma InChain<T>(s: State<T>, r: Ref)
    requires WasTail(s, r)
    ensures r in s.chain
  {
  }

  lemma ConsumerMoveRefines<T>(s: State<T>, a: Action<T>, event: Event<T>, s': State<T>)
    requires Inv(s) && a.ConsumerMove? && Next(s, a, event, s')
    ensures Refines(s, event, s')
  {
    hide Inv, TailIndex;
    TailFrame(s, s');
    match s.mem.consumer
    case DequeueLoadNext(_) => LoadNextPreserves(s, s');
    case EmptyLoadNext(_) => LoadNextPreserves(s, s');
    case TakeData(_) => TakeDataPreserves(s, s');
    case StoreHead(_, _) => StoreHeadPreserves(s, s');
  }

  /** Every atomic access keeps the invariant and is a step, or no step, of the sequence. */
  lemma StepRefines<T>(s: State<T>, a: Action<T>, event: Event<T>, s': State<T>)
    requires Inv(s) && Next(s, a, event, s')
    ensures Refines(s, event, s')
  {
    match a
    case CallEnqueue(p, value) =>
      CallEnqueuePreserves(s, p, value, s');
      TailFrame(s, s');
    case ProducerMove(_, _) => ProducerMoveRefines(s, a, event, s');
    case CallDequeue => CallPreserves(s, s'); TailFrame(s, s');
    case CallEmpty => CallPreserves(s, s'); TailFrame(s, s');
    case ConsumerMove => ConsumerMoveRefines(s, a, event, s');
  }

  /** A run: any interleaving, from the empty queue. */
  ghost predicate Run<T>(states: seq<State<T>>, actions: seq<Action<T>>, events: seq<Event<T>>) {
    && |states| == |actions| + 1 == |events| + 1
    && states[0] == Init()
    && forall i :: 0 <= i < |actions| ==> StepAt(states, actions, events, i)
  }

  ghost predicate StepAt<T>(states: seq<State<T>>, actions: seq<Action<T>>, events: seq<Event<T>>, i: nat)
    requires i < |actions| == |events| && i + 1 < |states|
  {
    Next(states[i], actions[i], events[i], states[i + 1])
  }

  lemma {:induction false} RunInv<T>(states: seq<State<T>>, actions: seq<Action<T>>, events: seq<Event<T>>, n: nat)
    requires Run(states, actions, events) && n < |states|
    ensures Inv(states[n]) && WellFormed(states[n].mem)
  {
    if n == 0 {
      InitInv<T>();
    } else {
      RunInv(states, actions, events, n - 1);
      assert StepAt(states, actions, events, n - 1);
      StepRefines(states[n - 1], actions[n - 1], events[n - 1], states[n]);
    }
    InvWellFormed(states[n]);
  }

  /**
  Every interleaving is a first-in first-out queue: what came out is exactly the oldest part of what
  went in, the rest is still there, and each access is a step of the abstract sequence.
  */
  lemma QueueIsFifo<T>(states: seq<State<T>>, actions: seq<Action<T>>, events: seq<Event<T>>, n: nat)
    requires Run(states, actions, events) && n < |states|
    ensures |states[n].returned| <= |states[n].linked|
    ensures Values(states[n].linked) == states[n].returned + Contents(states[n])
    ensures n + 1 < |states| ==> |states[n + 1].returned| <= |states[n + 1].linked|
                                 && FifoStep(Contents(states[n]), events[n], Contents(states[n + 1]))
  {
    RunInv(states, actions, events, n);
    ValuesSplit(states[n].linked, |states[n].returned|);
    if n + 1 < |states| {
      assert StepAt(states, actions, events, n);
      StepIsFifo(states[n], actions[n], events[n], states[n + 1]);
    }
  }

  lemma ValuesSplit<T>(log: seq<(Pid, T)>, n: nat)
    requires n <= |log|
    ensures Values(log) == Values(log[..n]) + Values(log[n..])
  {
  }

  lemma StepIsFifo<T>(s: State<T>, a: Action<T>, event: Event<T>, s': State<T>)
    requires Inv(s) && Next(s, a, event, s')
    ensures |s.returned| <= |s.linked| && |s'.returned| <= |s'.linked|
    ensures FifoStep(Contents(s), event, Contents(s'))
  {
    StepRefines(s, a, event, s');
  }

  /**
  Each producer's values go in once each and in the order of its calls: its calls are its linked
  values followed by at most the one call whose link is still to come.
  */
  lemma ProducerOrderKept<T>(states: seq<State<T>>, actions: seq<Action<T>>, events: seq<Event<T>>, n: nat, p: Pid)
    requires Run(states, actions, events) && n < |states|
    ensures By(states[n].calls, p) == By(states[n].linked, p) + InFlight(states[n], p)
    ensures |InFlight(states[n], p)| <= 1
    ensures p !in states[n].mem.producers ==> By(states[n].calls, p) == By(states[n].linked, p)
  {
    RunInv(states, actions, events, n);
  }

  /**
  `tail_` is the last or second-to-last linked node, never goes back, advances by at most one, and is
  the last node whenever a link succeeds.
  */
  lemma TailTrailsByAtMostOne<T>(states: seq<State<T>>, actions: seq<Action<T>>, events: seq<Event<T>>, n: nat)
    requires Run(states, actions, events) && n < |states|
    ensures |states[n].chain| - 2 <= TailIndex(states[n]) < |states[n].chain|
    ensures At(states[n], TailIndex(states[n]), states[n].mem.tail)
    ensures n + 1 < |states| ==> TailIndex(states[n]) <= TailIndex(states[n + 1]) <= TailIndex(states[n]) + 1
    ensures n + 1 < |states| && events[n].Enqueued? ==>
              states[n].mem.tail == states[n].chain[|states[n].chain| - 1]
  {
    RunInv(states, actions, events, n);
    if n + 1 < |states| {
      assert StepAt(states, actions, events, n);
      StepRefines(states[n], actions[n], events[n], states[n + 1]);
    }
  }

  lemma {:induction false} LogsOnlyGrow<T>(states: seq<State<T>>, actions: seq<Action<T>>, events: seq<Event<T>>,
                                           n: nat, m: nat)
    requires Run(states, actions, events) && n <= m < |states|
    ensures states[n].linked <= states[m].linked && states[n].returned <= states[m].returned
    decreases m
  {
    if n < m {
      LogsOnlyGrow(states, actions, events, n, m - 1);
      assert StepAt(states, actions, events, m - 1);
    }
  }

  /**
  What the consumer takes between two points of a run is one consecutive block of the linked values,
  starting with the oldest one waiting at the first point.
  */
  lemma TakesConsecutive<T>(states: seq<State<T>>, actions: seq<Action<T>>, events: seq<Event<T>>, n: nat, m: nat)
    requires Run(states, actions, events) && n <= m < |states|
    ensures states[n].returned <= states[m].returned
    ensures |states[m].returned| <= |states[m].linked|
    ensures states[m].returned[|states[n].returned|..]
            == Values(states[m].linked[|states[n].returned|..|states[m].returned|])
  {
    LogsOnlyGrow(states, actions, events, n, m);
    RunInv(states, actions, events, m);
    var a, b := |states[n].returned|, |states[m].returned|;
    assert states[m].linked[..b][a..] == states[m].linked[a..b];
  }

  /** An event that ends a call of the consumer. */
  predicate EndsCall<T>(event: Event<T>) {
    event.Dequeued? || event.FoundEmpty? || event.EmptyAnswer?
  }

  /** Events `n` to `m` hold one call of `dequeue`, which the last of them ends. */
  ghost predicate DequeueCall<T>(events: seq<Event<T>>, n: nat, m: nat) {
    && n < m <= |events| && (events[m - 1].Dequeued? || events[m - 1].FoundEmpty?)
    && forall i :: n <= i < m - 1 ==> !EndsCall(events[i])
  }

  /** One call of `dequeue_bulk`: with room for another value it dequeues, and goes on unless that found nothing. */
  ghost predicate BulkCall<T>(events: seq<Event<T>>, n: nat, m: nat, maxCount: nat)
    decreases maxCount
  {
    if maxCount == 0 then n == m <= |events|
    else exists mid: nat :: DequeueCall(events, n, mid) &&
           if events[mid - 1].FoundEmpty? then m == mid else BulkCall(events, mid, m, maxCount - 1)
  }

  lemma DequeueTakesOne<T>(states: seq<State<T>>, actions: seq<Action<T>>, events: seq<Event<T>>, n: nat, m: nat)
    requires Run(states, actions, events) && DequeueCall(events, n, m)
    ensures |states[m].returned| == |states[n].returned| + (if events[m - 1].Dequeued? then 1 else 0)
    ensures events[m - 1].FoundEmpty? ==> |states[m].linked| == |states[m].returned|
  {
    var i := n;
    while i < m - 1
      invariant n <= i <= m - 1 && |states[i].returned| == |states[n].returned|
    {
      EventsAsTakes(states, actions, events, i);
      i := i + 1;
    }
    EventsAsTakes(states, actions, events, m - 1);
  }

  /** How many values a call takes: at most the limit, and fewer only when nothing is left. */
  lemma {:induction false} BulkCounts<T>(states: seq<State<T>>, actions: seq<Action<T>>, events: seq<Event<T>>, n: nat,
                                         m: nat, maxCount: nat)
    requires Run(states, actions, events) && BulkCall(events, n, m, maxCount)
    ensures n <= m < |states| && 0 <= |states[m].returned| - |states[n].returned| <= maxCount
    ensures |states[m].returned| - |states[n].returned| < maxCount ==> |states[m].linked| == |states[m].returned|
    decreases maxCount
  {
    if maxCount > 0 {
      var mid: nat :| DequeueCall(events, n, mid) &&
                      if events[mid - 1].FoundEmpty? then m == mid else BulkCall(events, mid, m, maxCount - 1);
      DequeueTakesOne(states, actions, events, n, mid);
      if !events[mid - 1].FoundEmpty? {
        BulkCounts(states, actions, events, mid, m, maxCount - 1);
      }
    }
  }

  /**
  One call of `dequeue_bulk` takes the oldest values, in order, at most the limit; it takes fewer only when
  nothing was left.
  */
  lemma BulkTakesConsecutive<T>(states: seq<State<T>>, actions: seq<Action<T>>, events: seq<Event<T>>, n: nat, m: nat,
                                maxCount: nat)
    requires Run(states, actions, events) && BulkCall(events, n, m, maxCount)
    ensures n <= m < |states|
    ensures var count := |states[m].returned| - |states[n].returned|;
            && 0 <= count <= maxCount && |states[m].returned| <= |states[m].linked|
            && states[n].returned <= states[m].returned
            && states[m].returned[|states[n].returned|..]
               == Values(states[m].linked[|states[n].returned|..|states[n].returned| + count])
            && (count < maxCount ==> Contents(states[m]) == [])
  {
    BulkCounts(states, actions, events, n, m, maxCount);
    TakesConsecutive(states, actions, events, n, m);
  }

  /**
  The queue as its users see it: a log of everything linked and the number of values taken.  Each event of
  a run appends to the log, takes the value at that number, or tells whether the two have met.
  */
  lemma EventsAsTakes<T>(states: seq<State<T>>, actions: seq<Action<T>>, events: seq<Event<T>>, n: nat)
    requires Run(states, actions, events) && n < |events|
    ensures TakeStep(states[n], events[n], states[n + 1])
  {
    RunInv(states, actions, events, n);
    assert StepAt(states, actions, events, n);
    TakesOne(states[n], actions[n], events[n], states[n + 1]);
  }

  ghost predicate TakeStep<T>(s: State<T>, event: Event<T>, s': State<T>) {
    && |s.returned| <= |s.linked|
    && match event
       case Silent => s'.linked == s.linked && s'.returned == s.returned
       case Enqueued(p, value) => s'.linked == s.linked + [(p, value)] && s'.returned == s.returned
       case Dequeued(value) =>
         |s.returned| < |s.linked| && value == s.linked[|s.returned|].1
         && s'.linked == s.linked && s'.returned == s.returned + [value]
       case FoundEmpty => |s.returned| == |s.linked| && s'.linked == s.linked && s'.returned == s.returned
       case EmptyAnswer(answer) =>
         answer == (|s.returned| == |s.linked|) && s'.linked == s.linked && s'.returned == s.returned
  }

  lemma TakesOne<T>(s: State<T>, a: Action<T>, event: Event<T>, s': State<T>)
    requires Inv(s) && Next(s, a, event, s')
    ensures TakeStep(s, event, s')
  {
    StepRefines(s, a, event, s');
    assert |Contents(s)| == |s.linked| - |s.returned|;
    if event.Dequeued? {
      assert Contents(s)[0] == s.linked[|s.returned|].1;
    }
  }

  // ---------------------------------------------------------------- what callers see of a step

  predicate InDequeue<T>(pc: ConsumerPc<T>) {
    pc.DequeueLoadNext? || pc.TakeData? || pc.StoreHead?
  }

  predicate Unlinked<T>(s: State<T>, p: Pid) {
    p in s.mem.producers && !s.mem.producers[p].SwingCas?
  }

  /** A link belongs to a producer inside enqueue, and links the value it was called with. */
  ghost predicate VisibleProducers<T>(s: State<T>, a: Action<T>, event: Event<T>, s': State<T>) {
    && (event.Enqueued? ==> a.ProducerMove? && a.p == event.p && Unlinked(s, event.p) && !Unlinked(s', event.p)
                            && InFlight(s, event.p) == [event.value])
    && (forall p :: Unlinked(s', p) ==> Unlinked(s, p) || (a.CallEnqueue? && a.p == p))
    && (a.CallEnqueue? ==> InFlight(s', a.p) == [a.value])
  }

  /** The other events belong to the consumer and end the call it was in. */
  ghost predicate VisibleConsumer<T>(s: State<T>, a: Action<T>, event: Event<T>, s': State<T>) {
    && (event.Dequeued? || event.FoundEmpty? ==> InDequeue(s.mem.consumer) && s'.mem.consumer.Resting?)
    && (event.EmptyAnswer? ==> s.mem.consumer.EmptyLoadNext? && s'.mem.consumer.Resting?)
    && (InDequeue(s'.mem.consumer) ==> a.CallDequeue? || InDequeue(s.mem.consumer))
    && (s'.mem.consumer.EmptyLoadNext? ==> a.CallEmpty? || s.mem.consumer.EmptyLoadNext?)
    && (event.Enqueued? || event.Silent? || a.ConsumerMove?)
  }

  lemma ProducersAreVisible<T>(s: State<T>, a: Action<T>, event: Event<T>, s': State<T>)
    requires ProducersOk(s) && Next(s, a, event, s')
    ensures VisibleProducers(s, a, event, s')
  {
    if a.ProducerMove? {
      assert PcOk(s, s.mem.producers[a.p]);
    }
  }

  lemma ConsumerIsVisible<T>(s: State<T>, a: Action<T>, event: Event<T>, s': State<T>)
    requires Next(s, a, event, s')
    ensures VisibleConsumer(s, a, event, s')
  {
  }

  /** What others do leaves a producer's value in flight. */
  lemma InFlightStays<T>(s: State<T>, a: Action<T>, event: Event<T>, s': State<T>, r: Pid)
    requires LogsOk(s) && LogsOk(s') && Next(s, a, event, s')
    requires !(a.CallEnqueue? && a.p == r) && !(event.Enqueued? && event.p == r)
    ensures InFlight(s', r) == InFlight(s, r)
  {
    if event.Enqueued? {
      ByAppend(s.linked, event.p, event.value, r);
    }
    if a.CallEnqueue? {
      ByAppend(s.calls, a.p, a.value, r);
    }
    InFlightByLogs(s, s', r);
  }

  lemma InFlightByLogs<T>(s: State<T>, s': State<T>, r: Pid)
    requires LogsOk(s) && LogsOk(s') && By(s'.calls, r) == By(s.calls, r) && By(s'.linked, r) == By(s.linked, r)
    ensures InFlight(s', r) == InFlight(s, r)
  {
    var n := |By(s.linked, r)|;
    assert By(s.calls, r)[n..] == InFlight(s, r);
    assert By(s'.calls, r)[n..] == InFlight(s', r);
  }
}
