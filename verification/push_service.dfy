/**
Push routing of server/src/service/push_service.cpp: pushes for online users are queued, and a flush takes a
batch, groups it by connection and hands each connection its group.  Users and connections are numbers; the
shards of the registry are one map, a user always falling into one shard.
*/
module PushService {
  import opened Messages
  import opened Wrappers

  type Conn = nat
  type Data = seq<int>
  type Registry = map<u64, Conn>

  const MAX_BATCH_SIZE: nat := 1024

  datatype PushItem = PushItem(userId: u64, data: Data)

  function Out(outgoing: map<Conn, seq<Data>>, c: Conn): seq<Data> {
    if c in outgoing then outgoing[c] else []
  }

  /** The data of the items whose user was on connection `c` when looked up, in order; lookup `i` sees `seen(i)`. */
  function For(seen: nat -> Registry, items: seq<PushItem>, c: Conn): seq<Data> {
    if items == [] then []
    else
      var n := |items| - 1;
      For(seen, items[..n], c) + (if Goes(seen(n), items[n], c) then [items[n].data] else [])
  }

  /** A registry nobody changes. */
  function Fixed(online: Registry): nat -> Registry {
    _ => online
  }

  predicate Goes(online: Registry, item: PushItem, c: Conn) {
    item.userId in online && online[item.userId] == c
  }

  /** What connection `c` has got, then what is queued for it. */
  function Due(online: Registry, outgoing: map<Conn, seq<Data>>, queue: seq<PushItem>, c: Conn): seq<Data> {
    Out(outgoing, c) + For(Fixed(online), queue, c)
  }

  predicate Acceptable(online: Registry, item: PushItem) {
    item.userId != 0 && item.data != [] && item.userId in online
  }

  /** The batch map: looks each user up once and appends its data to the group of its connection. */
  method GroupByConnection(items: seq<PushItem>, seen: nat -> Registry) returns (batches: map<Conn, seq<Data>>)
    ensures forall c :: Out(batches, c) == For(seen, items, c)
  {
    batches := map[];
    for i := 0 to |items|
      invariant forall c :: Out(batches, c) == For(seen, items[..i], c)
    {
      ghost var before := batches;
      if items[i].userId in seen(i) {
        var conn := seen(i)[items[i].userId];
        batches := batches[conn := Out(batches, conn) + [items[i].data]];
      }
      forall c ensures Out(batches, c) == For(seen, items[..i + 1], c) {
        ForNext(seen, items, i, c);
        assert Out(before, c) == For(seen, items[..i], c);
      }
    }
    assert items[..|items|] == items;
  }

  lemma ForNext(seen: nat -> Registry, items: seq<PushItem>, i: nat, c: Conn)
    requires i < |items|
    ensures For(seen, items[..i + 1], c)
            == For(seen, items[..i], c) + (if Goes(seen(i), items[i], c) then [items[i].data] else [])
  {
    assert items[..i + 1][..i] == items[..i];
  }

  class Service {
    var online: Registry
    var queue: seq<PushItem>
    var outgoing: map<Conn, seq<Data>>

    constructor (online: Registry)
      ensures this.online == online && queue == [] && outgoing == map[]
    {
      this.online, queue, outgoing := online, [], map[];
    }

    /** `seen` is the registry as the lookup finds it; another thread may change it before the item is linked. */
    method EnqueueSerialized(userId: u64, data: Data, seen: Registry) returns (ok: bool)
      modifies this`queue
      ensures ok <==> Acceptable(seen, PushItem(userId, data))
      ensures queue == old(queue) + (if ok then [PushItem(userId, data)] else [])
    {
      if userId == 0 || data == [] || userId !in seen {
        return false;
      }
      queue := queue + [PushItem(userId, data)];
      return true;
    }

    /**
    The bulk dequeue of a flush, while before its dequeue number `k` other threads link `arriving[k]`; `used`
    is how many of these it saw.  It takes from the front, up to the limit or until nothing is left.
    */
    method TakeBatch(maxCount: nat, arriving: seq<seq<PushItem>>) returns (items: seq<PushItem>, used: nat)
      modifies this`queue
      ensures used <= |arriving| && items + queue == old(queue) + Linked(arriving[..used])
      ensures |items| <= maxCount && (|items| < maxCount ==> queue == [])
    {
      items, used := [], 0;
      var more := true;
      while |items| < maxCount && more
        invariant used <= |arriving| && items + queue == old(queue) + Linked(arriving[..used])
        invariant |items| <= maxCount && (!more ==> queue == [])
        decreases more, maxCount - |items|
      {
        if used < |arriving| {
          LinkedNext(items, queue, old(queue), arriving, used);
          queue, used := queue + arriving[used], used + 1;
        }
        if queue == [] {
          more := false;
        } else {
          items, queue := items + [queue[0]], queue[1..];
        }
      }
    }

    /**
    One flush, while other threads link pushes between its dequeues and change the registry between its
    lookups.  Whatever order the map of batches is walked in, each connection gets, after what it had, its
    items of the batch in queue order.
    */
    method FlushPending(maxCount: nat, arriving: seq<seq<PushItem>>, seen: nat -> Registry)
      returns (items: seq<PushItem>, used: nat)
      modifies this`queue, this`outgoing
      ensures used <= |arriving| && items + queue == old(queue) + Linked(arriving[..used])
      ensures |items| <= maxCount && (|items| < maxCount ==> queue == [])
      ensures forall c :: Out(outgoing, c) == Out(old(outgoing), c) + For(seen, items, c)
    {
      items, used := TakeBatch(maxCount, arriving);
      var batches := GroupByConnection(items, seen);
      HandOver(batches);
    }

    method HandOver(batches: map<Conn, seq<Data>>)
      modifies this`outgoing
      ensures forall c :: Out(outgoing, c) == Out(old(outgoing), c) + Out(batches, c)
    {
      var todo := batches.Keys;
      while todo != {}
        invariant todo <= batches.Keys
        invariant forall c :: Out(outgoing, c) ==
                    Out(old(outgoing), c) + (if c in todo then [] else Out(batches, c))
      {
        var conn :| conn in todo;
        outgoing := outgoing[conn := Out(outgoing, conn) + batches[conn]];
        todo := todo - {conn};
      }
    }

    /** The destructor: flush until nothing is queued, which gives every connection what it is due. */
    method Drain()
      modifies this`queue, this`outgoing
      ensures queue == []
      ensures forall c :: Out(outgoing, c) == Due(online, old(outgoing), old(queue), c)
    {
      while queue != []
        invariant forall c :: Due(online, outgoing, queue, c) == Due(online, old(outgoing), old(queue), c)
        decreases |queue|
      {
        ghost var was, queued := outgoing, queue;
        var items, used := FlushPending(MAX_BATCH_SIZE, [], Fixed(online));
        assert queued + Linked([]) == queued;
        FlushKeepsDue(online, was, outgoing, items, queue);
      }
    }
  }

  /** Everything linked by these, in order. */
  function Linked(arriving: seq<seq<PushItem>>): seq<PushItem> {
    if arriving == [] then [] else Linked(arriving[..|arriving| - 1]) + arriving[|arriving| - 1]
  }

  lemma LinkedNext(items: seq<PushItem>, queue: seq<PushItem>, before: seq<PushItem>, arriving: seq<seq<PushItem>>, i: nat)
    requires i < |arriving| && items + queue == before + Linked(arriving[..i])
    ensures items + (queue + arriving[i]) == before + Linked(arriving[..i + 1])
  {
    assert arriving[..i + 1][..i] == arriving[..i];
    assert items + (queue + arriving[i]) == items + queue + arriving[i];
    assert before + (Linked(arriving[..i]) + arriving[i]) == before + Linked(arriving[..i]) + arriving[i];
  }

  lemma {:induction false} ForAppend(online: Registry, a: seq<PushItem>, b: seq<PushItem>, c: Conn)
    ensures For(Fixed(online), a + b, c) == For(Fixed(online), a, c) + For(Fixed(online), b, c)
    decreases |b|
  {
    if b == [] {
      assert a + b == a;
    } else {
      ForAppend(online, a, b[..|b| - 1], c);
      assert (a + b)[..|a + b| - 1] == a + b[..|b| - 1];
    }
  }

  lemma FlushKeepsDue(online: Registry, before: map<Conn, seq<Data>>, after: map<Conn, seq<Data>>,
                      items: seq<PushItem>, rest: seq<PushItem>)
    requires forall c :: Out(after, c) == Out(before, c) + For(Fixed(online), items, c)
    ensures forall c :: Due(online, after, rest, c) == Due(online, before, items + rest, c)
  {
    forall c ensures Due(online, after, rest, c) == Due(online, before, items + rest, c) {
      ForAppend(online, items, rest, c);
      Regroup(Out(before, c), For(Fixed(online), items, c), For(Fixed(online), rest, c));
    }
  }

  lemma Regroup(a: seq<Data>, b: seq<Data>, c: seq<Data>)
    ensures a + b + c == a + (b + c)
  {
  }

  // ---------------------------------------------------------------- any interleaving

  /** Where an accepted push went when its turn came: to a connection, or nowhere if the user had left. */
  datatype Route = Route(item: PushItem, to: Option<Conn>)

  function RouteOf(online: Registry, item: PushItem): Route {
    Route(item, if item.userId in online then Some(online[item.userId]) else None)
  }

  function DataTo(routes: seq<Route>, c: Conn): seq<Data> {
    if routes == [] then []
    else
      var last := routes[|routes| - 1];
      DataTo(routes[..|routes| - 1], c) + (if last.to == Some(c) then [last.item.data] else [])
  }

  /** Where the flush worker is: taking a batch, looking its users up, or handing the groups over. */
  datatype Worker = Idle | Taking(maxCount: nat) | Routing | Handing

  /**
  `linked` is every item ever linked, in order; the worker has taken the first `taken` of them, `first` before
  the current flush, and looked up as many as `routes` records.  `pending` holds producers between their
  lookup and their link.
  */
  datatype State = State(
    online: Registry,
    pending: map<nat, PushItem>,
    linked: seq<PushItem>,
    taken: nat,
    worker: Worker,
    first: nat,
    routes: seq<Route>,
    batches: map<Conn, seq<Data>>,
    outgoing: map<Conn, seq<Data>>)

  /** One atomic access: a lookup, a link, a change of the registry, a dequeue, a group handed over. */
  datatype Action =
    | LookUp(producer: nat, item: PushItem)
    | Link(producer: nat)
    | Join(userId: u64, conn: Conn)
    | Leave(userId: u64)
    | StartFlush(maxCount: nat)
    | TakeOne
    | EndTaking
    | RouteOne
    | EndRouting
    | HandOne(conn: Conn)
    | EndFlush

  function InitState(online: Registry): State {
    State(online, map[], [], 0, Idle, 0, [], map[], map[])
  }

  predicate Enabled(s: State, a: Action) {
    match a
    case LookUp(p, _) => p !in s.pending
    case Link(p) => p in s.pending
    case Join(_, _) => true
    case Leave(_) => true
    case StartFlush(_) => s.worker.Idle?
    case TakeOne => s.worker.Taking? && s.taken < s.first + s.worker.maxCount && s.taken < |s.linked|
    case EndTaking => s.worker.Taking? && (s.taken >= s.first + s.worker.maxCount || s.taken >= |s.linked|)
    case RouteOne => s.worker.Routing? && |s.routes| < s.taken && |s.routes| < |s.linked|
    case EndRouting => s.worker.Routing? && |s.routes| >= s.taken
    case HandOne(c) => s.worker.Handing? && c in s.batches
    case EndFlush => s.worker.Handing? && s.batches == map[]
  }

  function Apply(s: State, a: Action): State
    requires Enabled(s, a)
  {
    match a
    case LookUp(p, item) => if Acceptable(s.online, item) then s.(pending := s.pending[p := item]) else s
    case Link(p) => s.(linked := s.linked + [s.pending[p]], pending := s.pending - {p})
    case Join(u, c) => s.(online := s.online[u := c])
    case Leave(u) => s.(online := s.online - {u})
    case StartFlush(n) => s.(worker := Taking(n), first := s.taken)
    case TakeOne => s.(taken := s.taken + 1)
    case EndTaking => s.(worker := if s.taken > s.first then Routing else Idle)
    case RouteOne =>
      var route := RouteOf(s.online, s.linked[|s.routes|]);
      s.(routes := s.routes + [route], batches := Grouped(s.batches, route))
    case EndRouting => s.(worker := Handing)
    case HandOne(c) =>
      s.(outgoing := s.outgoing[c := Out(s.outgoing, c) + s.batches[c]], batches := s.batches - {c})
    case EndFlush => s.(worker := Idle)
  }

  function Grouped(batches: map<Conn, seq<Data>>, route: Route): map<Conn, seq<Data>> {
    if route.to.Some? then batches[route.to.value := Out(batches, route.to.value) + [route.item.data]] else batches
  }

  ghost predicate Run(states: seq<State>, actions: seq<Action>) {
    && |states| == |actions| + 1 && states[0] == InitState(states[0].online)
    && forall i :: 0 <= i < |actions| ==> StepAt(states, actions, i)
  }

  ghost predicate StepAt(states: seq<State>, actions: seq<Action>, i: nat)
    requires i < |actions| && i + 1 < |states|
  {
    Enabled(states[i], actions[i]) && states[i + 1] == Apply(states[i], actions[i])
  }

  /** Batches stay within the limit, and a group is kept only from its first lookup until it is handed over. */
  predicate Shape(s: State) {
    && s.first <= s.taken <= |s.linked| && s.first <= |s.routes| <= s.taken
    && (s.worker.Taking? ==> s.taken - s.first <= s.worker.maxCount && |s.routes| == s.first)
    && (s.worker.Idle? || s.worker.Handing? ==> |s.routes| == s.taken)
    && (s.worker.Idle? || s.worker.Taking? ==> s.batches == map[])
  }

  /** Lookups go through the linked items in order, none skipped and none twice. */
  predicate RoutesFollow(s: State) {
    |s.routes| <= |s.linked| && forall i :: 0 <= i < |s.routes| ==> s.routes[i].item == s.linked[i]
  }

  /** What a connection got, then what is grouped for it, is what was routed to it, in order. */
  ghost predicate Balanced(s: State) {
    forall c :: Out(s.outgoing, c) + Out(s.batches, c) == DataTo(s.routes, c)
  }

  ghost predicate Inv(s: State) {
    Shape(s) && RoutesFollow(s) && Balanced(s)
  }

  lemma ShapeKept(s: State, a: Action)
    requires Shape(s) && RoutesFollow(s) && Enabled(s, a)
    ensures Shape(Apply(s, a)) && RoutesFollow(Apply(s, a))
  {
  }

  lemma RouteBalances(outgoing: map<Conn, seq<Data>>, batches: map<Conn, seq<Data>>, routes: seq<Route>, route: Route, c: Conn)
    requires Out(outgoing, c) + Out(batches, c) == DataTo(routes, c)
    ensures Out(outgoing, c) + Out(Grouped(batches, route), c) == DataTo(routes + [route], c)
  {
    assert (routes + [route])[..|routes|] == routes;
    Regroup(Out(outgoing, c), Out(batches, c), [route.item.data]);
  }

  lemma BalanceKept(s: State, a: Action)
    requires Shape(s) && Balanced(s) && Enabled(s, a)
    ensures Balanced(Apply(s, a))
  {
    if a.RouteOne? {
      forall c ensures Out(s.outgoing, c) + Out(Apply(s, a).batches, c) == DataTo(Apply(s, a).routes, c) {
        assert Out(s.outgoing, c) + Out(s.batches, c) == DataTo(s.routes, c);
        RouteBalances(s.outgoing, s.batches, s.routes, RouteOf(s.online, s.linked[|s.routes|]), c);
      }
    } else if a.HandOne? {
      forall c ensures Out(Apply(s, a).outgoing, c) + Out(Apply(s, a).batches, c) == DataTo(s.routes, c) {
        assert Out(s.outgoing, c) + Out(s.batches, c) == DataTo(s.routes, c);
        if c == a.conn {
          assert Out(s.outgoing, c) + s.batches[c] + [] == Out(s.outgoing, c) + s.batches[c];
        }
      }
    } else {
      BalanceUntouched(s, a);
    }
  }

  lemma BalanceUntouched(s: State, a: Action)
    requires Enabled(s, a) && !a.RouteOne? && !a.HandOne?
    ensures Apply(s, a).outgoing == s.outgoing && Apply(s, a).batches == s.batches && Apply(s, a).routes == s.routes
  {
  }

  lemma InitInv(s: State)
    requires s == InitState(s.online)
    ensures Inv(s)
  {
  }

  /**
  In any interleaving of lookups, links, logins, logouts, dequeues and hand-overs: accepted pushes are looked up
  in the order they were linked, each once, and each connection has got, or is about to be handed, exactly what
  was routed to it, in that order.
  */
  lemma {:induction false} RunInv(states: seq<State>, actions: seq<Action>, n: nat)
    requires Run(states, actions) && n < |states|
    ensures Inv(states[n])
  {
    hide Balanced, Shape, RoutesFollow;
    if n == 0 {
      InitInv(states[0]);
    } else {
      RunInv(states, actions, n - 1);
      assert StepAt(states, actions, n - 1);
      ShapeKept(states[n - 1], actions[n - 1]);
      BalanceKept(states[n - 1], actions[n - 1]);
    }
  }

  /** Between flushes every connection has exactly what was routed to it, and only untaken items wait. */
  lemma NothingHeldBack(states: seq<State>, actions: seq<Action>, n: nat, c: Conn)
    requires Run(states, actions) && n < |states| && states[n].worker.Idle?
    ensures Out(states[n].outgoing, c) == DataTo(states[n].routes, c) && |states[n].routes| == states[n].taken
  {
    RunInv(states, actions, n);
    assert Out(states[n].outgoing, c) + Out(states[n].batches, c) == DataTo(states[n].routes, c);
  }

  /** A push reaches a connection if and only if its user is online when it is looked up, and then that one. */
  lemma {:induction false} ReachesIffOnline(states: seq<State>, actions: seq<Action>, n: nat, i: nat) returns (k: nat)
    requires Run(states, actions) && n < |states| && i < |states[n].routes|
    ensures k < n && |states[k].routes| == i && i < |states[k].linked|
    ensures states[n].routes[i] == RouteOf(states[k].online, states[k].linked[i])
  {
    hide Apply, Enabled, RouteOf;
    assert n > 0;
    assert StepAt(states, actions, n - 1);
    RoutesGrow(states[n - 1], actions[n - 1]);
    if i < |states[n - 1].routes| {
      k := ReachesIffOnline(states, actions, n - 1, i);
    } else {
      k := n - 1;
    }
  }

  /** A step adds at most one route, that of the next item by the registry at that moment. */
  lemma RoutesGrow(s: State, a: Action)
    requires Enabled(s, a)
    ensures var routes := Apply(s, a).routes;
            routes == s.routes || (|s.routes| < |s.linked| && routes == s.routes + [RouteOf(s.online, s.linked[|s.routes|])])
  {
  }

  /** A user who stays on a connection gets every push looked up so far there; none is dropped. */
  lemma StayingUserGetsAll(states: seq<State>, actions: seq<Action>, n: nat, i: nat, c: Conn)
    requires Run(states, actions) && n < |states| && i < |states[n].routes|
    requires forall k :: 0 <= k < n ==> Goes(states[k].online, states[n].routes[i].item, c)
    ensures states[n].routes[i].to == Some(c)
  {
    var k := ReachesIffOnline(states, actions, n, i);
    assert Goes(states[k].online, states[n].routes[i].item, c);
  }

  /** A push accepted for an online user who then leaves goes nowhere. */
  lemma LeaverMissesPush(online: Registry, item: PushItem) returns (states: seq<State>, actions: seq<Action>)
    requires Acceptable(online, item)
    ensures Run(states, actions)
    ensures states[|actions|].routes == [Route(item, None)] && states[|actions|].outgoing == map[]
  {
    var s0 := InitState(online);
    var s1 := s0.(pending := map[0 := item]);
    var s2 := s0.(linked := [item]);
    var s3 := s2.(online := online - {item.userId});
    var s4 := s3.(worker := Taking(9));
    var s5 := s4.(taken := 1);
    var s6 := s5.(worker := Routing);
    var s7 := s6.(routes := [Route(item, None)]);
    states, actions := [s0], [];
    states, actions := Extend(states, actions, LookUp(0, item), s1);
    states, actions := Extend(states, actions, Link(0), s2);
    states, actions := Extend(states, actions, Leave(item.userId), s3);
    states, actions := Extend(states, actions, StartFlush(9), s4);
    states, actions := Extend(states, actions, TakeOne, s5);
    states, actions := Extend(states, actions, EndTaking, s6);
    states, actions := Extend(states, actions, RouteOne, s7);
  }

  lemma Extend(states: seq<State>, actions: seq<Action>, a: Action, s': State)
    returns (states': seq<State>, actions': seq<Action>)
    requires Run(states, actions) && Enabled(states[|actions|], a) && s' == Apply(states[|actions|], a)
    ensures Run(states', actions') && |actions'| == |actions| + 1 && states'[|actions'|] == s'
  {
    states', actions' := states + [s'], actions + [a];
    forall i | 0 <= i < |actions'| ensures StepAt(states', actions', i) {
      if i < |actions| {
        assert StepAt(states, actions, i);
      }
    }
  }
}
