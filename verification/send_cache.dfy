/**
The send protocol over the sharded cache itself: server calls make the accesses of DedupCache and react to
their results.  Every joint run is a run of SendProtocol, where an access is an eviction followed by the step
of the call.  On top of it the promise in time: retransmissions that arrive before the entry expires, in a
shard that is never overfull, make one message.
*/
module SendCache {
  import opened Wrappers
  import opened Messages
  import D = DedupCache
  import P = SendProtocol

  /**
  `shards` is the cache; the cache of `p` is what it amounts to.  `clock` is the time of the last access and
  `expiry` the last expiry each key was given; nothing reads them.
  */
  datatype State = State(p: P.State, shards: seq<D.Shard>, clock: int, expiry: map<D.Key, int>)

  datatype Action = Plain(a: P.Action) | Access(a: P.Action, access: D.Access)

  /** The access behind a step, if any: calls without a client message id make none. */
  function OpOf(p: P.State, a: P.Action): Option<D.Op> {
    match a
    case Reserve(c, _) =>
      if c < |p.calls| && p.calls[c].req.clientMsgId != 0 && p.calls[c].id != 0
      then Some(D.ReserveOp(P.KeyOf(p.calls[c].req), p.calls[c].id, p.calls[c].req.receiverId, RECEIVED)) else None
    case Finish(c, _) =>
      if c < |p.calls| && p.calls[c].req.clientMsgId != 0 && p.calls[c].id != 0
      then Some(D.UpdateOp(P.KeyOf(p.calls[c].req), p.calls[c].id, StatusAt(p.calls[c]))) else None
    case Persisted(c, _) =>
      if c < |p.calls| && p.calls[c].req.clientMsgId != 0 && p.calls[c].id != 0
      then Some(D.UpdateOp(P.KeyOf(p.calls[c].req), p.calls[c].id, PERSISTED)) else None
    case _ => None
  }

  function StatusAt(call: P.Call): AckStatus {
    if call.pc.Pushed? && call.pc.delivered then ENQUEUED else RECEIVED
  }

  /** The step is due. */
  predicate Ready(p: P.State, a: P.Action) {
    match a
    case Reserve(c, _) => c < |p.calls| && p.calls[c].pc.Accepted?
    case Finish(c, _) => c < |p.calls| && p.calls[c].pc.Pushed?
    case Persisted(c, _) => c < |p.calls| && c in p.written
    case _ => false
  }

  function NowOf(a: P.Action): int {
    if a.Reserve? || a.Finish? || a.Persisted? then a.now else 0
  }

  /** What a call does with the answer of Reserve. */
  function CallAfter(call: P.Call, result: D.ReserveResult): P.Call {
    match result.state
    case Reserved => call.(won := true, pc := P.Admitted)
    case Duplicate => call.(pc := P.Done(P.DedupAck(result.entry)))
    case Conflict => call.(pc := P.Done(P.FAILURE))
  }

  function React(p: P.State, a: P.Action, result: Option<D.ReserveResult>, cache: map<D.Key, D.CacheValue>): P.State
    requires Ready(p, a) && (a.Reserve? ==> result.Some?)
  {
    match a
    case Reserve(c, _) =>
      var call := CallAfter(p.calls[c], result.value);
      var key := P.KeyOf(call.req);
      p.(cache := cache, calls := p.calls[c := call],
         winners := if call.won then p.winners[key := P.Winners(p, key) + [c]] else p.winners)
    case Finish(c, _) =>
      var call := p.calls[c];
      p.(cache := cache,
         calls := p.calls[c := call.(pc := P.Done(P.Ack(call.id, true, StatusAt(call), call.req.receiverId)))])
    case _ => p.(cache := cache)
  }

  /** The keys an access evicts. */
  function Gone(cfg: D.Config, shards: seq<D.Shard>, a: D.Access): set<D.Key>
    requires |shards| == cfg.shardCount > 0
  {
    D.Home(cfg, shards, a.op.key).entries.Keys - a.mid.entries.Keys
  }

  function Evicted(p: P.State, gone: set<D.Key>): P.State {
    p.(cache := p.cache - gone, evictions := P.CountEvictions(p, gone))
  }

  ghost predicate Next(s: State, action: Action, cfg: D.Config, s': State) {
    match action
    case Plain(a) =>
      && OpOf(s.p, a).None? && !a.Evict? && P.Next(s.p, a, cfg.ttl, s'.p)
      && s' == s.(p := s'.p)
    case Access(a, access) =>
      && Ready(s.p, a) && OpOf(s.p, a) == Some(access.op) && access.now == NowOf(a)
      && D.Accessed(cfg, s.shards, access, s'.shards) && (a.Reserve? ==> access.result.Some?)
      && s'.p == React(Evicted(s.p, Gone(cfg, s.shards, access)), a, access.result, D.Merged(cfg.hash, s'.shards))
      && s'.clock == access.now
      && s'.expiry == ExpiryAfter(s.expiry, access.op.key, D.Merged(cfg.hash, s'.shards))
  }

  function ExpiryAfter(expiry: map<D.Key, int>, key: D.Key, cache: map<D.Key, D.CacheValue>): map<D.Key, int> {
    if key in cache then expiry[key := cache[key].expiresAt] else expiry
  }

  ghost predicate Run(cfg: D.Config, states: seq<State>, actions: seq<Action>) {
    && |states| == |actions| + 1 && cfg.shardCount > 0
    && states[0] == State(P.Init(), seq(cfg.shardCount, _ => D.Shard(map[], 0)), 0, map[])
    && forall n :: 0 <= n < |actions| ==> StepAt(cfg, states, actions, n)
  }

  ghost predicate StepAt(cfg: D.Config, states: seq<State>, actions: seq<Action>, n: nat)
    requires n < |actions| && n + 1 < |states|
  {
    Next(states[n], actions[n], cfg, states[n + 1])
  }

  // ---------------------------------------------------------------- the two sides agree

  ghost predicate Agree(cfg: D.Config, s: State) {
    && |s.shards| == cfg.shardCount > 0 && D.Placed(cfg.hash, s.shards)
    && s.p.cache == D.Merged(cfg.hash, s.shards)
  }

  lemma AccessAgrees(cfg: D.Config, shards: seq<D.Shard>, a: D.Access, shards': seq<D.Shard>)
    requires |shards| == cfg.shardCount > 0 && D.Placed(cfg.hash, shards) && D.Accessed(cfg, shards, a, shards')
    ensures D.Placed(cfg.hash, shards')
    ensures D.Apply(D.Merged(cfg.hash, shards) - Gone(cfg, shards, a), a.op, a.now, cfg.ttl)
            == (D.Merged(cfg.hash, shards'), a.result)
    ensures forall k <- Gone(cfg, shards, a) ::
              D.Home(cfg, shards, a.op.key).entries[k].expiresAt <= a.now
              || D.Overfull(D.Home(cfg, shards, a.op.key), a.now, cfg.max)
  {
    D.StepKeepsPlaces(cfg.hash, shards, a.op, a.now, cfg.ttl, cfg.max, shards', a.result);
    D.AccessIsOneMap(cfg.hash, shards, a.op, a.now, cfg.ttl, cfg.max, a.mid, shards', a.result);
  }

  /** The reaction to an access of one map is the protocol's own step. */
  lemma ReactIsStep(p: P.State, a: P.Action, ttl: int, op: D.Op, cache: map<D.Key, D.CacheValue>,
                    result: Option<D.ReserveResult>)
    requires Ready(p, a) && OpOf(p, a) == Some(op) && (a.Reserve? ==> result.Some?)
    requires D.Apply(p.cache, op, NowOf(a), ttl) == (cache, result) && NotWonYet(p, a)
    ensures P.Next(p, a, ttl, React(p, a, result, cache))
  {
    match a
    case Reserve(c, now) => assert P.ReserveCall(p, c, now, ttl) == React(p, a, result, cache);
    case Finish(c, now) => assert P.CallStep(p, a, ttl, React(p, a, result, cache));
    case Persisted(c, now) => assert P.CacheStep(p, a, ttl, React(p, a, result, cache));
  }

  predicate NotWonYet(p: P.State, a: P.Action) {
    a.Reserve? && a.c < |p.calls| ==> !p.calls[a.c].won
  }

  lemma ReservingHasNotWon(p: P.State, a: P.Action)
    requires P.ServerOk(p) && (a.Reserve? && a.c < |p.calls| ==> p.calls[a.c].pc.Accepted?)
    ensures NotWonYet(p, a)
  {
    if a.Reserve? && a.c < |p.calls| {
      assert P.CallOk(p, a.c);
    }
  }

  lemma EvictedIsStep(p: P.State, gone: set<D.Key>, ttl: int)
    ensures P.Next(p, P.Evict(gone), ttl, Evicted(p, gone))
  {
    assert P.CacheStep(p, P.Evict(gone), ttl, Evicted(p, gone));
  }

  /** An access is an eviction and then the step of the call. */
  lemma AccessIsTwoSteps(cfg: D.Config, s: State, a: P.Action, access: D.Access, s': State)
    requires Agree(cfg, s) && NotWonYet(s.p, a) && Next(s, Access(a, access), cfg, s')
    ensures Agree(cfg, s')
    ensures var mid := Evicted(s.p, Gone(cfg, s.shards, access));
            P.Next(s.p, P.Evict(Gone(cfg, s.shards, access)), cfg.ttl, mid) && P.Next(mid, a, cfg.ttl, s'.p)
  {
    hide P.Next, D.Apply, D.Merged, P.CountEvictions;
    var gone := Gone(cfg, s.shards, access);
    AccessAgrees(cfg, s.shards, access, s'.shards);
    EvictedIsStep(s.p, gone, cfg.ttl);
    ReactIsStep(Evicted(s.p, gone), a, cfg.ttl, access.op, D.Merged(cfg.hash, s'.shards), access.result);
  }

  /** Steps without an access leave the cache alone. */
  lemma PlainAgrees(cfg: D.Config, s: State, a: P.Action, s': State)
    requires Agree(cfg, s) && Next(s, Plain(a), cfg, s')
    ensures Agree(cfg, s') && s'.p.cache == s.p.cache
  {
  }

  /** Every joint run is a run of the protocol that ends in the same state. */
  lemma {:induction false} RunIsProtocolRun(cfg: D.Config, states: seq<State>, actions: seq<Action>, n: nat)
    returns (ps: seq<P.State>, pas: seq<P.Action>)
    requires Run(cfg, states, actions) && n < |states|
    ensures Agree(cfg, states[n])
    ensures P.Run(ps, pas, cfg.ttl) && ps[|pas|] == states[n].p
  {
    hide P.Next, P.ServerOk, Agree;
    if n == 0 {
      InitAgrees(cfg, states[0]);
      P.InitRun(cfg.ttl);
      ps, pas := [P.Init()], [];
    } else {
      ps, pas := RunIsProtocolRun(cfg, states, actions, n - 1);
      var s, s' := states[n - 1], states[n];
      assert StepAt(cfg, states, actions, n - 1);
      P.RunServer(ps, pas, cfg.ttl, |pas|);
      match actions[n - 1]
      case Plain(a) =>
        PlainAgrees(cfg, s, a, s');
        P.Extend(ps, pas, cfg.ttl, a, s'.p);
        ps, pas := ps + [s'.p], pas + [a];
      case Access(a, access) =>
        ReservingHasNotWon(s.p, a);
        AccessIsTwoSteps(cfg, s, a, access, s');
        ps, pas := ExtendTwice(ps, pas, cfg.ttl, P.Evict(Gone(cfg, s.shards, access)),
                               Evicted(s.p, Gone(cfg, s.shards, access)), a, s'.p);
    }
  }

  lemma InitAgrees(cfg: D.Config, s: State)
    requires cfg.shardCount > 0 && s == State(P.Init(), seq(cfg.shardCount, _ => D.Shard(map[], 0)), 0, map[])
    ensures Agree(cfg, s)
  {
  }

  lemma ExtendTwice(ps: seq<P.State>, pas: seq<P.Action>, ttl: int, a: P.Action, mid: P.State, b: P.Action, p': P.State)
    returns (ps': seq<P.State>, pas': seq<P.Action>)
    requires P.Run(ps, pas, ttl) && P.Next(ps[|pas|], a, ttl, mid) && P.Next(mid, b, ttl, p')
    ensures P.Run(ps', pas', ttl) && ps'[|pas'|] == p'
  {
    P.Extend(ps, pas, ttl, a, mid);
    P.Extend(ps + [mid], pas + [a], ttl, b, p');
    ps', pas' := ps + [mid] + [p'], pas + [a] + [b];
  }

  // ---------------------------------------------------------------- in time

  /**
  What time has to do for a key in one step: the clock does not go back, a Reserve of the key comes before the
  last expiry it was given, and the shard of the key is not overfull when it is accessed.
  */
  predicate InTime(cfg: D.Config, s: State, action: Action, k: D.Key)
    requires |s.shards| == cfg.shardCount > 0
  {
    action.Access? ==>
      && s.clock <= action.access.now
      && (action.access.op.ReserveOp? && action.access.op.key == k && k in s.expiry ==> action.access.now < s.expiry[k])
      && (SameShard(cfg, action.access.op.key, k) ==> !D.Overfull(D.Home(cfg, s.shards, k), action.access.now, cfg.max))
  }

  predicate SameShard(cfg: D.Config, a: D.Key, b: D.Key)
    requires cfg.shardCount > 0
  {
    D.ShardIndex(cfg.hash, a, cfg.shardCount) == D.ShardIndex(cfg.hash, b, cfg.shardCount)
  }

  /** The key was never reserved, or once; then it is cached until its expiry, or its expiry has passed. */
  predicate AtMostOne(winners: seq<nat>, cache: map<D.Key, D.CacheValue>, expiry: map<D.Key, int>, clock: int, k: D.Key) {
    if winners == [] then k !in cache && k !in expiry
    else
      && |winners| == 1 && k in expiry
      && if k in cache then cache[k].expiresAt == expiry[k] else expiry[k] <= clock
  }

  predicate OneReservation(s: State, k: D.Key) {
    AtMostOne(P.Winners(s.p, k), s.p.cache, s.expiry, s.clock, k)
  }

  lemma PlainKeepsOne(cfg: D.Config, s: State, a: P.Action, s': State, k: D.Key)
    requires Agree(cfg, s) && NotWonYet(s.p, a) && Next(s, Plain(a), cfg, s') && OneReservation(s, k)
    ensures OneReservation(s', k)
  {
    PlainAgrees(cfg, s, a, s');
    PlainWinners(s.p, a, cfg.ttl, s'.p, k);
  }

  lemma PlainWinners(p: P.State, a: P.Action, ttl: int, p': P.State, k: D.Key)
    requires NotWonYet(p, a) && P.Next(p, a, ttl, p') && OpOf(p, a).None?
    ensures P.Winners(p', k) == P.Winners(p, k)
  {
    hide D.Apply, P.CountEvictions;
  }

  /** A key of the shard is evicted only after its expiry. */
  lemma GoneIsExpired(cfg: D.Config, s: State, a: D.Access, s': State, k: D.Key)
    requires Agree(cfg, s) && D.Accessed(cfg, s.shards, a, s'.shards) && k in Gone(cfg, s.shards, a)
    requires SameShard(cfg, a.op.key, k) ==> !D.Overfull(D.Home(cfg, s.shards, k), a.now, cfg.max)
    ensures k in s.p.cache && s.p.cache[k].expiresAt <= a.now
  {
    AccessAgrees(cfg, s.shards, a, s'.shards);
    assert k in D.Home(cfg, s.shards, a.op.key).entries;
    D.MergedAt(cfg.hash, s.shards, k);
  }

  /** One access of one map in time keeps a key at one reservation. */
  lemma ApplyKeepsOne(w: seq<nat>, w': seq<nat>, cache: map<D.Key, D.CacheValue>, gone: set<D.Key>, op: D.Op, now: int,
                      ttl: int, clock: int, expiry: map<D.Key, int>, k: D.Key)
    requires AtMostOne(w, cache, expiry, clock, k) && clock <= now
    requires k in gone ==> k in cache && cache[k].expiresAt <= now
    requires op.ReserveOp? && op.key == k && k in expiry ==> now < expiry[k]
    requires var (_, result) := D.Apply(cache - gone, op, now, ttl);
             var wins := op.ReserveOp? && op.key == k && result.Some? && result.value.state == D.Reserved;
             |w'| == |w| + (if wins then 1 else 0) && (!wins ==> w' == w)
    ensures var cache' := D.Apply(cache - gone, op, now, ttl).0;
            AtMostOne(w', cache', ExpiryAfter(expiry, op.key, cache'), now, k)
  {
  }

  lemma AccessKeepsOne(cfg: D.Config, s: State, a: P.Action, access: D.Access, s': State, k: D.Key)
    requires Agree(cfg, s) && NotWonYet(s.p, a) && Next(s, Access(a, access), cfg, s')
    requires OneReservation(s, k) && InTime(cfg, s, Access(a, access), k)
    ensures OneReservation(s', k)
  {
    hide D.Apply, D.Merged, P.CountEvictions, AtMostOne;
    var gone := Gone(cfg, s.shards, access);
    AccessAgrees(cfg, s.shards, access, s'.shards);
    if k in gone {
      GoneIsExpired(cfg, s, access, s', k);
    }
    ReactWinners(Evicted(s.p, gone), a, access.op, access.result, D.Merged(cfg.hash, s'.shards), k);
    assert P.Winners(Evicted(s.p, gone), k) == P.Winners(s.p, k);
    ApplyKeepsOne(P.Winners(s.p, k), P.Winners(s'.p, k), s.p.cache, gone, access.op, access.now, cfg.ttl, s.clock, s.expiry, k);
  }

  /** Only a reservation makes a winner, and only of its own key. */
  lemma ReactWinners(p: P.State, a: P.Action, op: D.Op, result: Option<D.ReserveResult>, cache: map<D.Key, D.CacheValue>,
                     k: D.Key)
    requires Ready(p, a) && OpOf(p, a) == Some(op) && (a.Reserve? ==> result.Some? && !p.calls[a.c].won)
    ensures P.Winners(React(p, a, result, cache), k)
            == if op.ReserveOp? && op.key == k && result.value.state == D.Reserved
               then P.Winners(p, k) + [a.c] else P.Winners(p, k)
  {
  }

  lemma {:induction false} RunKeepsOne(cfg: D.Config, states: seq<State>, actions: seq<Action>, n: nat, k: D.Key)
    requires Run(cfg, states, actions) && n < |states|
    requires forall i :: 0 <= i < n ==> |states[i].shards| == cfg.shardCount && InTime(cfg, states[i], actions[i], k)
    ensures OneReservation(states[n], k)
  {
    if n > 0 {
      RunKeepsOne(cfg, states, actions, n - 1, k);
      var ps, pas := RunIsProtocolRun(cfg, states, actions, n - 1);
      P.RunServer(ps, pas, cfg.ttl, |pas|);
      assert StepAt(cfg, states, actions, n - 1);
      match actions[n - 1]
      case Plain(a) =>
        ReservingHasNotWon(states[n - 1].p, a);
        PlainKeepsOne(cfg, states[n - 1], a, states[n], k);
      case Access(a, access) =>
        ReservingHasNotWon(states[n - 1].p, a);
        AccessKeepsOne(cfg, states[n - 1], a, access, states[n], k);
    }
  }

  /**
  The promise in time.  If the clock does not go back, every delivery of a request reaches the cache before
  its entry expires, and its shard is never overfull, then its client message id makes at most one message
  for persistence and one for push, however often the request is delivered.
  */
  lemma TimelyRetriesMakeOneMessage(cfg: D.Config, states: seq<State>, actions: seq<Action>, n: nat, k: D.Key)
    requires Run(cfg, states, actions) && n < |states|
    requires forall i :: 0 <= i < n ==> |states[i].shards| == cfg.shardCount && InTime(cfg, states[i], actions[i], k)
    ensures |P.ForKey(states[n].p, states[n].p.written, k)| <= 1 && |P.ForKey(states[n].p, states[n].p.pushed, k)| <= 1
  {
    RunKeepsOne(cfg, states, actions, n, k);
    var ps, pas := RunIsProtocolRun(cfg, states, actions, n);
    P.MessagesPerKey(ps, pas, cfg.ttl, |pas|, k);
  }
}
