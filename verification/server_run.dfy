/**
The send protocol and the persister put together: what a server call hands to the writer is what the writer
links, the persist callback is the protocol's, and a user can fetch only what the tables hold.  Every joint
run is a run of SendProtocol and one of AsyncWriter, side by side.
*/
module ServerRun {
  import opened Messages
  import P = SendProtocol
  import T = Tables
  import W = AsyncWriter

  datatype State = State(p: P.State, w: W.State)

  /** A server call is the producer of its own message, under the number of the call. */
  datatype Action =
    | Protocol(a: P.Action)
    | Count(c: nat)
    | Link(c: nat)
    | Worker(action: W.Action)
    | CallBack(now: int)
    | Fetch(user: u64, c: nat)

  const INIT := State(P.Init(), W.INIT)

  function ItemOf(p: P.State, c: nat): W.Item
    requires c < |p.calls|
  {
    W.Item(P.MessageOf(p.calls[c]), true)
  }

  /** The steps of the protocol that do not touch the writer. */
  predicate Apart(a: P.Action) {
    !a.Write? && !a.Persisted? && !a.SyncArrives?
  }

  predicate WorkerOnly(a: W.Action) {
    !a.Count? && !a.Link? && !a.CallBack?
  }

  ghost predicate Next(s: State, action: Action, ttl: int, s': State) {
    match action
    case Protocol(a) => Apart(a) && P.Next(s.p, a, ttl, s'.p) && s'.w == s.w
    case Count(c) =>
      && c < |s.p.calls| && s.p.calls[c].pc.Admitted? && c !in s.w.counted
      && s' == s.(w := W.Apply(s.w, W.Count(c, ItemOf(s.p, c))))
    case Link(c) =>
      && c in s.w.counted && P.Next(s.p, P.Write(c), ttl, s'.p)
      && s'.w == W.Apply(s.w, W.Link(c))
    case Worker(a) => WorkerOnly(a) && W.Enabled(s.w, a) && s' == s.(w := W.Apply(s.w, a))
    case CallBack(now) =>
      && W.Enabled(s.w, W.CallBack) && s'.w == W.Apply(s.w, W.CallBack)
      && if s.w.pc.success && s.w.pc.next < |s.p.written|
         then P.Next(s.p, P.Persisted(s.p.written[s.w.pc.next], now), ttl, s'.p) else s'.p == s.p
    case Fetch(user, c) =>
      && c < |s.p.calls| && T.Stored(s.w.tables, P.MessageOf(s.p.calls[c]))
      && P.Next(s.p, P.SyncArrives(user, c), ttl, s'.p) && s'.w == s.w
  }

  ghost predicate Run(states: seq<State>, actions: seq<Action>, ttl: int) {
    && |states| == |actions| + 1 && states[0] == INIT
    && forall n :: 0 <= n < |actions| ==> StepAt(states, actions, ttl, n)
  }

  ghost predicate StepAt(states: seq<State>, actions: seq<Action>, ttl: int, n: nat)
    requires n < |actions| && n + 1 < |states|
  {
    Next(states[n], actions[n], ttl, states[n + 1])
  }

  // ---------------------------------------------------------------- the two sides agree

  /** What the writer linked is what the calls wrote, in order. */
  ghost predicate SameMessages(p: P.State, linked: seq<W.Item>) {
    && |linked| == |p.written|
    && forall i :: 0 <= i < |linked| ==> p.written[i] < |p.calls| && linked[i] == ItemOf(p, p.written[i])
  }

  /** A call that has counted and not linked is still to write its message. */
  ghost predicate CountedWaits(p: P.State, counted: map<nat, W.Item>) {
    forall c <- counted :: c < |p.calls| && p.calls[c].pc.Admitted? && counted[c] == ItemOf(p, c)
  }

  ghost predicate Agree(s: State) {
    SameMessages(s.p, s.w.linked) && CountedWaits(s.p, s.w.counted)
  }

  /** Protocol steps other than writing keep ids, requests, what was written, and calls that wait to write. */
  lemma ApartKeeps(p: P.State, a: P.Action, ttl: int, p': P.State)
    requires P.ServerOk(p) && P.Next(p, a, ttl, p') && !a.Write?
    ensures P.SourcesStay(p, p') && p'.written == p.written
    ensures forall c :: 0 <= c < |p.calls| && p.calls[c].pc.Admitted? ==> p'.calls[c].pc.Admitted?
  {
    P.NextSources(p, a, ttl, p');
  }

  lemma ApartAgrees(p: P.State, a: P.Action, ttl: int, p': P.State, linked: seq<W.Item>, counted: map<nat, W.Item>)
    requires P.ServerOk(p) && P.Next(p, a, ttl, p') && !a.Write?
    requires SameMessages(p, linked) && CountedWaits(p, counted)
    ensures SameMessages(p', linked) && CountedWaits(p', counted)
  {
    ApartKeeps(p, a, ttl, p');
  }

  lemma LinkAgrees(s: State, c: nat, ttl: int, s': State)
    requires P.ServerOk(s.p) && Agree(s) && Next(s, Link(c), ttl, s')
    ensures Agree(s')
  {
    P.NextSources(s.p, P.Write(c), ttl, s'.p);
    assert s'.p.written == s.p.written + [c];
  }

  /** The step of each side behind a joint step, if it takes one. */
  datatype Moves = Moves(p: seq<P.Action>, w: seq<W.Action>)

  function MovesOf(s: State, action: Action): Moves {
    match action
    case Protocol(a) => Moves([a], [])
    case Count(c) => Moves([], if c < |s.p.calls| then [W.Count(c, ItemOf(s.p, c))] else [])
    case Link(c) => Moves([P.Write(c)], [W.Link(c)])
    case Worker(a) => Moves([], [a])
    case CallBack(now) =>
      Moves(if s.w.pc.Notify? && s.w.pc.success && s.w.pc.next < |s.p.written|
            then [P.Persisted(s.p.written[s.w.pc.next], now)] else [],
            [W.CallBack])
    case Fetch(user, c) => Moves([P.SyncArrives(user, c)], [])
  }

  ghost predicate MovedP(p: P.State, moves: seq<P.Action>, ttl: int, p': P.State) {
    if moves == [] then p' == p else |moves| == 1 && P.Next(p, moves[0], ttl, p')
  }

  ghost predicate MovedW(w: W.State, moves: seq<W.Action>, w': W.State) {
    if moves == [] then w' == w else |moves| == 1 && W.Enabled(w, moves[0]) && w' == W.Apply(w, moves[0])
  }

  lemma StepMoves(s: State, action: Action, ttl: int, s': State)
    requires Next(s, action, ttl, s')
    ensures MovedP(s.p, MovesOf(s, action).p, ttl, s'.p) && MovedW(s.w, MovesOf(s, action).w, s'.w)
  {
  }

  lemma StepAgrees(s: State, action: Action, ttl: int, s': State)
    requires P.ServerOk(s.p) && W.Shape(s.w) && Agree(s) && Next(s, action, ttl, s')
    ensures Agree(s')
  {
    match action
    case Protocol(a) => ApartAgrees(s.p, a, ttl, s'.p, s.w.linked, s.w.counted);
    case Count(c) =>
    case Link(c) => LinkAgrees(s, c, ttl, s');
    case Worker(a) => W.Untouched(s.w, a);
    case CallBack(now) =>
      W.Untouched(s.w, W.CallBack);
      if s.w.pc.success && s.w.pc.next < |s.p.written| {
        ApartAgrees(s.p, P.Persisted(s.p.written[s.w.pc.next], now), ttl, s'.p, s.w.linked, s.w.counted);
      }
    case Fetch(user, c) => ApartAgrees(s.p, P.SyncArrives(user, c), ttl, s'.p, s.w.linked, s.w.counted);
  }

  lemma ExtendP(ps: seq<P.State>, pas: seq<P.Action>, moves: seq<P.Action>, ttl: int, p': P.State)
    returns (ps': seq<P.State>, pas': seq<P.Action>)
    requires P.Run(ps, pas, ttl) && MovedP(ps[|pas|], moves, ttl, p')
    ensures P.Run(ps', pas', ttl) && ps'[|pas'|] == p'
  {
    if moves == [] {
      ps', pas' := ps, pas;
    } else {
      P.Extend(ps, pas, ttl, moves[0], p');
      ps', pas' := ps + [p'], pas + [moves[0]];
    }
  }

  lemma ExtendW(ws: seq<W.State>, was: seq<W.Action>, moves: seq<W.Action>, w': W.State)
    returns (ws': seq<W.State>, was': seq<W.Action>)
    requires W.Run(ws, was) && MovedW(ws[|was|], moves, w')
    ensures W.Run(ws', was') && ws'[|was'|] == w'
  {
    if moves == [] {
      ws', was' := ws, was;
    } else {
      W.Extend(ws, was, moves[0], w');
      ws', was' := ws + [w'], was + [moves[0]];
    }
  }

  lemma InitBoth(ttl: int)
    ensures P.Run([P.Init()], [], ttl) && W.Run([W.INIT], []) && Agree(INIT)
  {
  }

  /** Every joint run is a run of each side, ending in the same states, and the two sides agree throughout. */
  lemma {:induction false} RunIsBoth(states: seq<State>, actions: seq<Action>, ttl: int, n: nat)
    returns (ps: seq<P.State>, pas: seq<P.Action>, ws: seq<W.State>, was: seq<W.Action>)
    requires Run(states, actions, ttl) && n < |states|
    ensures P.Run(ps, pas, ttl) && ps[|pas|] == states[n].p
    ensures W.Run(ws, was) && ws[|was|] == states[n].w
    ensures Agree(states[n])
  {
    hide P.Next, P.ServerOk, W.Apply, W.Enabled, W.Shape, Agree, Next, MovesOf, MovedP, MovedW;
    if n == 0 {
      InitBoth(ttl);
      ps, pas, ws, was := [P.Init()], [], [W.INIT], [];
    } else {
      ps, pas, ws, was := RunIsBoth(states, actions, ttl, n - 1);
      var s, s' := states[n - 1], states[n];
      assert StepAt(states, actions, ttl, n - 1);
      P.RunServer(ps, pas, ttl, |pas|);
      W.RunShape(ws, was, |was|);
      StepAgrees(s, actions[n - 1], ttl, s');
      StepMoves(s, actions[n - 1], ttl, s');
      ps, pas := ExtendP(ps, pas, MovesOf(s, actions[n - 1]).p, ttl, s'.p);
      ws, was := ExtendW(ws, was, MovesOf(s, actions[n - 1]).w, s'.w);
    }
  }

  // ---------------------------------------------------------------- what follows

  /** Message ids are those of calls, so no two messages the writer gets clash. */
  lemma IdsDoNotClash(p: P.State, linked: seq<W.Item>)
    requires P.ServerOk(p) && P.NoRepeats(p.written) && SameMessages(p, linked)
    ensures T.NoClash(W.Payloads(linked))
  {
    var ms := W.Payloads(linked);
    forall i, j | 0 <= i < j < |ms| ensures !T.Clash(ms[i], ms[j]) {
      assert p.written[i] != p.written[j];
      assert ms[i].msgId == p.calls[p.written[i]].id && ms[j].msgId == p.calls[p.written[j]].id;
    }
  }

  /** In any joint run, a message whose persist callback was told success is in all three places. */
  lemma ReportedIsStored(states: seq<State>, actions: seq<Action>, ttl: int, n: nat, c: nat) returns (call: nat)
    requires Run(states, actions, ttl) && n < |states|
    requires c < |states[n].w.calls| && states[n].w.calls[c].success
    ensures P.Inv(states[n].p) && call < |states[n].p.calls| && call in states[n].p.written
    ensures states[n].w.calls[c].msg == P.MessageOf(states[n].p.calls[call])
    ensures T.Stored(states[n].w.tables, states[n].w.calls[c].msg)
  {
    var ps, pas, ws, was := RunIsBoth(states, actions, ttl, n);
    P.RunInv(ps, pas, ttl, |pas|);
    IdsDoNotClash(states[n].p, states[n].w.linked);
    W.SuccessMeansStored(ws, was, |was|);
    call := WriterOf(states[n], c, W.Payloads(states[n].w.linked));
  }

  lemma WriterOf(s: State, c: nat, ms: seq<P2PMessage>) returns (call: nat)
    requires SameMessages(s.p, s.w.linked) && ms == W.Payloads(s.w.linked)
    requires c < |s.w.calls| && s.w.calls[c].msg in ms
    ensures call < |s.p.calls| && call in s.p.written && s.w.calls[c].msg == P.MessageOf(s.p.calls[call])
  {
    var i :| 0 <= i < |ms| && ms[i] == s.w.calls[c].msg;
    call := s.p.written[i];
  }
}
