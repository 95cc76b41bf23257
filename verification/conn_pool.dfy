/**
The MySQL connection pool of server/src/pool/sqlconnpool.cpp: a queue under a mutex, and a semaphore that
counts what may be taken.  A step is one atomic operation of one thread: the unlocked emptiness test, the
semaphore wait, the locked pop, the locked push, the post, the unlock.
*/
module ConnPool {
  import opened Wrappers

  type Conn = nat
  type Thread = nat

  /** The lock as FreeConn holds it: after its push, and after its post. */
  datatype Lock = Open | Pushed | Posted

  /**
  `waiting` threads have passed the emptiness test, `permitted` ones also the semaphore; `held` says who
  has which connection; `created` never changes.
  */
  datatype State = State(
    queue: seq<Conn>,
    sem: nat,
    lock: Lock,
    waiting: set<Thread>,
    permitted: set<Thread>,
    held: map<Conn, Thread>,
    created: nat)

  datatype Action =
    | TestEmpty(thread: Thread)
    | Wait(thread: Thread)
    | Pop(thread: Thread)
    | Push(thread: Thread, conn: Conn)
    | Post
    | Unlock

  predicate Distinct(s: seq<Conn>) {
    forall i, j :: 0 <= i < j < |s| ==> s[i] != s[j]
  }

  function Successes(attempts: seq<Option<Conn>>): seq<Conn> {
    if attempts == [] then []
    else
      var last := attempts[|attempts| - 1];
      Successes(attempts[..|attempts| - 1]) + (if last.Some? then [last.value] else [])
  }

  /** Connections that fail to open are skipped: the semaphore starts at the number that did open. */
  method Init(attempts: seq<Option<Conn>>) returns (queue: seq<Conn>, sem: nat)
    ensures queue == Successes(attempts) && sem == |queue|
  {
    queue, sem := [], 0;
    for i := 0 to |attempts|
      invariant queue == Successes(attempts[..i]) && sem == |queue|
    {
      assert attempts[..i + 1][..i] == attempts[..i];
      if attempts[i].Some? {
        queue := queue + [attempts[i].value];
        sem := sem + 1;
      }
    }
    assert attempts[..|attempts|] == attempts;
  }

  ghost predicate Initial(s: State) {
    && Distinct(s.queue) && s.sem == |s.queue| == s.created
    && s.lock.Open? && s.waiting == {} && s.permitted == {} && s.held == map[]
  }

  /** FreeConn is given a connection its caller holds: SqlConnRAII returns what it was handed, once. */
  predicate Enabled(s: State, a: Action) {
    match a
    case TestEmpty(t) => t !in s.waiting && t !in s.permitted
    case Wait(t) => t in s.waiting && s.sem > 0
    case Pop(t) => t in s.permitted && s.lock.Open?
    case Push(t, c) => s.lock.Open? && c in s.held && s.held[c] == t && t !in s.waiting && t !in s.permitted
    case Post => s.lock.Pushed?
    case Unlock => s.lock.Posted?
  }

  /** A pop takes the front; `Option` because the body itself does not look whether there is one. */
  function Apply(s: State, a: Action): Option<State>
    requires Enabled(s, a)
  {
    match a
    case TestEmpty(t) => Some(if s.queue == [] then s else s.(waiting := s.waiting + {t}))
    case Wait(t) => Some(s.(sem := s.sem - 1, waiting := s.waiting - {t}, permitted := s.permitted + {t}))
    case Pop(t) =>
      if s.queue == [] then None
      else Some(s.(queue := s.queue[1..], held := s.held[s.queue[0] := t], permitted := s.permitted - {t}))
    case Push(t, c) => Some(s.(queue := s.queue + [c], held := s.held - {c}, lock := Pushed))
    case Post => Some(s.(sem := s.sem + 1, lock := Posted))
    case Unlock => Some(s.(lock := Open))
  }

  ghost predicate Run(states: seq<State>, actions: seq<Action>) {
    && |states| == |actions| + 1
    && Initial(states[0])
    && forall i :: 0 <= i < |actions| ==> StepAt(states, actions, i)
  }

  ghost predicate StepAt(states: seq<State>, actions: seq<Action>, i: nat)
    requires i < |actions| && i + 1 < |states|
  {
    Enabled(states[i], actions[i]) && Apply(states[i], actions[i]) == Some(states[i + 1])
  }

  /** The semaphore counts the queued connections nobody has yet been permitted to take. */
  predicate PermitsMatch(s: State) {
    && |s.queue| == s.sem + |s.permitted| + (if s.lock.Pushed? then 1 else 0)
    && s.waiting !! s.permitted
  }

  /** No connection is twice in the queue, or both there and held. */
  predicate OwnedOnce(queue: seq<Conn>, held: map<Conn, Thread>) {
    Distinct(queue) && forall i :: 0 <= i < |queue| ==> queue[i] !in held
  }

  lemma PermitsKept(s: State, a: Action)
    requires PermitsMatch(s) && Enabled(s, a)
    ensures Apply(s, a).Some? && PermitsMatch(Apply(s, a).value)
  {
    if a.Pop? {
      assert |s.permitted - {a.thread}| == |s.permitted| - 1;
    }
  }

  lemma PopKeepsOwners(queue: seq<Conn>, held: map<Conn, Thread>, t: Thread)
    requires queue != [] && OwnedOnce(queue, held)
    ensures OwnedOnce(queue[1..], held[queue[0] := t])
    ensures |queue[1..]| + |held[queue[0] := t]| == |queue| + |held|
  {
    OneMore(held, queue[0], t);
  }

  lemma PushKeepsOwners(queue: seq<Conn>, held: map<Conn, Thread>, c: Conn)
    requires c in held && OwnedOnce(queue, held)
    ensures OwnedOnce(queue + [c], held - {c})
    ensures |queue + [c]| + |held - {c}| == |queue| + |held|
  {
    OneLess(held, c);
  }

  /** Every connection created is free or held, and so once. */
  predicate Inv(s: State) {
    PermitsMatch(s) && OwnedOnce(s.queue, s.held) && |s.queue| + |s.held| == s.created
  }

  lemma StepKeepsInv(s: State, a: Action)
    requires Inv(s) && Enabled(s, a)
    ensures Apply(s, a).Some? && Inv(Apply(s, a).value) && Apply(s, a).value.created == s.created
  {
    PermitsKept(s, a);
    if a.Pop? {
      PopKeepsOwners(s.queue, s.held, a.thread);
    } else if a.Push? {
      PushKeepsOwners(s.queue, s.held, a.conn);
    }
  }

  lemma {:induction false} RunInv(states: seq<State>, actions: seq<Action>, i: nat)
    requires Run(states, actions) && i < |states|
    ensures Inv(states[i]) && states[i].created == states[0].created
  {
    if i > 0 {
      RunInv(states, actions, i - 1);
      assert StepAt(states, actions, i - 1);
      StepKeepsInv(states[i - 1], actions[i - 1]);
    }
  }

  /**
  In every reachable state: a pop that is due finds a connection, and one that nobody holds; the free and
  the held connections are together the created ones.
  */
  lemma PopIsSafe(states: seq<State>, actions: seq<Action>, i: nat, t: Thread)
    requires Run(states, actions) && i < |states| && Enabled(states[i], Pop(t))
    ensures states[i].queue != [] && states[i].queue[0] !in states[i].held
    ensures |states[i].queue| + |states[i].held| == states[0].created
  {
    RunInv(states, actions, i);
  }

  /** No permit is lost: a thread is stuck at the semaphore only while every connection is held. */
  lemma BlockedOnlyWhenAllHeld(states: seq<State>, actions: seq<Action>, i: nat)
    requires Run(states, actions) && i < |states|
    requires states[i].sem == 0 && states[i].permitted == {} && !states[i].lock.Pushed?
    ensures states[i].queue == [] && |states[i].held| == states[0].created
  {
    RunInv(states, actions, i);
  }
}
