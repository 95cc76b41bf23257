/**
The connection timers of server/src/timer/heaptimer.cpp: a binary heap of (id, expiry) nodes and a
back map `ref` from an id to its place in the heap, changed together by swaps.

Times are nanoseconds.  Each clock read is an input, and readings need not be monotone.
*/
module TimerHeap {

  datatype TimerNode = TimerNode(id: int, expires: int)

  /** The entry of `ref` for an id that has no timer; the source stores size_t(-1). */
  const ABSENT := -1

  const NS_PER_MS := 1_000_000

  /** A std::chrono cast to milliseconds: truncation toward zero. */
  function ToMillis(ns: int): (ms: int)
    ensures ms > 0 <==> ns >= NS_PER_MS
    ensures ns >= 0 ==> ms * NS_PER_MS <= ns < (ms + 1) * NS_PER_MS
  {
    if ns >= 0 then ns / NS_PER_MS else -((-ns) / NS_PER_MS)
  }

  /** A cast to 32-bit int. */
  function ToInt32(x: int): (r: int)
    ensures -0x8000_0000 <= r < 0x8000_0000
    ensures x >= 0 ==> r <= x
    ensures -0x8000_0000 <= x < 0x8000_0000 ==> r == x
  {
    var w := x % 0x1_0000_0000;
    if w < 0x8000_0000 then w else w - 0x1_0000_0000
  }

  function Parent(c: int): (p: int)
    ensures c > 0 ==> 0 <= p < c
    ensures c > 0 ==> (c == 2 * p + 1 || c == 2 * p + 2)
  {
    (c - 1) / 2
  }

  // ---------------------------------------------------------------- heap order

  /** The first `n` nodes form a heap. */
  predicate Ordered(h: seq<TimerNode>, n: int)
    requires n <= |h|
  {
    forall c :: 0 < c < n ==> h[Parent(c)].expires <= h[c].expires
  }

  /** Only the edge from `i` up to its parent may be broken. */
  predicate OrderedButUp(h: seq<TimerNode>, n: int, i: int)
    requires n <= |h|
  {
    && (forall c :: 0 < c < n && c != i ==> h[Parent(c)].expires <= h[c].expires)
    && (forall c :: 0 < c < n && 0 < i && Parent(c) == i ==> h[Parent(i)].expires <= h[c].expires)
  }

  /** Only the edges at `i` may be broken, in either direction. */
  predicate OrderedBut(h: seq<TimerNode>, n: int, i: int)
    requires n <= |h|
  {
    && (forall c :: 0 < c < n && c != i && Parent(c) != i ==> h[Parent(c)].expires <= h[c].expires)
    && (forall c :: 0 < c < n && 0 < i && Parent(c) == i ==> h[Parent(i)].expires <= h[c].expires)
  }

  lemma {:induction false} RootIsMin(h: seq<TimerNode>, i: int)
    requires Ordered(h, |h|) && 0 <= i < |h|
    ensures h[0].expires <= h[i].expires
    decreases i
  {
    if i > 0 {
      RootIsMin(h, Parent(i));
    }
  }

  /** Writing a new expiry at `i` breaks the order at most at `i`. */
  lemma WriteBreaksOnlyThere(h: seq<TimerNode>, n: int, i: int, node: TimerNode)
    requires 0 <= i < |h| && n <= |h| && Ordered(h, n)
    ensures OrderedBut(h[i := node], n, i)
  {
    var h' := h[i := node];
    forall c | 0 < c < n && 0 < i && Parent(c) == i ensures h'[Parent(i)].expires <= h'[c].expires {
      assert h[Parent(c)].expires <= h[c].expires;
      if i < n { assert h[Parent(i)].expires <= h[i].expires; }
    }
  }

  // ---------------------------------------------------------------- back map

  /** `ref` and the heap are inverse to each other, and both describe the abstract timers. */
  ghost predicate Indexed(h: seq<TimerNode>, ref: seq<int>, timers: map<int, int>) {
    && (forall i :: 0 <= i < |h| ==>
          0 <= h[i].id < |ref| && ref[h[i].id] == i && h[i].id in timers && timers[h[i].id] == h[i].expires)
    && (forall id :: id in timers ==> 0 <= id < |ref| && 0 <= ref[id] < |h| && h[ref[id]].id == id)
    && (forall id :: 0 <= id < |ref| && id !in timers ==> ref[id] == ABSENT)
  }

  lemma WriteKeepsIndex(h: seq<TimerNode>, ref: seq<int>, timers: map<int, int>, node: TimerNode)
    requires Indexed(h, ref, timers) && node.id in timers
    ensures Indexed(h[ref[node.id] := node], ref, timers[node.id := node.expires])
  {
  }

  function Swapped(h: seq<TimerNode>, i: int, j: int): (h': seq<TimerNode>)
    requires 0 <= i < |h| && 0 <= j < |h|
  {
    h[i := h[j]][j := h[i]]
  }

  class HeapTimer {
    var heap: seq<TimerNode>
    var ref: seq<int>
    ghost var timers: map<int, int>  // id -> expiry: the abstract value

    ghost predicate Valid()
      reads this
    {
      Ordered(heap, |heap|) && Indexed(heap, ref, timers)
    }

    constructor ()
      ensures Valid() && timers == map[]
    {
      heap := [];
      ref := seq(65536, _ => ABSENT);
      timers := map[];
    }

    method SwapNode(i: nat, j: nat)
      requires i < |heap| && j < |heap| && Indexed(heap, ref, timers)
      modifies `heap, `ref
      ensures Indexed(heap, ref, timers)
      ensures heap == Swapped(old(heap), i, j) && |ref| == old(|ref|)
    {
      heap := Swapped(heap, i, j);
      ref := ref[heap[i].id := i];
      ref := ref[heap[j].id := j];
    }

    /** Repairs an entry that may be smaller than its parent, inside the first `n` nodes. */
    method SiftUp(index: nat, ghost n: nat)
      requires index < n <= |heap| && Indexed(heap, ref, timers) && OrderedButUp(heap, n, index)
      modifies `heap, `ref
      ensures |heap| == old(|heap|) && |ref| == old(|ref|) && heap[n..] == old(heap)[n..]
      ensures Indexed(heap, ref, timers) && Ordered(heap, n)
    {
      var i := index;
      while i > 0
        invariant 0 <= i < n <= |heap| == old(|heap|) && |ref| == old(|ref|)
        invariant Indexed(heap, ref, timers) && OrderedButUp(heap, n, i)
        invariant heap[n..] == old(heap)[n..]
      {
        var parent := Parent(i);
        if !(heap[parent].expires > heap[i].expires) {
          break;
        }
        SiftUpStep(heap, n, i);
        SwapNode(i, parent);
        i := parent;
      }
    }

    /**
    Repairs an entry that may be larger than a child, inside the first `n` nodes, and reports whether
    it moved.  It moves on ties.  Where it moved, the whole prefix is a heap; where it did not, only
    the edge to its parent can still be broken.
    */
    method SiftDown(index: nat, n: nat) returns (moved: bool)
      requires index < n <= |heap| && Indexed(heap, ref, timers) && OrderedBut(heap, n, index)
      modifies `heap, `ref
      ensures |heap| == old(|heap|) && |ref| == old(|ref|) && heap[n..] == old(heap)[n..]
      ensures Indexed(heap, ref, timers)
      ensures if moved then Ordered(heap, n) else OrderedButUp(heap, n, index)
      ensures !moved ==> heap == old(heap) && ref == old(ref)
    {
      var i := index;
      while 2 * i + 1 < n
        invariant index <= i < n <= |heap| == old(|heap|) && |ref| == old(|ref|)
        invariant Indexed(heap, ref, timers) && OrderedBut(heap, n, i)
        invariant i > index ==> heap[Parent(i)].expires <= heap[i].expires
        invariant heap[n..] == old(heap)[n..]
        invariant i == index ==> heap == old(heap) && ref == old(ref)
        decreases n - i
      {
        var child := SmallerChild(heap, n, i);
        if heap[i].expires < heap[child].expires {
          SiftDownDone(heap, n, i);
          return i > index;
        }
        SiftDownStep(heap, n, i, child);
        SwapNode(i, child);
        i := child;
      }
      SiftDownDone(heap, n, i);
      return i > index;
    }

    /** Sift down, and where nothing moved sift up: repairs one arbitrary changed entry. */
    method Repair(index: nat, n: nat)
      requires index < n <= |heap| && Indexed(heap, ref, timers) && OrderedBut(heap, n, index)
      modifies `heap, `ref
      ensures |heap| == old(|heap|) && |ref| == old(|ref|) && heap[n..] == old(heap)[n..]
      ensures Indexed(heap, ref, timers) && Ordered(heap, n)
    {
      var moved := SiftDown(index, n);
      if !moved {
        SiftUp(index, n);
      }
    }

    /** The first half of a deletion: the node to delete becomes the last, the others a heap. */
    method MoveLast(index: nat)
      requires Valid() && index < |heap|
      modifies `heap, `ref
      ensures |heap| == old(|heap|) && |ref| == old(|ref|) && Indexed(heap, ref, timers)
      ensures Ordered(heap, |heap| - 1) && heap[|heap| - 1] == old(heap)[index]
    {
      var last := |heap| - 1;
      if index < last {
        WriteBreaksOnlyThere(heap, last, index, heap[last]);
        SwapNode(index, last);
        OrderedButPrefix(old(heap)[index := old(heap)[last]], heap, last, index);
        ghost var swapped := heap;
        Repair(index, last);
        assert heap[last] == heap[last..][0] == swapped[last..][0] == swapped[last];
      }
    }

    /** Deletes the node at any place: swap with the last, repair, drop the last. */
    method Del(index: nat)
      requires Valid() && index < |heap|
      modifies this
      ensures Valid() && timers == old(timers) - {old(heap)[index].id}
      ensures |heap| == old(|heap|) - 1
    {
      var deleted := heap[index].id;
      MoveLast(index);
      DropLast(heap, ref, timers);
      timers := timers - {deleted};
      ref := ref[deleted := ABSENT];
      heap := heap[..|heap| - 1];
    }

    /** Re-arms an existing timer. */
    method Adjust(id: int, newExpires: int, now: int)
      requires Valid() && id in timers
      modifies this
      ensures Valid() && timers == old(timers)[id := now + newExpires * NS_PER_MS]
    {
      var node := TimerNode(id, now + newExpires * NS_PER_MS);
      WriteBreaksOnlyThere(heap, |heap|, ref[id], node);
      WriteKeepsIndex(heap, ref, timers, node);
      heap := heap[ref[id] := node];
      timers := timers[id := node.expires];
      Repair(ref[id], |heap|);
    }

    /** Arms a timer, new or existing; `ref` grows to cover a large id. */
    method Add(id: int, timeOut: int, now: int)
      requires Valid() && id >= 0
      modifies this
      ensures Valid() && timers == old(timers)[id := now + timeOut * NS_PER_MS]
    {
      if id >= |ref| {
        ref := ref + seq(id * 2 + 1 - |ref|, _ => ABSENT);
      }
      if ref[id] != ABSENT {
        Adjust(id, timeOut, now);
      } else {
        var n := |heap|;
        ref := ref[id := n];
        heap := heap + [TimerNode(id, now + timeOut * NS_PER_MS)];
        timers := timers[id := now + timeOut * NS_PER_MS];
        SiftUp(n, n + 1);
      }
    }

    /** Removes a timer; an id without one is ignored. */
    method Remove(id: int)
      requires Valid()
      modifies this
      ensures Valid() && timers == old(timers) - {id}
      ensures if id in old(timers) then |heap| < old(|heap|) else timers == old(timers) && |heap| == old(|heap|)
    {
      if id < 0 || id >= |ref| || ref[id] == ABSENT {
        assert timers == timers - {id};
        return;
      }
      Del(ref[id]);
    }

    /** Removes a timer that expires no later than any other. */
    method Pop()
      requires Valid() && timers != map[]
      modifies this
      ensures Valid()
      ensures exists id :: id in old(timers) && timers == old(timers) - {id}
                           && forall other :: other in old(timers) ==> old(timers)[id] <= old(timers)[other]
    {
      EmptyTogether(heap, ref, timers);
      FrontIsEarliest(heap, ref, timers);
      Del(0);
    }

    /**
    Fires every timer that is due.  Reading `k` of the clock is `clock(k)`; `callback(id)` lists the
    timers the callback itself removes when `id` fires.
    */
    method Tick(clock: nat -> int, callback: int -> seq<int>) returns (fired: seq<int>, readings: nat)
      requires Valid()
      modifies this
      ensures Valid()
      ensures DueInOrder(old(timers), fired, clock)
      ensures timers == old(timers) - Gone(fired, callback)
      ensures readings == |fired| + (if timers == map[] then 0 else 1)
      ensures forall id :: id in timers ==> timers[id] - clock(readings - 1) >= NS_PER_MS
    {
      fired, readings := [], 0;
      ghost var start := timers;
      while heap != []
        invariant Valid() && readings == |fired|
        invariant DueInOrder(start, fired, clock)
        invariant timers == start - Gone(fired, callback)
        invariant forall id :: id in timers && fired != [] ==> start[fired[|fired| - 1]] <= timers[id]
        decreases |heap|
      {
        var node := heap[0];
        FrontIsEarliest(heap, ref, timers);
        readings := readings + 1;
        if ToMillis(node.expires - clock(readings - 1)) > 0 {
          return;
        }
        FiredAreGone(fired, callback);
        DueAppend(start, fired, clock, node.id);
        GoneAppend(fired, callback, node.id, start);
        RunCallback(callback(node.id));
        Remove(node.id);
        fired := fired + [node.id];
      }
      EmptyTogether(heap, ref, timers);
    }

    /** The removals a callback makes. */
    method RunCallback(ids: seq<int>)
      requires Valid()
      modifies this
      ensures Valid() && timers == old(timers) - Members(ids)
      ensures |heap| < old(|heap|) || (timers == old(timers) && |heap| == old(|heap|))
    {
      for i := 0 to |ids|
        invariant Valid() && timers == old(timers) - Members(ids[..i])
        invariant |heap| < old(|heap|) || (timers == old(timers) && |heap| == old(|heap|))
      {
        Remove(ids[i]);
        assert Members(ids[..i + 1]) == Members(ids[..i]) + {ids[i]};
      }
      assert ids[..|ids|] == ids;
    }

    /** How long the event loop may sleep: -1 for ever, else until the earliest timer, clamped at 0. */
    method GetNextTick(clock: nat -> int, callback: int -> seq<int>) returns (wait: int, fired: seq<int>, readings: nat)
      requires Valid()
      modifies this
      ensures Valid() && DueInOrder(old(timers), fired, clock)
      ensures timers == old(timers) - Gone(fired, callback)
      ensures wait == -1 <==> timers == map[]
      ensures timers != map[] ==>
                readings >= 2 && exists id :: Earliest(timers, id) && timers[id] - clock(readings - 2) >= NS_PER_MS
                                              && wait == Wait(timers[id] - clock(readings - 1))
      ensures timers != map[] && clock(readings - 1) - clock(readings - 2) <= MAX_LAG ==>
                forall id :: id in timers ==> wait * NS_PER_MS <= TimeLeft(timers[id], clock(readings - 1))
    {
      fired, readings := Tick(clock, callback);
      wait := -1;
      if heap != [] {
        FrontIsEarliest(heap, ref, timers);
        readings := readings + 1;
        wait := ToInt32(ToMillis(heap[0].expires - clock(readings - 1)));
        if wait < 0 {
          wait := 0;
        }
        assert Earliest(timers, heap[0].id);
        if clock(readings - 1) - clock(readings - 2) <= MAX_LAG {
          PromptWaitIsSafe(timers, heap[0].id, clock(readings - 2), clock(readings - 1));
        }
      } else {
        EmptyTogether(heap, ref, timers);
      }
    }
  }

  ghost predicate Earliest(timers: map<int, int>, id: int) {
    id in timers && forall other :: other in timers ==> timers[id] <= timers[other]
  }

  /** The sleep in milliseconds for a timer with `left` nanoseconds to go. */
  function Wait(left: int): int {
    var w := ToInt32(ToMillis(left));
    if w < 0 then 0 else w
  }

  /** A timer still to come is never slept past. */
  lemma WaitWhenDue(left: int)
    requires left >= 0
    ensures 0 <= Wait(left) * NS_PER_MS <= left
  {
    var ms := ToMillis(left);
    assert 0 <= Wait(left) <= ms;
  }

  /** A past timer gives 0 unless the cast to int wraps to a positive number. */
  lemma WaitWhenPast(left: int)
    requires left < 0
    ensures Wait(left) >= 0
    ensures Wait(left) == 0 <==> (-ToMillis(left)) % 0x1_0000_0000 <= 0x8000_0000
  {
    var late := -ToMillis(left);
    assert (-late) % 0x1_0000_0000 == if late % 0x1_0000_0000 == 0 then 0 else 0x1_0000_0000 - late % 0x1_0000_0000;
  }

  /** 2^31 milliseconds. */
  const MAX_LAG := 0x8000_0000 * NS_PER_MS

  function TimeLeft(expires: int, now: int): int {
    if expires > now then expires - now else 0
  }

  /**
  The sleep never outlasts any timer, and is 0 when one is past, exactly when the earliest timer is
  not overdue by so many milliseconds that the cast to int wraps to a positive number.
  */
  lemma WaitIsSafe(timers: map<int, int>, first: int, now: int)
    requires Earliest(timers, first)
    ensures (forall id :: id in timers ==> Wait(timers[first] - now) * NS_PER_MS <= TimeLeft(timers[id], now))
            <==> timers[first] >= now || (-ToMillis(timers[first] - now)) % 0x1_0000_0000 <= 0x8000_0000
  {
    var left := timers[first] - now;
    if left >= 0 {
      WaitWhenDue(left);
    } else {
      WaitWhenPast(left);
    }
  }

  /** So it is safe whenever the two last clock readings of GetNextTick are at most 2^31 ms apart. */
  lemma PromptWaitIsSafe(timers: map<int, int>, first: int, before: int, now: int)
    requires Earliest(timers, first) && timers[first] - before >= NS_PER_MS && now - before <= MAX_LAG
    ensures forall id :: id in timers ==> Wait(timers[first] - now) * NS_PER_MS <= TimeLeft(timers[id], now)
  {
    var left := timers[first] - now;
    if left < 0 {
      var late := -ToMillis(left);
      assert late * NS_PER_MS <= -left <= MAX_LAG;
      assert 0 <= late <= 0x8000_0000;
    }
    WaitIsSafe(timers, first, now);
  }

  /** A timer overdue by 2^31 + 1 milliseconds makes the loop sleep for 2^31 - 1 more. */
  lemma WaitCanWrap()
    ensures Wait(-0x8000_0001 * NS_PER_MS) == 0x7FFF_FFFF
  {
  }

  /** A clock that stands at 0 for its first reading and then jumps by 2^31 + 3 milliseconds. */
  function JumpingClock(reading: nat): int {
    if reading == 0 then 0 else 0x8000_0003 * NS_PER_MS
  }

  lemma FirstWasDue(timers: map<int, int>, fired: seq<int>, clock: nat -> int) returns (id: int)
    requires DueInOrder(timers, fired, clock) && fired != []
    ensures id in timers && timers[id] - clock(0) < NS_PER_MS
  {
    id := fired[0];
  }

  /**
  A run in which that happens: one timer of 2 ms, not due at the reading Tick makes, long past at the next.
  GetNextTick answers 2^31 - 1 ms although the timer is overdue.
  */
  method SleepPastTimer() returns (wait: int)
    ensures wait == 0x7FFF_FFFF
  {
    var timer := new HeapTimer();
    timer.Add(7, 2, 0);
    assert timer.timers == map[7 := 2 * NS_PER_MS];
    var fired, readings;
    wait, fired, readings := timer.GetNextTick(JumpingClock, _ => []);
    if fired != [] {
      var id := FirstWasDue(map[7 := 2 * NS_PER_MS], fired, JumpingClock);
      assert false;
    }
    assert Earliest(timer.timers, 7);
    WaitCanWrap();
  }

  ghost function Members(ids: seq<int>): (m: set<int>) {
    set i | 0 <= i < |ids| :: ids[i]
  }

  /** Everything that fired or that a callback of a fired timer removed. */
  ghost function Gone(fired: seq<int>, callback: int -> seq<int>): set<int> {
    if fired == [] then {}
    else Gone(fired[..|fired| - 1], callback) + Members(callback(fired[|fired| - 1])) + {fired[|fired| - 1]}
  }

  /** The `k`-th timer fired was due at clock reading `k`, no timer fired twice, and expiries never go back. */
  ghost predicate DueInOrder(timers: map<int, int>, fired: seq<int>, clock: nat -> int) {
    && (forall k :: 0 <= k < |fired| ==> fired[k] in timers && timers[fired[k]] - clock(k) < NS_PER_MS)
    && (forall j, k :: 0 <= j < k < |fired| ==> fired[j] != fired[k] && timers[fired[j]] <= timers[fired[k]])
  }

  lemma FrontIsEarliest(h: seq<TimerNode>, ref: seq<int>, timers: map<int, int>)
    requires h != [] && Ordered(h, |h|) && Indexed(h, ref, timers)
    ensures h[0].id in timers && timers[h[0].id] == h[0].expires
    ensures forall id :: id in timers ==> h[0].expires <= timers[id]
  {
    forall id | id in timers ensures h[0].expires <= timers[id] {
      RootIsMin(h, ref[id]);
    }
  }

  lemma EmptyTogether(h: seq<TimerNode>, ref: seq<int>, timers: map<int, int>)
    requires Indexed(h, ref, timers)
    ensures h == [] <==> timers == map[]
  {
    if h == [] {
      forall id ensures id !in timers {
      }
    } else {
      assert h[0].id in timers;
    }
  }

  lemma OrderedButPrefix(a: seq<TimerNode>, b: seq<TimerNode>, n: nat, i: nat)
    requires n <= |a| && n <= |b| && i < n && a[..n] == b[..n] && OrderedBut(a, n, i)
    ensures OrderedBut(b, n, i)
  {
    assert forall k :: 0 <= k < n ==> a[k] == a[..n][k] == b[k];
  }

  lemma DropLast(h: seq<TimerNode>, ref: seq<int>, timers: map<int, int>)
    requires h != [] && Indexed(h, ref, timers) && Ordered(h, |h| - 1)
    ensures Indexed(h[..|h| - 1], ref[h[|h| - 1].id := ABSENT], timers - {h[|h| - 1].id})
    ensures Ordered(h[..|h| - 1], |h| - 1)
  {
  }

  lemma {:induction false} FiredAreGone(fired: seq<int>, callback: int -> seq<int>)
    ensures forall k :: 0 <= k < |fired| ==> fired[k] in Gone(fired, callback)
  {
    if fired != [] {
      FiredAreGone(fired[..|fired| - 1], callback);
    }
  }

  lemma DueAppend(timers: map<int, int>, fired: seq<int>, clock: nat -> int, id: int)
    requires DueInOrder(timers, fired, clock) && id in timers && id !in fired
    requires timers[id] - clock(|fired|) < NS_PER_MS
    requires fired != [] ==> timers[fired[|fired| - 1]] <= timers[id]
    ensures DueInOrder(timers, fired + [id], clock)
  {
  }

  lemma GoneAppend(fired: seq<int>, callback: int -> seq<int>, id: int, timers: map<int, int>)
    ensures timers - Gone(fired + [id], callback)
            == timers - Gone(fired, callback) - Members(callback(id)) - {id}
  {
    assert (fired + [id])[..|fired|] == fired;
  }

  /** The child to compare with: the left one unless the right one is strictly smaller. */
  function SmallerChild(h: seq<TimerNode>, n: nat, i: nat): (child: nat)
    requires 2 * i + 1 < n <= |h|
    ensures i < child < n && Parent(child) == i
    ensures forall c :: 0 < c < n && Parent(c) == i ==> h[child].expires <= h[c].expires
  {
    if 2 * i + 2 < n && h[2 * i + 2].expires < h[2 * i + 1].expires then 2 * i + 2 else 2 * i + 1
  }

  lemma SiftUpStep(h: seq<TimerNode>, n: nat, i: nat)
    requires 0 < i < n <= |h| && OrderedButUp(h, n, i) && h[Parent(i)].expires > h[i].expires
    ensures OrderedButUp(Swapped(h, i, Parent(i)), n, Parent(i))
    ensures Swapped(h, i, Parent(i))[n..] == h[n..]
  {
    var p := Parent(i);
    var h' := Swapped(h, i, p);
    forall c | 0 < c < n && c != p ensures h'[Parent(c)].expires <= h'[c].expires {
      if c != i { assert h[Parent(c)].expires <= h[c].expires; }
    }
    forall c | 0 < c < n && 0 < p && Parent(c) == p ensures h'[Parent(p)].expires <= h'[c].expires {
      assert h[Parent(p)].expires <= h[p].expires;
      if c != i { assert h[Parent(c)].expires <= h[c].expires; }
    }
  }

  lemma SiftDownStep(h: seq<TimerNode>, n: nat, i: nat, child: nat)
    requires i < child < n <= |h| && Parent(child) == i && OrderedBut(h, n, i)
    requires forall c :: 0 < c < n && Parent(c) == i ==> h[child].expires <= h[c].expires
    requires h[child].expires <= h[i].expires
    ensures OrderedBut(Swapped(h, i, child), n, child)
    ensures Swapped(h, i, child)[i].expires <= Swapped(h, i, child)[child].expires
    ensures Swapped(h, i, child)[n..] == h[n..]
  {
    var h' := Swapped(h, i, child);
    forall c | 0 < c < n && c != child && Parent(c) != child ensures h'[Parent(c)].expires <= h'[c].expires {
      if Parent(c) == i {
      } else if c == i {
        assert h[Parent(i)].expires <= h[child].expires;
      } else {
        assert h[Parent(c)].expires <= h[c].expires;
      }
    }
    forall c | 0 < c < n && Parent(c) == child ensures h'[Parent(child)].expires <= h'[c].expires {
      assert h[Parent(c)].expires <= h[c].expires;
    }
  }

  lemma SiftDownDone(h: seq<TimerNode>, n: nat, i: nat)
    requires i < n <= |h| && OrderedBut(h, n, i)
    requires forall c :: 0 < c < n && Parent(c) == i ==> h[i].expires <= h[c].expires
    ensures OrderedButUp(h, n, i)
    ensures 0 < i && h[Parent(i)].expires <= h[i].expires ==> Ordered(h, n)
  {
  }
}
