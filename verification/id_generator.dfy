/** Message ids and conversation ids: server/src/utils/id_generator.h, and the client's id in network_manager.cpp. */
module IdGenerator {
  import opened Messages

  const EPOCH: u64 := 1704067200000

  const TWO_20: nat := 0x10_0000
  const TWO_22: nat := 0x40_0000
  const TWO_32: nat := 0x1_0000_0000
  const TWO_41: nat := 0x200_0000_0000
  const TWO_42: nat := 0x400_0000_0000
  const TWO_44: nat := 0x1000_0000_0000
  const TWO_63: nat := 0x8000_0000_0000_0000
  const TWO_64: nat := 0x1_0000_0000_0000_0000

  /** Milliseconds since the epoch of the ids; earlier clocks are clamped to it. */
  function Offset(nowMs: u64): nat {
    if nowMs < EPOCH then 0 else nowMs - EPOCH
  }

  /** What a message id is made of: 42 bits of clock above 22 bits of counter. */
  function MsgId(nowMs: u64, sequence: nat): u64 {
    Offset(nowMs) % TWO_42 * TWO_22 + sequence % TWO_22
  }

  /** The client's idempotency key: 44 bits of clock above 20 bits of counter. */
  function ClientMsgId(nowMs: u64, seqNo: nat): u64 {
    nowMs % TWO_44 * TWO_20 + seqNo % TWO_20
  }

  // ---------------------------------------------------------------- the bits

  function Pow2(k: nat): nat {
    if k == 0 then 1 else 2 * Pow2(k - 1)
  }

  function BitOr(a: nat, b: nat): nat
    decreases a + b
  {
    if a == 0 && b == 0 then 0
    else 2 * BitOr(a / 2, b / 2) + (if a % 2 == 1 || b % 2 == 1 then 1 else 0)
  }

  function BitAnd(a: nat, b: nat): nat {
    if a == 0 || b == 0 then 0
    else 2 * BitAnd(a / 2, b / 2) + (if a % 2 == 1 && b % 2 == 1 then 1 else 0)
  }

  lemma {:induction false} OrZero(a: nat)
    ensures BitOr(a, 0) == a
  {
    if a != 0 {
      OrZero(a / 2);
    }
  }

  /** Or-ing a number shifted by `k` with one of `k` bits is adding them. */
  lemma {:induction false} OrOfParts(hi: nat, lo: nat, k: nat)
    requires lo < Pow2(k)
    ensures BitOr(hi * Pow2(k), lo) == hi * Pow2(k) + lo
  {
    if k == 0 {
      OrZero(hi);
    } else {
      assert hi * Pow2(k) == 2 * (hi * Pow2(k - 1));
      OrOfParts(hi, lo / 2, k - 1);
    }
  }

  lemma AndOdd(x: nat, m: nat)
    ensures BitAnd(x, 2 * m + 1) == 2 * BitAnd(x / 2, m) + x % 2
  {
  }

  lemma AndNone(x: nat)
    ensures BitAnd(x, 0) == 0
  {
  }

  /** A mask of `k` ones takes the remainder. */
  lemma {:induction false} AndMask(x: nat, k: nat)
    ensures Pow2(k) > 0 && BitAnd(x, Pow2(k) - 1) == x % Pow2(k)
  {
    hide BitAnd;
    if k == 0 {
      AndNone(x);
    } else {
      AndMask(x / 2, k - 1);
      AndOdd(x, Pow2(k - 1) - 1);
      Remainder(x, Pow2(k - 1));
    }
  }

  lemma Remainder(x: nat, m: nat)
    requires m > 0
    ensures x % (2 * m) == 2 * (x / 2 % m) + x % 2
  {
    var q, r := x / 2 / m, x / 2 % m;
    assert x / 2 == q * m + r;
    assert x == q * (2 * m) + (2 * r + x % 2);
    UniqueRemainder(x, 2 * m, q, 2 * r + x % 2);
  }

  lemma UniqueRemainder(x: nat, m: nat, q: nat, r: nat)
    requires m > 0 && r < m && x == q * m + r
    ensures x % m == r
  {
    var d := x / m - q;
    assert d * m == r - x % m by {
      assert x == x / m * m + x % m;
      assert d * m == x / m * m - q * m;
    }
    MultipleIsFar(d, m);
  }

  lemma MultipleIsFar(d: int, m: int)
    requires m > 0
    ensures d > 0 ==> d * m >= m
    ensures d < 0 ==> d * m <= -m
  {
    if d > 0 {
      assert (d - 1) * m >= 0;
    } else if d < 0 {
      assert (-d - 1) * m >= 0;
    }
  }

  lemma Powers()
    ensures Pow2(20) == TWO_20 && Pow2(22) == TWO_22
  {
    assert Pow2(5) == 0x20;
    assert Pow2(10) == 0x400;
    assert Pow2(15) == 0x8000;
  }

  /** The expression of the source, in 64 bits: (offset << 22) | (sequence & 0x3FFFFF). */
  lemma MsgIdIsBits(nowMs: u64, sequence: nat)
    ensures MsgId(nowMs, sequence)
            == BitOr(Offset(nowMs) * TWO_22 % TWO_64, BitAnd(sequence, 0x3F_FFFF))
  {
    Powers();
    var q, r := Offset(nowMs) / TWO_42, Offset(nowMs) % TWO_42;
    UniqueRemainder(Offset(nowMs) * TWO_22, TWO_64, q, r * TWO_22);
    AndMask(sequence, 22);
    OrOfParts(r, sequence % TWO_22, 22);
  }

  /** And the client's: (now_ms << 20) | (seq & 0xFFFFF). */
  lemma ClientMsgIdIsBits(nowMs: u64, seqNo: nat)
    ensures ClientMsgId(nowMs, seqNo) == BitOr(nowMs * TWO_20 % TWO_64, BitAnd(seqNo, 0xF_FFFF))
  {
    Powers();
    var q, r := nowMs / TWO_44, nowMs % TWO_44;
    UniqueRemainder(nowMs * TWO_20, TWO_64, q, r * TWO_20);
    AndMask(seqNo, 20);
    OrOfParts(r, seqNo % TWO_20, 20);
  }

  // ---------------------------------------------------------------- collisions

  /** Two message ids collide exactly when millisecond and low sequence bits agree. */
  lemma MsgIdsEqualIff(t1: u64, s1: nat, t2: u64, s2: nat)
    ensures MsgId(t1, s1) == MsgId(t2, s2)
            <==> Offset(t1) % TWO_42 == Offset(t2) % TWO_42 && s1 % TWO_22 == s2 % TWO_22
  {
    var a, b := Offset(t1) % TWO_42, Offset(t2) % TWO_42;
    if a < b {
      assert (a + 1) * TWO_22 <= b * TWO_22;
    } else if b < a {
      assert (b + 1) * TWO_22 <= a * TWO_22;
    }
  }

  lemma ClientMsgIdsEqualIff(t1: u64, n1: nat, t2: u64, n2: nat)
    ensures ClientMsgId(t1, n1) == ClientMsgId(t2, n2)
            <==> t1 % TWO_44 == t2 % TWO_44 && n1 % TWO_20 == n2 % TWO_20
  {
    var a, b := t1 % TWO_44, t2 % TWO_44;
    if a < b {
      assert (a + 1) * TWO_20 <= b * TWO_20;
    } else if b < a {
      assert (b + 1) * TWO_20 <= a * TWO_20;
    }
  }

  /** A later millisecond gives a larger id, and ids stay positive as signed 64-bit integers until 2^41 ms. */
  lemma MsgIdsOrdered(t1: u64, s1: nat, t2: u64, s2: nat)
    requires Offset(t1) < Offset(t2) < TWO_41
    ensures MsgId(t1, s1) < MsgId(t2, s2) < TWO_63
  {
    assert (Offset(t1) + 1) * TWO_22 <= Offset(t2) * TWO_22;
  }

  /** Cutting the counter to 32 bits loses nothing that reaches the id. */
  lemma CounterWraps(n: nat)
    ensures n % TWO_32 % TWO_22 == n % TWO_22
  {
    assert n == n / TWO_32 * TWO_32 + n % TWO_32;
    assert n / TWO_32 * TWO_32 == n / TWO_32 * 1024 * TWO_22;
    assert (n / TWO_32 * 1024 * TWO_22 + n % TWO_32) % TWO_22 == n % TWO_32 % TWO_22;
  }

  lemma SameLowBits(nowMs: u64, n: nat)
    ensures MsgId(nowMs, n % TWO_32) == MsgId(nowMs, n)
  {
    CounterWraps(n);
  }

  datatype Issue = Issue(nowMs: u64, id: u64)

  /** Calls number `i` and `j`, at these times, get the same id. */
  predicate Collide(t1: u64, i: nat, t2: u64, j: nat) {
    Offset(t1) % TWO_42 == Offset(t2) % TWO_42 && i % TWO_22 == j % TWO_22
  }

  class Generator {
    var sequence: nat
    ghost var issued: seq<Issue>  // every id handed out, in call order

    /** The 32-bit counter is the number of calls, wrapped. */
    ghost predicate Valid()
      reads this
    {
      && sequence == |issued| % TWO_32
      && forall i :: 0 <= i < |issued| ==> issued[i].id == MsgId(issued[i].nowMs, i)
    }

    constructor ()
      ensures Valid() && issued == []
    {
      sequence, issued := 0, [];
    }

    /**
    One call; the increment of the atomic counter orders the calls.  The new id is that of an earlier call
    exactly when both read the same clamped millisecond and their numbers agree modulo 2^22.
    */
    method GenerateMsgId(nowMs: u64) returns (id: u64)
      requires Valid()
      modifies this
      ensures Valid() && issued == old(issued) + [Issue(nowMs, id)]
      ensures forall i :: 0 <= i < |old(issued)| ==>
                (id == issued[i].id <==> Collide(nowMs, |old(issued)|, issued[i].nowMs, i))
    {
      hide BitOr, BitAnd, MsgId;
      MsgIdIsBits(nowMs, sequence);
      SameLowBits(nowMs, |issued|);
      id := BitOr(Offset(nowMs) * TWO_22 % TWO_64, BitAnd(sequence, 0x3F_FFFF));
      forall i | 0 <= i < |issued|
        ensures id == issued[i].id <==> Collide(nowMs, |issued|, issued[i].nowMs, i)
      {
        MsgIdsEqualIff(nowMs, |issued|, issued[i].nowMs, i);
      }
      CounterSteps(|issued|);
      sequence := (sequence + 1) % TWO_32;
      issued := issued + [Issue(nowMs, id)];
    }
  }

  /**
  Any run of calls, however long: two ids are equal exactly when the calls read the same clamped
  millisecond and their numbers agree modulo 2^22, also across the wrap of the 32-bit counter.  So ids are
  distinct when fewer than 2^22 calls separate two calls of one millisecond.
  */
  method GenerateRun(times: seq<u64>) returns (ids: seq<u64>)
    ensures |ids| == |times|
    ensures forall i, j :: 0 <= i < |ids| && 0 <= j < |ids| ==>
              (ids[i] == ids[j] <==> Collide(times[i], i, times[j], j))
    ensures forall i, j :: 0 <= i < j < |ids| && j - i < TWO_22 ==> ids[i] != ids[j]
  {
    var gen := new Generator();
    ids := [];
    for n := 0 to |times|
      invariant gen.Valid() && |ids| == |gen.issued| == n
      invariant forall i :: 0 <= i < n ==> gen.issued[i] == Issue(times[i], ids[i])
    {
      var id := gen.GenerateMsgId(times[n]);
      ids := ids + [id];
    }
    forall i, j | 0 <= i < |ids| && 0 <= j < |ids| ensures ids[i] == ids[j] <==> Collide(times[i], i, times[j], j) {
      assert gen.issued[i].id == ids[i] && gen.issued[j].id == ids[j];
      MsgIdsEqualIff(times[i], i, times[j], j);
    }
    forall i, j | 0 <= i < j < |ids| && j - i < TWO_22 ensures ids[i] != ids[j] {
      CloseNumbersDiffer(i, j);
    }
  }

  lemma CounterSteps(n: nat)
    ensures (n % TWO_32 + 1) % TWO_32 == (n + 1) % TWO_32
  {
    var q := n / TWO_32;
    assert n == q * TWO_32 + n % TWO_32;
    assert (q * TWO_32 + (n % TWO_32 + 1)) % TWO_32 == (n % TWO_32 + 1) % TWO_32;
  }

  lemma CloseNumbersDiffer(i: nat, j: nat)
    requires i < j && j - i < TWO_22
    ensures i % TWO_22 != j % TWO_22
  {
    var a, b := i / TWO_22, j / TWO_22;
    assert j - i == (b - a) * TWO_22 + (j % TWO_22 - i % TWO_22);
  }

  // ---------------------------------------------------------------- conversation ids

  function Digit(d: nat): char
    requires d < 10
  {
    "0123456789"[d]
  }

  /** std::to_string of an unsigned integer. */
  function ToString(n: nat): (s: string)
    ensures s != [] && forall i :: 0 <= i < |s| ==> '0' <= s[i] <= '9'
  {
    if n < 10 then [Digit(n)] else ToString(n / 10) + [Digit(n % 10)]
  }

  function Value(s: string): nat
    requires forall i :: 0 <= i < |s| ==> '0' <= s[i] <= '9'
  {
    if s == [] then 0 else Value(s[..|s| - 1]) * 10 + (s[|s| - 1] - '0') as nat
  }

  lemma {:induction false} ToStringRoundTrip(n: nat)
    ensures Value(ToString(n)) == n
  {
    if n >= 10 {
      ToStringRoundTrip(n / 10);
      assert ToString(n)[..|ToString(n)| - 1] == ToString(n / 10);
    } else {
      assert ToString(n)[..0] == [];
    }
  }

  /** The smaller id, an underscore, the larger id. */
  function P2PConvId(senderId: u64, receiverId: u64): string {
    if senderId <= receiverId then ToString(senderId) + "_" + ToString(receiverId)
    else ToString(receiverId) + "_" + ToString(senderId)
  }

  predicate Decimal(s: string) {
    forall i :: 0 <= i < |s| ==> '0' <= s[i] <= '9'
  }

  /** The underscore ends the first number: digits joined by `_` are cut at the same place. */
  lemma CutsAgree(a: string, x: string, c: string, y: string)
    requires Decimal(a) && Decimal(c) && a + "_" + x == c + "_" + y
    ensures a == c && x == y
  {
    var joined := a + "_" + x;
    assert joined[|a|] == '_' && joined[|c|] == '_';
    assert forall k :: 0 <= k < |a| ==> joined[k] == a[k];
    assert forall k :: 0 <= k < |c| ==> joined[k] == c[k];
    assert |a| == |c|;
    assert a == joined[..|a|] && c == joined[..|c|];
    assert x == joined[|a| + 1..] && y == joined[|c| + 1..];
  }

  lemma JoinIsInjective(a: nat, b: nat, c: nat, d: nat)
    requires ToString(a) + "_" + ToString(b) == ToString(c) + "_" + ToString(d)
    ensures a == c && b == d
  {
    CutsAgree(ToString(a), ToString(b), ToString(c), ToString(d));
    ToStringRoundTrip(a);
    ToStringRoundTrip(b);
    ToStringRoundTrip(c);
    ToStringRoundTrip(d);
  }

  predicate SamePair(a: u64, b: u64, c: u64, d: u64) {
    (a == c && b == d) || (a == d && b == c)
  }

  /** Two conversation ids are equal exactly when the unordered pairs of users are. */
  lemma ConvIdsEqualIff(a: u64, b: u64, c: u64, d: u64)
    ensures P2PConvId(a, b) == P2PConvId(c, d) <==> SamePair(a, b, c, d)
  {
    var lo1, hi1 := if a <= b then a else b, if a <= b then b else a;
    var lo2, hi2 := if c <= d then c else d, if c <= d then d else c;
    if P2PConvId(a, b) == P2PConvId(c, d) {
      JoinIsInjective(lo1, hi1, lo2, hi2);
    }
  }
}
